/**
 The worker stream format in its own terms: which pieces a chunk is cut into, which records
 an encoder writes for them, and which wire bytes a decoder accepts, whatever the task.
 */
module WorkerRecords {
  import opened Buffers
  import opened ResourceLimits
  import opened WorkerFormat

  // ------------------------------------------------------------------------- encoding

  /** Chunks are cut one by one into full pieces and a rest; cutting neither loses nor joins anything. */
  lemma {:induction false} PiecesAre(chunks: seq<Buffer>, chunk: Buffer, size: nat)
    requires size > 0
    ensures Pieces([], size) == [] && Pieces(chunks + [chunk], size) == Pieces(chunks, size) + Chunks(chunk, size)
    ensures Flatten(Chunks(chunk, size)) == chunk
    ensures forall i | 0 <= i < |Chunks(chunk, size)| ::
      if i < |Chunks(chunk, size)| - 1 then |Chunks(chunk, size)[i]| == size else 0 < |Chunks(chunk, size)[i]| <= size
  {
    hide Flatten, Chunks;
    assert (chunks + [chunk])[..|chunks|] == chunks;
    ChunksFlatten(chunk, size);
    PieceSizes(chunk, size);
  }

  lemma PartWithin(parts: seq<Buffer>, i: nat)
    requires i < |parts|
    ensures |parts[i]| <= |Flatten(parts)|
  {
    hide Flatten;
    assert parts == parts[..i] + [parts[i]] + parts[i + 1..];
    FlattenAppend(parts[..i] + [parts[i]], parts[i + 1..]);
    FlattenSnoc(parts[..i], parts[i]);
  }

  lemma RunsExactly(st: Stream, m: nat, i: nat, piece: Buffer)
    requires m == if st.limits.maxFrameBytes <= 0xffff_fffe then st.limits.maxFrameBytes else 0xffff_fffe
    requires |piece| <= Max(st.limits.maxInputBytes, st.limits.maxOutputBytes)
    ensures RunTask(st, i, piece) ==
      if i < st.limits.maxFrames && st.task(piece).Some? && |st.task(piece).value| <= Min(m, st.limits.maxOutputBytes)
      then st.task(piece) else None
  {
  }

  /**
   An encoder succeeds exactly when the input is within the input limit, there are at most
   as many pieces as frames allowed, every task succeeds with an output that fits a frame,
   and the wire bytes are within the output limit; these are the magic word, a length and an
   output for every piece, and the end marker.
   */
  lemma EncodesExactly(st: Stream, chunks: seq<Buffer>, m: nat) returns (records: seq<Buffer>)
    requires StreamOk(st)
    requires m == if st.limits.maxFrameBytes <= 0xffff_fffe then st.limits.maxFrameBytes else 0xffff_fffe
    ensures m > 0 && |records| == |Pieces(chunks, m)|
    ensures forall i | 0 <= i < |records| ::
      st.task(Pieces(chunks, m)[i]).Some? && |st.task(Pieces(chunks, m)[i]).value| <= m ==>
        var output := st.task(Pieces(chunks, m)[i]).value; records[i] == ToBigEndian(|output|, 4) + output
    ensures var wire := [0x50, 0x58, 0x57, 0x4b, 1] + Flatten(records) + [0xff, 0xff, 0xff, 0xff];
      Encoded(st, chunks) ==
        if && |Flatten(chunks)| <= Max(st.limits.maxInputBytes, st.limits.maxOutputBytes)
           && |Pieces(chunks, m)| <= st.limits.maxFrames
           && (forall i | 0 <= i < |Pieces(chunks, m)| ::
                 st.task(Pieces(chunks, m)[i]).Some? && |st.task(Pieces(chunks, m)[i]).value| <= m)
           && |wire| <= st.limits.maxOutputBytes
        then Some(wire) else None
  {
    hide Flatten, Pieces, RunTask, ToBigEndian;
    var pieces := Pieces(chunks, m);
    records := seq(|pieces|, i requires 0 <= i < |pieces| => RecordFor(st.task(pieces[i])));
    if |Flatten(chunks)| <= Max(st.limits.maxInputBytes, st.limits.maxOutputBytes) {
      PiecesFlatten(chunks, m);
      RunsAre(st, m, pieces, records);
    }
  }

  function RecordFor(output: Option<Buffer>): Buffer {
    if output.None? then [] else ToBigEndian(|output.value|, 4) + output.value
  }

  /** All tasks run, by the tasks alone, as far as their records fit the output limit. */
  lemma RunsAre(st: Stream, m: nat, pieces: seq<Buffer>, records: seq<Buffer>)
    requires m == if st.limits.maxFrameBytes <= 0xffff_fffe then st.limits.maxFrameBytes else 0xffff_fffe
    requires |Flatten(pieces)| <= Max(st.limits.maxInputBytes, st.limits.maxOutputBytes)
    requires |records| == |pieces|
    requires forall i | 0 <= i < |pieces| :: records[i] == RecordFor(st.task(pieces[i]))
    ensures AllRun(st, pieces) ==> Records(st, pieces) == records
    ensures AllRun(st, pieces) ==>
      && |pieces| <= st.limits.maxFrames
      && forall i | 0 <= i < |pieces| :: st.task(pieces[i]).Some? && |st.task(pieces[i]).value| <= m
    ensures |Flatten(records)| <= st.limits.maxOutputBytes && |pieces| <= st.limits.maxFrames
      && (forall i | 0 <= i < |pieces| :: st.task(pieces[i]).Some? && |st.task(pieces[i]).value| <= m)
      ==> AllRun(st, pieces)
  {
    hide Flatten, RunTask, ToBigEndian;
    forall i | 0 <= i < |pieces|
      ensures RunTask(st, i, pieces[i]) ==
        if i < st.limits.maxFrames && st.task(pieces[i]).Some?
           && |st.task(pieces[i]).value| <= Min(m, st.limits.maxOutputBytes) then st.task(pieces[i]) else None
      ensures |records[i]| <= |Flatten(records)|
    {
      PartWithin(pieces, i);
      PartWithin(records, i);
      RunsExactly(st, m, i, pieces[i]);
    }
    if AllRun(st, pieces) { LastRuns(st, pieces); }
  }

  lemma LastRuns(st: Stream, pieces: seq<Buffer>)
    requires AllRun(st, pieces)
    ensures |pieces| <= st.limits.maxFrames
  {
    if pieces != [] { assert RunTask(st, |pieces| - 1, pieces[|pieces| - 1]).Some?; }
  }

  /** A chunk no larger than a frame is one record. */
  lemma OneRecord(st: Stream, chunk: Buffer, output: Buffer)
    requires 0 < |chunk| <= Min(st.limits.maxFrameBytes, 0xffff_fffe) && st.limits.maxFrames >= 1
    requires |chunk| <= Max(st.limits.maxInputBytes, st.limits.maxOutputBytes)
    requires st.task(chunk) == Some(output) && |output| <= Min(st.limits.maxFrameBytes, 0xffff_fffe)
    requires 5 + 4 + |output| + 4 <= st.limits.maxOutputBytes
    ensures Encoded(st, [chunk])
         == Some([0x50, 0x58, 0x57, 0x4b, 1] + ToBigEndian(|output|, 4) + output + [0xff, 0xff, 0xff, 0xff])
  {
    hide Encoded, Pieces, Flatten, ToBigEndian;
    var m := if st.limits.maxFrameBytes <= 0xffff_fffe then st.limits.maxFrameBytes else 0xffff_fffe;
    OnePiece(chunk, m);
    FlattenOne(chunk);
    var record := ToBigEndian(|output|, 4) + output;
    FlattenOne(record);
    hide Min, Max;
    var records := EncodesExactly(st, [chunk], m);
    assert records[0] == record;
    assert records == [record];
    assert [0x50, 0x58, 0x57, 0x4b, 1] + record == [0x50, 0x58, 0x57, 0x4b, 1] + ToBigEndian(|output|, 4) + output;
  }

  lemma FlattenOne(x: Buffer)
    ensures Flatten([x]) == x
  {
    FlattenNothing();
    FlattenSnoc([], x);
    assert [] + [x] == [x] && [] + x == x;
  }

  lemma OnePiece(chunk: Buffer, m: nat)
    requires 0 < |chunk| <= m
    ensures Pieces([chunk], m) == [chunk]
  {
    PiecesAre([], chunk, m);
    assert [] + [chunk] == [chunk] && Chunks(chunk, m) == [chunk];
  }

  // ------------------------------------------------------------------------- decoding

  /** A record by its contents: its payload and what the task makes of it. */
  datatype Part = Part(payload: Buffer, output: Buffer)

  function Outputs(parts: seq<Part>): (o: seq<Buffer>)
    ensures |o| == |parts|
  {
    seq(|parts|, j requires 0 <= j < |parts| => parts[j].output)
  }

  /** A length and a payload for every record, and the end marker. */
  function RecordsOf(parts: seq<Part>): seq<Buffer> {
    seq(|parts|, j requires 0 <= j < |parts| => ToBigEndian(|parts[j].payload|, 4) + parts[j].payload)
      + [[0xff, 0xff, 0xff, 0xff]]
  }

  /** Payload and output fit a frame, the task makes the one of the other, and the output limit leaves room. */
  predicate Fits(st: Stream, before: nat, part: Part) {
    && |part.payload| <= Min(st.limits.maxFrameBytes, 0xffff_fffe)
    && |part.payload| <= Max(st.limits.maxInputBytes, st.limits.maxOutputBytes)
    && st.task(part.payload) == Some(part.output)
    && |part.output| <= Min(st.limits.maxFrameBytes, 0xffff_fffe)
    && before + |part.output| <= st.limits.maxOutputBytes
  }

  /** Records after `first` others that yielded `out` bytes, all within the limits. */
  ghost predicate Decodable(st: Stream, first: nat, out: nat, parts: seq<Part>) {
    && (forall j | 0 <= j < |parts| :: Fits(st, out + |Flatten(Outputs(parts[..j]))|, parts[j]))
    && (parts != [] ==> first + |parts| <= st.limits.maxFrames)
  }

  lemma OutputsCons(head: Part, parts: seq<Part>)
    ensures Outputs([head] + parts) == [head.output] + Outputs(parts) && Outputs([]) == []
  {
  }

  lemma RecordsCons(head: Part, parts: seq<Part>)
    ensures RecordsOf([head] + parts) == [ToBigEndian(|head.payload|, 4) + head.payload] + RecordsOf(parts)
  {
    hide ToBigEndian;
    var all, n := [head] + parts, |parts|;
    var whole, rest := RecordsOf(all), RecordsOf(parts);
    assert whole[0] == ToBigEndian(|head.payload|, 4) + head.payload;
    forall j | 0 <= j < |rest| ensures whole[j + 1] == rest[j] {
      if j < n { assert all[j + 1] == parts[j]; }
    }
  }

  lemma FrontCons(head: Part, parts: seq<Part>, j: nat)
    requires j <= |parts|
    ensures |Flatten(Outputs(([head] + parts)[..j + 1]))| == |head.output| + |Flatten(Outputs(parts[..j]))|
  {
    hide Flatten;
    assert ([head] + parts)[..j + 1] == [head] + parts[..j];
    OutputsCons(head, parts[..j]);
    FlattenCons(head.output, Outputs(parts[..j]));
  }

  lemma DecodableTail(st: Stream, first: nat, out: nat, head: Part, parts: seq<Part>)
    requires Decodable(st, first, out, [head] + parts)
    ensures Fits(st, out, head) && Decodable(st, first + 1, out + |head.output|, parts)
  {
    hide Fits, Flatten, Outputs;
    var all := [head] + parts;
    OutputsCons(head, parts);
    FlattenNothing();
    assert all[..0] == [] && Fits(st, out + |Flatten(Outputs(all[..0]))|, all[0]);
    forall j | 0 <= j < |parts| ensures Fits(st, out + |head.output| + |Flatten(Outputs(parts[..j]))|, parts[j]) {
      FrontCons(head, parts, j);
      assert Fits(st, out + |Flatten(Outputs(all[..j + 1]))|, all[j + 1]);
    }
  }

  lemma DecodableCons(st: Stream, first: nat, out: nat, head: Part, parts: seq<Part>)
    requires Fits(st, out, head) && Decodable(st, first + 1, out + |head.output|, parts)
    requires first + 1 <= st.limits.maxFrames
    ensures Decodable(st, first, out, [head] + parts)
  {
    hide Fits, Flatten, Outputs;
    var all := [head] + parts;
    OutputsCons(head, parts);
    FlattenNothing();
    assert all[..0] == [];
    forall j | 0 <= j < |all| ensures Fits(st, out + |Flatten(Outputs(all[..j]))|, all[j]) {
      if j > 0 {
        FrontCons(head, parts, j - 1);
        assert Fits(st, out + |head.output| + |Flatten(Outputs(parts[..j - 1]))|, parts[j - 1]);
      }
    }
  }

  /** A record a decoder takes, by its contents. */
  lemma TakenRecord(st: Stream, p: Progress, b: Buffer) returns (part: Part)
    requires NextItem(st, p, b).RecordItem?
    ensures var item := NextItem(st, p, b);
      && item.output == part.output && item.size <= |b|
      && b[..item.size] == ToBigEndian(|part.payload|, 4) + part.payload
      && Fits(st, p.outputBytes, part) && p.frames + 1 <= st.limits.maxFrames
  {
    var length := BigEndian(b[..4]);
    WriteRead(b[..4]);
    hide BigEndian, ToBigEndian;
    part := Part(b[4..4 + length], NextItem(st, p, b).output);
    assert b[..4 + length] == b[..4] + b[4..4 + length];
  }

  /** A record that fits is taken. */
  lemma RecordTaken(st: Stream, p: Progress, part: Part, others: Buffer)
    requires Fits(st, p.outputBytes, part) && p.frames + 1 <= st.limits.maxFrames
    ensures var record := ToBigEndian(|part.payload|, 4) + part.payload;
      NextItem(st, p, record + others) == RecordItem(|record|, part.output)
  {
    var n := |part.payload|;
    Widths();
    ReadWritten(n, 4);
    hide BigEndian, ToBigEndian;
    var b := ToBigEndian(n, 4) + part.payload + others;
    assert b[..4] == ToBigEndian(n, 4) && b[4..4 + n] == part.payload;
  }

  /** The end marker, read back. */
  lemma EndTaken(b: Buffer)
    requires |b| >= 4
    ensures BigEndian(b[..4]) == 0xffff_ffff <==> b[..4] == [0xff, 0xff, 0xff, 0xff]
  {
    WriteRead(b[..4]);
    WriteRead(END);
    assert END[1..] == [0xff, 0xff, 0xff] && END[1..][1..] == [0xff, 0xff] && END[1..][1..][1..] == [0xff];
    assert BigEndian(END) == 0xffff_ffff;
  }

  /** The records of a walk that completes. */
  lemma {:induction false} WalkDecodable(st: Stream, p: Progress, b: Buffer) returns (parts: seq<Part>)
    requires !p.ended && Complete(Walk(st, p, b))
    ensures Decodable(st, p.frames, p.outputBytes, parts)
    ensures b == Flatten(RecordsOf(parts)) && Walk(st, p, b).outputs == Outputs(parts)
    decreases |b|
  {
    hide Fits, NextItem, Outputs, RecordsOf, Flatten, Decodable;
    var item := NextItem(st, p, b);
    if item.EndItem? {
      parts := [];
      EndIs(st, p, b);
      assert b[4..] == [] && b == b[..4] + b[4..];
      NoRecords(st, p);
    } else {
      var part := TakenRecord(st, p, b);
      parts := WalkDecodable(st, AfterRecord(p, part.output), b[item.size..]);
      assert b == b[..item.size] + b[item.size..];
      DecodableCons(st, p.frames, p.outputBytes, part, parts);
      OutputsCons(part, parts);
      RecordsCons(part, parts);
      FlattenCons(ToBigEndian(|part.payload|, 4) + part.payload, RecordsOf(parts));
      parts := [part] + parts;
    }
  }

  lemma EndIs(st: Stream, p: Progress, b: Buffer)
    ensures NextItem(st, p, b).EndItem? <==> |b| >= 4 && b[..4] == [0xff, 0xff, 0xff, 0xff]
  {
    hide BigEndian, RunTask;
    if |b| >= 4 { EndTaken(b); }
  }

  lemma NoRecords(st: Stream, p: Progress)
    ensures Decodable(st, p.frames, p.outputBytes, []) && Outputs([]) == []
    ensures Flatten(RecordsOf([])) == [0xff, 0xff, 0xff, 0xff]
  {
    assert RecordsOf([]) == [] + [[0xff, 0xff, 0xff, 0xff]];
    FlattenSnoc([], [0xff, 0xff, 0xff, 0xff]);
  }

  /** Such records are walked to the end. */
  lemma {:induction false} DecodableWalks(st: Stream, p: Progress, parts: seq<Part>)
    requires !p.ended && Decodable(st, p.frames, p.outputBytes, parts)
    ensures var walked := Walk(st, p, Flatten(RecordsOf(parts)));
      Complete(walked) && walked.outputs == Outputs(parts)
    decreases |parts|
  {
    hide Fits, NextItem, Outputs, RecordsOf, Flatten;
    if parts == [] {
      NoRecords(st, p);
      EndIs(st, p, END);
      assert END[..4] == END && END[4..] == [];
    } else {
      var head, others := parts[0], parts[1..];
      assert parts == [head] + others;
      DecodableTail(st, p.frames, p.outputBytes, head, others);
      var room := p.frames + 1 <= st.limits.maxFrames;
      assert room;
      hide Decodable;
      var record, rest := ToBigEndian(|head.payload|, 4) + head.payload, Flatten(RecordsOf(others));
      OutputsCons(head, others);
      RecordsCons(head, others);
      FlattenCons(record, RecordsOf(others));
      RecordTaken(st, p, head, rest);
      assert (record + rest)[|record|..] == rest;
      DecodableWalks(st, AfterRecord(p, head.output), others);
    }
  }

  /**
   A decoder accepts exactly the magic word followed by records within the limits and the end
   marker, and emits the outputs of their tasks; a record is as long as a frame may be.
   */
  lemma DecodesExactly(st: Stream, wire: Buffer)
    ensures Decoded(st, wire).Some? <==>
      && |wire| <= Max(st.limits.maxInputBytes, st.limits.maxOutputBytes)
      && exists parts :: Decodable(st, 0, 0, parts) && wire == [0x50, 0x58, 0x57, 0x4b, 1] + Flatten(RecordsOf(parts))
    ensures |wire| <= Max(st.limits.maxInputBytes, st.limits.maxOutputBytes) ==>
      forall parts |
        Decodable(st, 0, 0, parts) && wire == [0x50, 0x58, 0x57, 0x4b, 1] + Flatten(RecordsOf(parts)) ::
        Decoded(st, wire) == Some(Flatten(Outputs(parts)))
  {
    hide Walk, Complete, Decodable, RecordsOf, Outputs, Flatten;
    if Decoded(st, wire).Some? {
      var parts := WalkDecodable(st, START, wire[5..]);
      assert wire == wire[..5] + wire[5..];
    }
    forall parts | Decodable(st, 0, 0, parts) && wire == [0x50, 0x58, 0x57, 0x4b, 1] + Flatten(RecordsOf(parts))
      ensures |wire| <= PluginInputLimit(st.limits) ==> Decoded(st, wire) == Some(Flatten(Outputs(parts)))
    {
      assert wire[..5] == MAGIC && wire[5..] == Flatten(RecordsOf(parts));
      DecodableWalks(st, START, parts);
    }
  }
}
