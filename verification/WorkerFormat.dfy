/**
 The PXWK worker stream format: a magic word, length-prefixed records, and an end
 marker that no length can equal. A worker task is a function that may fail.
 */
module WorkerFormat {
  import opened Buffers
  import opened ResourceLimits

  const MAGIC: Buffer := [0x50, 0x58, 0x57, 0x4b, 1] // PXWK v1
  const END: Buffer := [0xff, 0xff, 0xff, 0xff]
  const END_MARK: nat := 0xffff_ffff

  /** One direction of a worker stream: what it runs, under the engine's limits. */
  datatype Stream = Stream(task: Buffer -> Option<Buffer>, limits: EngineLimits)

  /** The engine accepts no frame limit below one. */
  predicate StreamOk(st: Stream) { st.limits.maxFrameBytes >= 1 }

  function MaxFrame(limits: EngineLimits): nat { Min(limits.maxFrameBytes, 0xffff_fffe) }

  /** One task, as the `frames`-th frame after others; None when it fails or exceeds a limit. */
  function RunTask(st: Stream, frames: nat, data: Buffer): (r: Option<Buffer>)
    ensures r.Some? ==> |r.value| <= MaxFrame(st.limits)
  {
    if frames + 1 > st.limits.maxFrames || |data| > PluginInputLimit(st.limits) then None else
    match st.task(data)
    case None => None
    case Some(output) =>
      if |output| > PluginOutputLimit(st.limits) || |output| > MaxFrame(st.limits) then None else Some(output)
  }

  // ---------------------------------------------------------------------- encoding

  /** Every chunk is cut on its own: pieces never join two chunks. */
  function Pieces(chunks: seq<Buffer>, size: nat): seq<Buffer>
    requires size > 0
  {
    if chunks == [] then [] else Pieces(chunks[..|chunks| - 1], size) + Chunks(chunks[|chunks| - 1], size)
  }

  predicate AllRun(st: Stream, pieces: seq<Buffer>) {
    forall i | 0 <= i < |pieces| :: RunTask(st, i, pieces[i]).Some?
  }

  function Record(output: Buffer): Buffer { ToBigEndian(|output|, 4) + output }

  function RecordOf(st: Stream, i: nat, piece: Buffer): Buffer {
    match RunTask(st, i, piece)
    case None => []
    case Some(output) => Record(output)
  }

  function Records(st: Stream, pieces: seq<Buffer>): (records: seq<Buffer>)
    ensures |records| == |pieces|
  {
    seq(|pieces|, i requires 0 <= i < |pieces| => RecordOf(st, i, pieces[i]))
  }

  function Opening(st: Stream, pieces: seq<Buffer>): Buffer { MAGIC + Flatten(Records(st, pieces)) }

  function Wire(st: Stream, pieces: seq<Buffer>): Buffer { Opening(st, pieces) + END }

  /** What encoding a stream of chunks puts on the wire. */
  function Encoded(st: Stream, chunks: seq<Buffer>): Option<Buffer>
    requires StreamOk(st)
  {
    var pieces := Pieces(chunks, MaxFrame(st.limits));
    if |Flatten(chunks)| <= PluginInputLimit(st.limits) && AllRun(st, pieces)
       && |Wire(st, pieces)| <= st.limits.maxOutputBytes
    then Some(Wire(st, pieces)) else None
  }

  // ---------------------------------------------------------------------- decoding

  datatype Progress = Progress(frames: nat, outputBytes: nat, ended: bool)

  const START := Progress(0, 0, false)

  datatype Item = Incomplete | Refused | EndItem | RecordItem(size: nat, output: Buffer)

  /** The item at the front of `b`, after the magic word. */
  function NextItem(st: Stream, p: Progress, b: Buffer): (item: Item)
    ensures item.RecordItem? ==> 4 <= item.size <= |b|
    ensures item.EndItem? ==> 4 <= |b|
  {
    if |b| < 4 then Incomplete else
    var length := BigEndian(b[..4]);
    if length == END_MARK then EndItem
    else if length > MaxFrame(st.limits) then Refused
    else if |b| < 4 + length then Incomplete
    else Ran(st, p, b[4..4 + length])
  }

  /** A whole record: its task runs, and its output must fit what may still be emitted. */
  function Ran(st: Stream, p: Progress, payload: Buffer): Item {
    match RunTask(st, p.frames, payload)
    case None => Refused
    case Some(output) =>
      if |output| > st.limits.maxOutputBytes - p.outputBytes then Refused
      else RecordItem(4 + |payload|, output)
  }

  function AfterRecord(p: Progress, output: Buffer): Progress {
    p.(frames := p.frames + 1, outputBytes := p.outputBytes + |output|)
  }

  datatype Walked = Walked(progress: Progress, outputs: seq<Buffer>, rest: Buffer, refused: bool)

  function Prepend(outputs: seq<Buffer>, w: Walked): Walked { w.(outputs := outputs + w.outputs) }

  function Walk(st: Stream, p: Progress, b: Buffer): Walked
    decreases |b|
  {
    if p.ended then Walked(p, [], b, b != []) else
    match NextItem(st, p, b)
    case Incomplete => Walked(p, [], b, false)
    case Refused => Walked(p, [], b, true)
    case EndItem => Walked(p.(ended := true), [], b[4..], b[4..] != [])
    case RecordItem(size, output) => Prepend([output], Walk(st, AfterRecord(p, output), b[size..]))
  }

  predicate Complete(w: Walked) { !w.refused && w.rest == [] && w.progress.ended }

  /** What decoding the wire bytes emits. */
  function Decoded(st: Stream, wire: Buffer): Option<Buffer> {
    if |wire| > PluginInputLimit(st.limits) || |wire| < |MAGIC| || wire[..|MAGIC|] != MAGIC then None
    else
      var w := Walk(st, START, wire[|MAGIC|..]);
      if Complete(w) then Some(Flatten(w.outputs)) else None
  }

  // -------------------------------------------------- cutting a decoder's input

  lemma NextItemStable(st: Stream, p: Progress, a: Buffer, b: Buffer)
    requires !NextItem(st, p, a).Incomplete?
    ensures NextItem(st, p, a + b) == NextItem(st, p, a)
  {
    hide Ran;
    assert (a + b)[..4] == a[..4];
    var length := BigEndian(a[..4]);
    if 4 + length <= |a| { assert (a + b)[4..4 + length] == a[4..4 + length]; }
  }

  lemma PrependTwice(a: seq<Buffer>, b: seq<Buffer>, w: Walked)
    ensures Prepend(a, Prepend(b, w)) == Prepend(a + b, w)
  {
    assert a + (b + w.outputs) == a + b + w.outputs;
  }

  function Resume(st: Stream, first: Walked, b: Buffer): Walked {
    if first.refused then first.(rest := first.rest + b)
    else Prepend(first.outputs, Walk(st, first.progress, first.rest + b))
  }

  /** Walking a ++ b is walking a, and then b from where a left off. */
  lemma {:induction false} WalkConcat(st: Stream, p: Progress, a: Buffer, b: Buffer)
    ensures Walk(st, p, a + b) == Resume(st, Walk(st, p, a), b)
    decreases |a|
  {
    hide NextItem;
    var item := NextItem(st, p, a);
    if p.ended {
      if a == [] { assert a + b == b; }
    } else if !item.Incomplete? {
      NextItemStable(st, p, a, b);
      if item.EndItem? {
        assert (a + b)[4..] == a[4..] + b;
      } else if item.RecordItem? {
        assert (a + b)[item.size..] == a[item.size..] + b;
        WalkConcat(st, AfterRecord(p, item.output), a[item.size..], b);
        var more := Walk(st, AfterRecord(p, item.output), a[item.size..]);
        PrependTwice([item.output], more.outputs, Walk(st, more.progress, more.rest + b));
      }
    }
  }

  // -------------------------------------------------------------------- round trip

  /** No length prefix can be the end marker. */
  lemma NoLengthIsTheEnd(st: Stream, n: nat)
    requires n <= MaxFrame(st.limits)
    ensures n < TWO_TO_THE_32 && BigEndian(ToBigEndian(n, 4)) == n != END_MARK
    ensures ToBigEndian(n, 4) != END
    ensures BigEndian(END) == END_MARK
  {
    Widths();
    ReadWritten(n, 4);
    assert END[1..] == [0xff, 0xff, 0xff] && END[1..][1..] == [0xff, 0xff] && END[1..][1..][1..] == [0xff];
  }

  lemma {:induction false} PiecesFlatten(chunks: seq<Buffer>, size: nat)
    requires size > 0
    ensures Flatten(Pieces(chunks, size)) == Flatten(chunks)
    ensures forall c | c in Pieces(chunks, size) :: |c| <= size
  {
    if chunks != [] {
      var front, last := chunks[..|chunks| - 1], chunks[|chunks| - 1];
      hide Flatten, Chunks;
      PiecesFlatten(front, size);
      ChunksFlatten(last, size);
      FlattenAppend(Pieces(front, size), Chunks(last, size));
      FlattenSnoc(front, last);
      assert front + [last] == chunks;
    }
  }

  /** The reverse task undoes the forward one. */
  ghost predicate Inverse(forward: Buffer -> Option<Buffer>, reverse: Buffer -> Option<Buffer>) {
    forall x, y :: forward(x) == Some(y) ==> reverse(y) == Some(x)
  }

  function Emitted(pieces: seq<Buffer>, i: nat): Progress
    requires i <= |pieces|
  {
    Progress(i, |Flatten(pieces[..i])|, false)
  }

  lemma EmittedStep(pieces: seq<Buffer>, i: nat)
    requires i < |pieces|
    ensures Emitted(pieces, i + 1) == AfterRecord(Emitted(pieces, i), pieces[i])
    ensures Emitted(pieces, i + 1).outputBytes <= |Flatten(pieces)|
  {
    hide Flatten;
    assert pieces[..i + 1] == pieces[..i] + [pieces[i]];
    FlattenSnoc(pieces[..i], pieces[i]);
    FlattenAppend(pieces[..i + 1], pieces[i + 1..]);
    assert pieces[..i + 1] + pieces[i + 1..] == pieces;
  }

  /** A written record is read back, unless its piece exceeds what may still be emitted. */
  lemma NextOfRecord(enc: Stream, dec: Stream, pieces: seq<Buffer>, i: nat, others: Buffer)
    requires enc.limits == dec.limits && Inverse(enc.task, dec.task)
    requires i < |pieces| && RunTask(enc, i, pieces[i]).Some? && |pieces[i]| <= MaxFrame(enc.limits)
    ensures var record := RecordOf(enc, i, pieces[i]);
      NextItem(dec, Emitted(pieces, i), record + others) ==
        if Emitted(pieces, i + 1).outputBytes <= enc.limits.maxOutputBytes
        then RecordItem(|record|, pieces[i]) else Refused
  {
    EmittedStep(pieces, i);
    var output := RunTask(enc, i, pieces[i]).value;
    NoLengthIsTheEnd(enc, |output|);
    var b := Record(output) + others;
    assert b[..4] == ToBigEndian(|output|, 4);
    assert b[4..4 + |output|] == output;
    hide Flatten, BigEndian;
    assert enc.task(pieces[i]) == Some(output);
    assert dec.task(output) == Some(pieces[i]);
  }

  function WireFrom(st: Stream, pieces: seq<Buffer>, i: nat): Buffer
    requires i <= |pieces|
  {
    Flatten(Records(st, pieces)[i..]) + END
  }

  lemma WireFromStep(st: Stream, pieces: seq<Buffer>, i: nat)
    requires i <= |pieces|
    ensures i < |pieces| ==> WireFrom(st, pieces, i) == RecordOf(st, i, pieces[i]) + WireFrom(st, pieces, i + 1)
    ensures i == |pieces| ==> WireFrom(st, pieces, i) == END
    ensures Wire(st, pieces) == MAGIC + WireFrom(st, pieces, 0)
  {
    hide RecordOf;
    var all := Records(st, pieces);
    assert all[0..] == all;
    if i < |pieces| {
      assert all[i..] == [all[i]] + all[i + 1..];
      hide Flatten;
      FlattenCons(all[i], all[i + 1..]);
    } else {
      assert all[i..] == [];
    }
  }

  /** What a decoder makes of written records: all the pieces, as long as they fit its output limit. */
  lemma {:induction false} WalkWritten(enc: Stream, dec: Stream, pieces: seq<Buffer>, i: nat)
    requires enc.limits == dec.limits && Inverse(enc.task, dec.task) && AllRun(enc, pieces) && i <= |pieces|
    requires forall c | c in pieces :: |c| <= MaxFrame(enc.limits)
    requires Emitted(pieces, i).outputBytes <= enc.limits.maxOutputBytes
    ensures var w := Walk(dec, Emitted(pieces, i), WireFrom(enc, pieces, i));
      if |Flatten(pieces)| <= enc.limits.maxOutputBytes
      then w == Walked(Progress(|pieces|, |Flatten(pieces)|, true), pieces[i..], [], false)
      else w.refused
    decreases |pieces| - i
  {
    hide NextItem, RecordOf, Flatten, Inverse;
    WireFromStep(enc, pieces, i);
    hide WireFrom;
    if i == |pieces| {
      assert pieces[..i] == pieces;
      EndIsRead(dec, Emitted(pieces, i));
    } else {
      var p := Emitted(pieces, i);
      EmittedStep(pieces, i);
      NextOfRecord(enc, dec, pieces, i, WireFrom(enc, pieces, i + 1));
      var b := WireFrom(enc, pieces, i);
      if Emitted(pieces, i + 1).outputBytes <= enc.limits.maxOutputBytes {
        WalkWritten(enc, dec, pieces, i + 1);
        assert b[|RecordOf(enc, i, pieces[i])|..] == WireFrom(enc, pieces, i + 1);
        assert [pieces[i]] + pieces[i + 1..] == pieces[i..];
      }
    }
  }

  lemma EndIsRead(st: Stream, p: Progress)
    ensures NextItem(st, p, END) == EndItem
  {
    NoLengthIsTheEnd(st, 0);
    assert END[..4] == END;
  }

  /**
   Round trip across two independent chunkings: whatever the wire bytes of an encoded
   stream, decoding them yields the input, exactly when the input fits the output limit.
   */
  lemma RoundTrip(enc: Stream, dec: Stream, chunks: seq<Buffer>)
    requires StreamOk(enc) && enc.limits == dec.limits && Inverse(enc.task, dec.task)
    requires Encoded(enc, chunks).Some?
    ensures Decoded(dec, Encoded(enc, chunks).value) ==
      if |Flatten(chunks)| <= enc.limits.maxOutputBytes then Some(Flatten(chunks)) else None
  {
    hide Walk, Records, Inverse, Flatten, RunTask;
    var pieces := Pieces(chunks, MaxFrame(enc.limits));
    PiecesFlatten(chunks, MaxFrame(enc.limits));
    var wire := Wire(enc, pieces);
    WireFromStep(enc, pieces, 0);
    hide WireFrom;
    assert wire[..|MAGIC|] == MAGIC && wire[|MAGIC|..] == WireFrom(enc, pieces, 0);
    assert pieces[..0] == [] && pieces[0..] == pieces;
    FlattenNothing();
    WalkWritten(enc, dec, pieces, 0);
  }
}
