/** The PXWK transforms of createStream, and streams of chunks through them. */
module WorkerStream {
  import opened Buffers
  import opened ResourceLimits
  import opened WorkerFormat

  // ---------------------------------------------------------------------- encoding

  /** Chunks that no transform call refuses. */
  predicate Going(st: Stream, chunks: seq<Buffer>)
    requires StreamOk(st)
  {
    var pieces := Pieces(chunks, MaxFrame(st.limits));
    chunks == [] || (
      && |Flatten(chunks)| <= PluginInputLimit(st.limits)
      && AllRun(st, pieces)
      && |Opening(st, pieces)| <= st.limits.maxOutputBytes)
  }

  lemma {:induction false} PiecesAppend(a: seq<Buffer>, b: seq<Buffer>, size: nat)
    requires size > 0
    ensures Pieces(a + b, size) == Pieces(a, size) + Pieces(b, size)
    decreases |b|
  {
    if b == [] {
      assert a + b == a && Pieces(a, size) + [] == Pieces(a, size);
    } else {
      var front, last := b[..|b| - 1], b[|b| - 1];
      hide Chunks;
      PiecesAppend(a, front, size);
      assert (a + b)[..|a + b| - 1] == a + front && (a + b)[|a + b| - 1] == last;
      assert Pieces(a, size) + Pieces(front, size) + Chunks(last, size)
          == Pieces(a, size) + (Pieces(front, size) + Chunks(last, size));
    }
  }

  lemma OneMoreChunk(chunks: seq<Buffer>, chunk: Buffer, size: nat)
    requires size > 0
    ensures Pieces(chunks + [chunk], size) == Pieces(chunks, size) + Chunks(chunk, size)
    ensures |Flatten(chunks + [chunk])| == |Flatten(chunks)| + |chunk|
  {
    hide Flatten, Chunks;
    assert (chunks + [chunk])[..|chunks|] == chunks;
    FlattenSnoc(chunks, chunk);
  }

  lemma RecordsAppend(st: Stream, a: seq<Buffer>, b: seq<Buffer>)
    ensures AllRun(st, a + b) ==> AllRun(st, a)
    ensures |Opening(st, a)| <= |Opening(st, a + b)|
  {
    hide RecordOf, RunTask, Flatten;
    var all := Records(st, a + b);
    assert all[..|a|] == Records(st, a);
    FlattenAppend(all[..|a|], all[|a|..]);
    assert all == all[..|a|] + all[|a|..];
    if AllRun(st, a + b) {
      forall i | 0 <= i < |a| ensures RunTask(st, i, a[i]).Some? {
        assert (a + b)[i] == a[i];
      }
    }
  }

  lemma RecordsSnoc(st: Stream, pieces: seq<Buffer>, piece: Buffer)
    ensures Opening(st, pieces + [piece]) == Opening(st, pieces) + RecordOf(st, |pieces|, piece)
    ensures AllRun(st, pieces) && RunTask(st, |pieces|, piece).Some? <==> AllRun(st, pieces + [piece])
  {
    hide RecordOf, RunTask, Flatten;
    assert Records(st, pieces + [piece]) == Records(st, pieces) + [RecordOf(st, |pieces|, piece)];
    FlattenSnoc(Records(st, pieces), RecordOf(st, |pieces|, piece));
    var all := pieces + [piece];
    if AllRun(st, all) {
      assert all[|pieces|] == piece;
      assert forall i | 0 <= i < |pieces| :: all[i] == pieces[i];
    }
  }

  /** A refused prefix of the chunks refuses the whole stream. */
  lemma NotGoing(st: Stream, a: seq<Buffer>, b: seq<Buffer>)
    requires StreamOk(st) && !Going(st, a)
    ensures Encoded(st, a + b).None?
  {
    hide Pieces, AllRun, Opening, Flatten;
    PiecesAppend(a, b, MaxFrame(st.limits));
    RecordsAppend(st, Pieces(a, MaxFrame(st.limits)), Pieces(b, MaxFrame(st.limits)));
    FlattenAppend(a, b);
  }

  class EncodeTransform {
    const st: Stream
    var inputBytes: nat
    var outputBytes: nat
    var frames: nat
    var started: bool
    var pushed: seq<Buffer>
    ghost var chunks: seq<Buffer>
    ghost var pieces: seq<Buffer>

    ghost predicate Consistent()
      reads this
    {
      && StreamOk(st)
      && AllRun(st, pieces) && frames == |pieces|
      && Flatten(pushed) == (if started then Opening(st, pieces) else [])
      && outputBytes == |Flatten(pushed)| <= st.limits.maxOutputBytes
      && (!started ==> pieces == [])
    }

    ghost predicate Valid()
      reads this
    {
      && Consistent()
      && pieces == Pieces(chunks, MaxFrame(st.limits))
      && inputBytes == |Flatten(chunks)| <= PluginInputLimit(st.limits)
      && (chunks != [] ==> started)
    }

    constructor (st: Stream)
      requires StreamOk(st)
      ensures Valid() && this.st == st && chunks == []
    {
      this.st := st;
      inputBytes, outputBytes, frames, started := 0, 0, 0, false;
      pushed, chunks, pieces := [], [], [];
    }

    method Emit(bytes: Buffer) returns (ok: bool)
      requires outputBytes == |Flatten(pushed)| <= st.limits.maxOutputBytes
      modifies this`outputBytes, this`pushed
      ensures ok == (old(outputBytes) + |bytes| <= st.limits.maxOutputBytes)
      ensures ok ==> Flatten(pushed) == old(Flatten(pushed)) + bytes && outputBytes == |Flatten(pushed)|
    {
      if |bytes| > st.limits.maxOutputBytes - outputBytes { return false; }
      FlattenSnoc(pushed, bytes);
      outputBytes := outputBytes + |bytes|;
      pushed := pushed + [bytes];
      return true;
    }

    method Start() returns (ok: bool)
      requires Consistent()
      modifies this`outputBytes, this`pushed, this`started
      ensures ok == (|Opening(st, pieces)| <= st.limits.maxOutputBytes)
      ensures ok ==> Consistent() && started
    {
      hide Flatten;
      FlattenNothing();
      assert Records(st, []) == [];
      assert MAGIC + [] == MAGIC;
      if started { return true; }
      ok := Emit(MAGIC);
      if ok { started := true; }
    }

    /** One piece of a chunk: its task, then its length and its output. */
    method EncodePiece(piece: Buffer) returns (ok: bool)
      requires Consistent() && started
      modifies this`outputBytes, this`pushed, this`frames, this`pieces
      ensures ok ==
        (AllRun(st, old(pieces) + [piece]) && |Opening(st, old(pieces) + [piece])| <= st.limits.maxOutputBytes)
      ensures ok ==> Consistent() && pieces == old(pieces) + [piece]
    {
      RecordsSnoc(st, pieces, piece);
      hide RunTask, AllRun, Opening, Flatten;
      var output := RunTask(st, frames, piece);
      frames := frames + 1;
      if output.None? { return false; }
      ok := Emit(ToBigEndian(|output.value|, 4));
      if !ok { return; }
      ok := Emit(output.value);
      if !ok { return; }
      ghost var record := Record(output.value);
      assert Flatten(pushed) == old(Flatten(pushed)) + record;
      pieces := pieces + [piece];
    }

    /** The loop over the pieces of a chunk. */
    method EncodeChunk(chunk: Buffer) returns (ok: bool)
      requires Consistent() && started
      modifies this`outputBytes, this`pushed, this`frames, this`pieces
      ensures var all := old(pieces) + Chunks(chunk, MaxFrame(st.limits));
        && ok == (AllRun(st, all) && |Opening(st, all)| <= st.limits.maxOutputBytes)
        && (ok ==> Consistent() && pieces == all)
    {
      hide Flatten, Chunks, AllRun, Opening, ChunksFrom;
      var maxFrame, offset := MaxFrame(st.limits), 0;
      ghost var all := pieces + Chunks(chunk, maxFrame);
      ChunksFromEnds(chunk, maxFrame);
      assert [] + ChunksFrom(chunk, 0, maxFrame) == ChunksFrom(chunk, 0, maxFrame);
      RecordsAppend(st, pieces, []);
      while offset < |chunk|
        invariant Consistent() && started
        invariant pieces + ChunksFrom(chunk, offset, maxFrame) == all
      {
        var piece := chunk[offset..Min(|chunk|, offset + maxFrame)];
        NextChunk(chunk, offset, maxFrame);
        AppendHead(pieces, piece, ChunksFrom(chunk, offset + maxFrame, maxFrame));
        RecordsAppend(st, pieces + [piece], ChunksFrom(chunk, offset + maxFrame, maxFrame));
        ok := EncodePiece(piece);
        if !ok { return; }
        offset := offset + maxFrame;
      }
      NoMoreChunks(chunk, offset, maxFrame);
      assert pieces + [] == pieces;
      return true;
    }

    method Transform(chunk: Buffer) returns (ok: bool)
      requires Valid()
      modifies this
      ensures ok == Going(st, old(chunks) + [chunk])
      ensures ok ==> Valid() && chunks == old(chunks) + [chunk]
    {
      hide Flatten, Pieces, Chunks, AllRun, Opening;
      OneMoreChunk(chunks, chunk, MaxFrame(st.limits));
      RecordsAppend(st, pieces, Chunks(chunk, MaxFrame(st.limits)));
      if |chunk| > PluginInputLimit(st.limits) - inputBytes { return false; }
      inputBytes := inputBytes + |chunk|;
      ok := Start();
      if !ok { return; }
      ok := EncodeChunk(chunk);
      if !ok { return; }
      chunks := chunks + [chunk];
    }

    method Flush() returns (ok: bool)
      requires Valid()
      modifies this
      ensures ok == Encoded(st, old(chunks)).Some?
      ensures ok ==> Some(Flatten(pushed)) == Encoded(st, old(chunks))
    {
      hide Flatten, Pieces, AllRun, Opening;
      ok := Start();
      if !ok { return; }
      ok := Emit(END);
    }
  }

  /** A stream of chunks through the encoder, then flush. */
  method RunEncode(st: Stream, chunks: seq<Buffer>) returns (r: Option<seq<Buffer>>)
    requires StreamOk(st)
    ensures r.Some? <==> Encoded(st, chunks).Some?
    ensures r.Some? ==> Some(Flatten(r.value)) == Encoded(st, chunks)
  {
    hide Flatten, Encoded, Going, EncodeTransform.Consistent;
    var t := new EncodeTransform(st);
    var i := 0;
    while i < |chunks|
      invariant i <= |chunks| && fresh(t) && t.Valid() && t.st == st && t.chunks == chunks[..i]
    {
      assert chunks[..i + 1] == chunks[..i] + [chunks[i]];
      var ok := t.Transform(chunks[i]);
      i := i + 1;
      if !ok {
        assert chunks[..i] + chunks[i..] == chunks;
        NotGoing(st, chunks[..i], chunks[i..]);
        return None;
      }
    }
    assert chunks[..i] == chunks;
    var ok := t.Flush();
    return if ok then Some(t.pushed) else None;
  }
}
