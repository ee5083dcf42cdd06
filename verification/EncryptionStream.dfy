/** createEncryptionStream: the PXAE writer as a transform over chunks. */
module EncryptionStream {
  import opened Buffers
  import opened EncryptionFormat
  import opened EncryptionLaws
  import opened EncryptionBuffer

  /** What the stream has pushed: the header once sent, and the sealed full frames. */
  function Pushes(s: Session, headerSent: bool, full: seq<Buffer>): seq<Buffer> {
    (if headerSent then [s.header.bytes] else []) + DataFrames(s, full)
  }

  /** The frames the received bytes fill, and the bytes of the next one. */
  ghost predicate Filled(received: Buffer, full: seq<Buffer>, rest: Buffer, size: nat) {
    && received == Flatten(full) + rest
    && |rest| < size
    && forall c | c in full :: |c| == size
  }

  lemma FillMore(received: Buffer, full: seq<Buffer>, rest: Buffer, more: Buffer, size: nat)
    requires Filled(received, full, rest, size) && |rest + more| <= size
    ensures |rest + more| < size ==> Filled(received + more, full, rest + more, size)
    ensures |rest + more| == size ==> Filled(received + more, full + [rest + more], [], size)
  {
    hide Flatten;
    assert received + more == Flatten(full) + (rest + more);
    FlattenSnoc(full, rest + more);
    assert Flatten(full + [rest + more]) + [] == Flatten(full) + (rest + more);
  }

  /** The frame counter stays within the count computed from the total. */
  lemma FramesWithinCount(received: Buffer, full: seq<Buffer>, rest: Buffer, size: nat, total: nat)
    requires size > 0 && Filled(received, full, rest, size) && |received| <= total
    ensures |full| + (if rest == [] then 0 else 1) <= DataFrameCount(total, size)
  {
    ChunksOf(full, rest, size);
    ChunksMakeData(received, size);
    CountMonotone(|received|, total, size);
  }

  /** A full frame is pushed. */
  lemma PushesMore(s: Session, full: seq<Buffer>, frame: Buffer)
    ensures Pushes(s, true, full + [frame]) == Pushes(s, true, full) + [SealFrame(s, DATA_FRAME, |full|, frame)]
  {
    hide SealFrame;
    DataFramesSnoc(s, full, frame);
  }

  class EncryptionTransform {
    const session: Session
    const pending: array<byte>
    var pendingBytes: nat
    var inputBytes: nat
    var dataFrames: nat
    var sequence: nat
    var headerSent: bool
    var pushed: seq<Buffer>
    ghost var received: Buffer
    ghost var full: seq<Buffer>

    ghost predicate Consistent()
      reads this, pending
    {
      && pending.Length == session.header.frameSizeBytes > 0
      && pendingBytes < pending.Length
      && Filled(received, full, pending[..pendingBytes], pending.Length)
      && sequence == dataFrames == |full|
      && pushed == Pushes(session, headerSent, full)
      && (!headerSent ==> received == [])
    }

    ghost predicate Valid()
      reads this, pending
    {
      && Consistent()
      && inputBytes == |received|
      && WithinWriterLimits(inputBytes, pending.Length, session.limits)
    }

    constructor (s: Session)
      requires s.header.frameSizeBytes > 0 && WithinWriterLimits(0, s.header.frameSizeBytes, s.limits)
      ensures Valid() && session == s && received == [] && fresh(pending)
    {
      session := s;
      pending := new byte[s.header.frameSizeBytes](_ => 0);
      pendingBytes, inputBytes, dataFrames, sequence, headerSent := 0, 0, 0, 0, false;
      pushed, received, full := [], [], [];
      new;
      assert pending[..0] == [] && Flatten(full) + [] == [];
      assert pushed == Pushes(session, false, []);
    }

    method SendHeader()
      requires Consistent()
      modifies this`pushed, this`headerSent
      ensures Consistent() && headerSent && old(pushed) <= pushed
    {
      hide SealFrame;
      FullIsNothing(full, pending.Length);
      if !headerSent {
        pushed := pushed + [session.header.bytes];
        headerSent := true;
      }
    }

    method Transform(chunk: Buffer) returns (ok: bool)
      requires Valid()
      modifies this, pending
      ensures ok == WithinWriterLimits(old(|received|) + |chunk|, pending.Length, session.limits)
      ensures ok ==> Valid() && received == old(received) + chunk && old(pushed) <= pushed
    {
      hide SealFrame, DataFrameCount, EncodedLength, Filled, Pushes;
      var limits, frameSizeBytes := session.limits, pending.Length;
      if |chunk| > limits.maxInputBytes - inputBytes { return false; }
      var prospectiveInput := inputBytes + |chunk|;
      if DataFrameCount(prospectiveInput, frameSizeBytes) > limits.maxFrames { return false; }
      if EncodedLength(prospectiveInput, frameSizeBytes) > limits.maxOutputBytes { return false; }
      inputBytes := prospectiveInput;
      SendHeader();
      ghost var before, first := received, pushed;
      var offset := 0;
      assert before + chunk[..0] == before;
      while offset < |chunk|
        invariant offset <= |chunk| && Consistent() && headerSent && inputBytes == prospectiveInput
        invariant received == before + chunk[..offset] && first <= pushed
      {
        var copied := Min(frameSizeBytes - pendingBytes, |chunk| - offset);
        assert chunk[..offset] + chunk[offset..offset + copied] == chunk[..offset + copied];
        Take(chunk, offset, copied, prospectiveInput);
        offset := offset + copied;
      }
      assert chunk[..offset] == chunk;
      return true;
    }

    /** One turn of the copy loop; the frame-count check it makes can never fail. */
    method Take(chunk: Buffer, offset: nat, copied: nat, prospectiveInput: nat)
      requires Consistent() && headerSent
      requires 0 < copied && offset + copied <= |chunk| && pendingBytes + copied <= pending.Length
      requires |received| + copied <= prospectiveInput
      requires DataFrameCount(prospectiveInput, pending.Length) <= session.limits.maxFrames
      modifies this`pendingBytes, this`dataFrames, this`sequence, this`pushed, this`received, this`full, pending
      ensures Consistent() && old(pushed) <= pushed
      ensures received == old(received) + chunk[offset..offset + copied]
    {
      hide SealFrame, DataFrameCount, Flatten, Pushes;
      ghost var more := chunk[offset..offset + copied];
      FillMore(received, full, pending[..pendingBytes], more, pending.Length);
      hide Filled;
      CopyInto(pending, pendingBytes, chunk, offset, copied);
      pendingBytes := pendingBytes + copied;
      received := received + more;
      if pendingBytes == pending.Length {
        var frame := pending[..pendingBytes];
        FramesWithinCount(received, full + [frame], [], pending.Length, prospectiveInput);
        dataFrames := dataFrames + 1;
        assert dataFrames <= session.limits.maxFrames;
        PushesMore(session, full, frame);
        pushed := pushed + [SealFrame(session, DATA_FRAME, sequence, frame)];
        sequence := sequence + 1;
        full := full + [frame];
        pendingBytes := 0;
        assert pending[..0] == [];
      }
    }

    /** The last data frame, if any bytes are pending, and the final frame. */
    method Flush()
      requires Valid()
      modifies this
      ensures Flatten(pushed) == Packet(session, old(received)) && old(pushed) <= pushed
    {
      hide SealFrame, DataFrameCount, EncodedLength, Filled, Flatten, Chunks, Pushes, DataFrames;
      SendHeader();
      ghost var sent := pushed;
      var chunks := FlushPending();
      pushed := pushed + [SealFrame(session, FINAL_FRAME, sequence, [])];
      WholePacket(session, chunks, pushed);
    }

    method FlushPending() returns (ghost chunks: seq<Buffer>)
      requires Valid() && headerSent
      modifies this`dataFrames, this`pushed, this`sequence
      ensures chunks == Chunks(received, pending.Length) && sequence == |chunks|
      ensures pushed == Pushes(session, true, chunks) && old(pushed) <= pushed
    {
      hide SealFrame, DataFrameCount, EncodedLength, Flatten, Chunks;
      ghost var rest := pending[..pendingBytes];
      ChunksOf(full, rest, pending.Length);
      FramesWithinCount(received, full, rest, pending.Length, inputBytes);
      chunks := full;
      if pendingBytes > 0 {
        dataFrames := dataFrames + 1;
        assert dataFrames <= session.limits.maxFrames;
        DataFramesSnoc(session, full, rest);
        pushed := pushed + [SealFrame(session, DATA_FRAME, sequence, pending[..pendingBytes])];
        chunks := full + [rest];
        sequence := sequence + 1;
      } else {
        assert full + [] == full;
      }
    }
  }

  lemma WholePacket(s: Session, chunks: seq<Buffer>, pushed: seq<Buffer>)
    requires pushed == Pushes(s, true, chunks) + [SealFrame(s, FINAL_FRAME, |chunks|, [])]
    ensures Flatten(pushed) == s.header.bytes + Flatten(AllFrames(s, chunks))
  {
    hide SealFrame, DataFrames, Flatten;
    assert pushed == [s.header.bytes] + AllFrames(s, chunks);
    FlattenCons(s.header.bytes, AllFrames(s, chunks));
  }

  lemma FullIsNothing(full: seq<Buffer>, size: nat)
    requires size > 0 && forall c | c in full :: |c| == size
    ensures full != [] ==> Flatten(full) != []
  {
  }

  /** Creating the stream fails exactly when no message at all could be encrypted. */
  method CreateEncryptionStream(w: Writer) returns (t: EncryptionTransform?)
    requires WriterOk(w)
    ensures t == null ==> forall data :: Encrypted(w, data).None?
    ensures t != null ==> fresh(t) && fresh(t.pending) && t.Valid() && t.received == []
    ensures t != null ==> WriterSession(w) == Some(t.session)
  {
    var limits := LimitsFor(w.limits);
    var resolved := ResolveFrameSize(w.requestedFrameSize, limits);
    if |w.key| != 32 || resolved.None? { return null; }
    HeaderRoundTrip(w.algorithm, resolved.value, w.salt, limits);
    hide ParseHeader, BuildHeader, DataFrameCount, Packet, ResolveFrameSize;
    var s := WriterSession(w).value;
    if EncodedLength(0, resolved.value) > limits.maxOutputBytes {
      forall data ensures Encrypted(w, data).None? {
        CountMonotone(0, |data|, resolved.value);
      }
      return null;
    }
    assert DataFrameCount(0, resolved.value) == 0 by { NoFrames(resolved.value); }
    t := new EncryptionTransform(s);
  }

  /** A stream of chunks through the transform, then flush. */
  method RunEncryption(w: Writer, chunks: seq<Buffer>) returns (r: Option<seq<Buffer>>)
    requires WriterOk(w)
    ensures r.Some? <==> Encrypted(w, Flatten(chunks)).Some?
    ensures r.Some? ==> Some(Flatten(r.value)) == Encrypted(w, Flatten(chunks))
  {
    hide Packet, WriterSession, DataFrameCount, EncodedLength, Flatten, Filled, Pushes;
    var t := CreateEncryptionStream(w);
    if t == null { return None; }
    var i := 0;
    FlattenNothing();
    while i < |chunks|
      invariant i <= |chunks| && fresh(t) && fresh(t.pending) && t.Valid()
      invariant t.received == Flatten(chunks[..i])
    {
      assert chunks[..i + 1] == chunks[..i] + [chunks[i]];
      FlattenSnoc(chunks[..i], chunks[i]);
      var ok := t.Transform(chunks[i]);
      i := i + 1;
      if !ok {
        assert chunks[..i] + chunks[i..] == chunks;
        FlattenAppend(chunks[..i], chunks[i..]);
        CountMonotone(|Flatten(chunks[..i])|, |Flatten(chunks)|, t.pending.Length);
        return None;
      }
    }
    assert chunks[..i] == chunks;
    t.Flush();
    return Some(t.pushed);
  }
}
