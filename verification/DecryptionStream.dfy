/** createDecryptionStream: the PXAE reader as a transform over chunks. */
module DecryptionStream {
  import opened Buffers
  import opened EncryptionFormat
  import opened EncryptionLaws
  import opened EncryptionBuffer

  /** A framed message prefix in which nothing is refused yet. */
  predicate FramedPrefix(r: Reader, data: Buffer) {
    |data| < GLOBAL_HEADER_LENGTH ||
    match ReaderSession(r, data[..GLOBAL_HEADER_LENGTH])
    case None => false
    case Some(s) => !Walk(s, START, data[GLOBAL_HEADER_LENGTH..]).refused
  }

  /** The plaintexts of the verified data frames at the front of a framed message. */
  function Verified(r: Reader, data: Buffer): seq<Buffer> {
    if |data| < GLOBAL_HEADER_LENGTH then [] else
    match ReaderSession(r, data[..GLOBAL_HEADER_LENGTH])
    case None => []
    case Some(s) => Walk(s, START, data[GLOBAL_HEADER_LENGTH..]).plaintexts
  }

  /** Input that no transform call refuses; only an explicit false disables legacy input here. */
  predicate StreamPrefix(r: Reader, data: Buffer) {
    && |data| <= LimitsFor(r.limits).maxInputBytes
    && (data == [] || if LooksLegacy(data) then r.allowLegacy != Some(false) else FramedPrefix(r, data))
  }

  /** What follows a refused prefix changes nothing, and what follows an accepted one only adds frames. */
  lemma FramedConcat(r: Reader, a: Buffer, b: Buffer)
    ensures !FramedPrefix(r, a) ==> !FramedPrefix(r, a + b)
    ensures Verified(r, a) <= Verified(r, a + b)
  {
    hide Walk;
    if |a| >= GLOBAL_HEADER_LENGTH {
      assert (a + b)[..GLOBAL_HEADER_LENGTH] == a[..GLOBAL_HEADER_LENGTH];
      assert (a + b)[GLOBAL_HEADER_LENGTH..] == a[GLOBAL_HEADER_LENGTH..] + b;
      if ReaderSession(r, a[..GLOBAL_HEADER_LENGTH]).Some? {
        WalkConcat(ReaderSession(r, a[..GLOBAL_HEADER_LENGTH]).value, START, a[GLOBAL_HEADER_LENGTH..], b);
      }
    }
  }

  lemma StreamConcat(r: Reader, a: Buffer, b: Buffer)
    ensures !StreamPrefix(r, a) ==> !StreamPrefix(r, a + b)
  {
    hide FramedPrefix;
    FramedConcat(r, a, b);
    if a == [] { assert a + b == b; }
  }

  /** A walk that stopped in the middle of a frame goes on with more bytes. */
  lemma {:induction false} WalkOn(s: Session, body: Buffer, p: Progress, plaintexts: seq<Buffer>,
                                  held: Buffer, more: Buffer)
    requires Walk(s, START, body) == Walked(p, plaintexts, held, false)
    ensures Walk(s, START, body + more) == Prepend(plaintexts, Walk(s, p, held + more))
  {
    WalkConcat(s, START, body, more);
  }

  datatype Format = Unknown | Framed | Legacy

  class DecryptionTransform {
    const reader: Reader
    const globalHeader: array<byte>
    const frameHeader: array<byte>
    var format: Format
    var totalInput: nat
    var totalOutput: nat
    var globalHeaderBytes: nat
    var session: Option<Session>
    var frameHeaderBytes: nat
    var frameBody: array?<byte>
    var frameBodyBytes: nat
    var expectedSequence: nat
    var dataFrames: nat
    var finalSeen: bool
    var legacyChunks: seq<Buffer>
    var pushed: seq<Buffer>
    ghost var received: Buffer

    /** The bytes of the frame under way. */
    ghost function Held(): Buffer
      reads this, frameHeader, frameBody
      requires frameHeaderBytes <= frameHeader.Length
      requires frameBody != null ==> frameBodyBytes <= frameBody.Length
    {
      frameHeader[..frameHeaderBytes] + if frameBody == null then [] else frameBody[..frameBodyBytes]
    }

    ghost function Reached(): Progress
      reads this
    {
      Progress(expectedSequence, dataFrames, totalOutput, finalSeen)
    }

    ghost predicate Shape()
      reads this, frameHeader, frameBody
    {
      && globalHeader.Length == GLOBAL_HEADER_LENGTH && frameHeader.Length == FRAME_HEADER_LENGTH
      && globalHeader != frameHeader && frameBody != globalHeader && frameBody != frameHeader
      && frameHeaderBytes <= FRAME_HEADER_LENGTH
      && (frameBody != null <==> frameHeaderBytes == FRAME_HEADER_LENGTH)
      && (frameBody != null ==>
            frameBody.Length == FrameBytes(frameHeader[..]) + TAG_LENGTH && frameBodyBytes < frameBody.Length)
    }

    /** The state after the bytes `received` of a framed message. */
    ghost predicate InFrames()
      reads this, globalHeader, frameHeader, frameBody
    {
      && Shape()
      && match session
         case None =>
           && globalHeaderBytes == |received| < GLOBAL_HEADER_LENGTH
           && globalHeader[..globalHeaderBytes] == received
           && Reached() == START && pushed == [] && frameHeaderBytes == 0
         case Some(s) =>
           && |received| >= GLOBAL_HEADER_LENGTH
           && ReaderSession(reader, received[..GLOBAL_HEADER_LENGTH]) == Some(s)
           && Walk(s, START, received[GLOBAL_HEADER_LENGTH..]) == Walked(Reached(), pushed, Held(), false)
           && (frameBody != null ==> HeaderAccepted(s, Reached(), frameHeader[..]))
           && (finalSeen ==> frameHeaderBytes == 0)
    }

    ghost predicate Valid()
      reads this, globalHeader, frameHeader, frameBody
    {
      && Shape()
      && totalInput == |received| <= LimitsFor(reader.limits).maxInputBytes
      && (format.Unknown? <==> received == [])
      && (format.Legacy? ==> received != [] && LooksLegacy(received) && reader.allowLegacy != Some(false)
                             && Flatten(legacyChunks) == received && pushed == [])
      && (format.Framed? ==> received != [] && !LooksLegacy(received))
      && (!format.Legacy? ==> InFrames() && legacyChunks == [])
    }

    constructor (r: Reader)
      ensures Valid() && reader == r && received == [] && pushed == []
      ensures fresh(globalHeader) && fresh(frameHeader) && frameBody == null
    {
      reader := r;
      globalHeader := new byte[GLOBAL_HEADER_LENGTH](_ => 0);
      frameHeader := new byte[FRAME_HEADER_LENGTH](_ => 0);
      format, session, frameBody := Unknown, None, null;
      totalInput, totalOutput, globalHeaderBytes, frameHeaderBytes, frameBodyBytes := 0, 0, 0, 0, 0;
      expectedSequence, dataFrames, finalSeen := 0, 0, false;
      legacyChunks, pushed, received := [], [], [];
    }

    /** Bytes of the global header, and the session once it is whole. */
    method FillGlobalHeader(input: Buffer, offset: nat) returns (ok: bool, copied: nat)
      requires InFrames() && session.None? && offset < |input|
      modifies this`globalHeaderBytes, this`session, this`received, globalHeader
      ensures 0 < copied && offset + copied <= |input|
      ensures ok ==> InFrames() && received == old(received) + input[offset..offset + copied]
      ensures !ok ==> !FramedPrefix(reader, old(received) + input[offset..offset + copied])
    {
      hide Walk, ParseHeader;
      copied := Min(GLOBAL_HEADER_LENGTH - globalHeaderBytes, |input| - offset);
      ghost var all := received + input[offset..offset + copied];
      CopyInto(globalHeader, globalHeaderBytes, input, offset, copied);
      globalHeaderBytes := globalHeaderBytes + copied;
      if globalHeaderBytes == GLOBAL_HEADER_LENGTH {
        assert globalHeader[..] == all == all[..GLOBAL_HEADER_LENGTH];
        var parsed := ParseHeader(globalHeader[..], LimitsFor(reader.limits));
        if parsed.None? { return false, copied; }
        session := Some(OpenSession(reader.crypto, reader.key, parsed.value, LimitsFor(reader.limits)));
        assert all[GLOBAL_HEADER_LENGTH..] == [];
        WalkNothing(session.value, START);
      }
      received := all;
      return true, copied;
    }

    /** Bytes of a frame header, and the checks once it is whole. */
    method FillFrameHeader(input: Buffer, offset: nat) returns (ok: bool, copied: nat)
      requires InFrames() && session.Some? && !finalSeen && frameBody == null && offset < |input|
      modifies this`frameHeaderBytes, this`frameBody, this`frameBodyBytes, this`received, frameHeader
      ensures 0 < copied && offset + copied <= |input|
      ensures ok ==> InFrames() && received == old(received) + input[offset..offset + copied]
      ensures ok ==> frameBody == null || fresh(frameBody)
      ensures !ok ==> !FramedPrefix(reader, old(received) + input[offset..offset + copied])
    {
      hide Walk, HeaderAccepted, FrameSequence, FrameBytes, ReaderSession, Prepend;
      copied := Min(FRAME_HEADER_LENGTH - frameHeaderBytes, |input| - offset);
      ghost var more := input[offset..offset + copied];
      ghost var p, held, s := Reached(), Held() + more, session.value;
      HeaderOn(received, more, s, p, pushed, Held());
      CopyInto(frameHeader, frameHeaderBytes, input, offset, copied);
      frameHeaderBytes := frameHeaderBytes + copied;
      assert frameHeader[..frameHeaderBytes] == held;
      if frameHeaderBytes == FRAME_HEADER_LENGTH {
        assert frameHeader[..] == held == held[..FRAME_HEADER_LENGTH];
        if !Checked(frameHeader[..]) { return false, copied; }
        frameBody := new byte[FrameBytes(frameHeader[..]) + TAG_LENGTH](_ => 0);
        frameBodyBytes := 0;
      }
      assert Held() == held;
      received := received + more;
      return true, copied;
    }

    /** The header checks, in the source's order. */
    function Checked(h: Buffer): (accepted: bool)
      requires session.Some? && |h| == FRAME_HEADER_LENGTH
      reads this
      ensures accepted == HeaderAccepted(session.value, Reached(), h)
    {
      var s, kind, ciphertextBytes := session.value, FrameKind(h), FrameBytes(h);
      if FrameSequence(h) != expectedSequence then false
      else if kind != DATA_FRAME && kind != FINAL_FRAME then false
      else if kind == FINAL_FRAME && ciphertextBytes != 0 then false
      else if ciphertextBytes > s.header.frameSizeBytes then false
      else if ciphertextBytes > s.limits.maxFrameBytes - FRAME_OVERHEAD then false
      else if kind == DATA_FRAME && dataFrames >= s.limits.maxFrames then false
      else if kind == DATA_FRAME && ciphertextBytes > s.limits.maxOutputBytes - totalOutput then false
      else true
    }

    /** What a verified frame does: its plaintext is pushed, and the next header is awaited. */
    method Release(kind: byte, restored: Buffer)
      modifies this`frameHeaderBytes, this`frameBody, this`frameBodyBytes, this`pushed
      modifies this`finalSeen, this`dataFrames, this`totalOutput, this`expectedSequence
      ensures Reached() == old(After(Reached(), Frame(0, kind, restored)))
      ensures pushed == old(pushed) + Yield(Frame(0, kind, restored))
      ensures frameBody == null && frameBodyBytes == 0 && frameHeaderBytes == 0
    {
      if kind == FINAL_FRAME {
        finalSeen := true;
      } else {
        dataFrames := dataFrames + 1;
        totalOutput := totalOutput + |restored|;
        pushed := pushed + [restored];
      }
      expectedSequence := expectedSequence + 1;
      frameBody, frameBodyBytes, frameHeaderBytes := null, 0, 0;
    }

    /** Bytes of a frame body, and its verification once it is whole. */
    method FillFrameBody(input: Buffer, offset: nat) returns (ok: bool, copied: nat)
      requires InFrames() && session.Some? && !finalSeen && frameBody != null && offset <= |input|
      modifies this`frameHeaderBytes, this`frameBody, this`frameBodyBytes, this`received, this`pushed
      modifies this`finalSeen, this`dataFrames, this`totalOutput, this`expectedSequence, frameBody
      ensures offset + copied <= |input| && (offset < |input| ==> 0 < copied)
      ensures ok ==> InFrames() && received == old(received) + input[offset..offset + copied]
      ensures ok ==> frameBody == null || frameBody == old(frameBody)
      ensures !ok ==> !FramedPrefix(reader, old(received) + input[offset..offset + copied])
      ensures old(pushed) <= pushed && (!ok ==> pushed == old(pushed))
    {
      hide Walk, HeaderAccepted, FrameSequence, FrameBytes, OpenBody, ReaderSession, Prepend, After, Yield;
      copied := Min(frameBody.Length - frameBodyBytes, |input| - offset);
      ghost var more := input[offset..offset + copied];
      ghost var p, held, s := Reached(), Held() + more, session.value;
      var h := frameHeader[..];
      assert Held()[..FRAME_HEADER_LENGTH] == h;
      BodyOn(received, more, s, p, pushed, Held());
      CopyInto(frameBody, frameBodyBytes, input, offset, copied);
      frameBodyBytes := frameBodyBytes + copied;
      assert held == h + frameBody[..frameBodyBytes] && held[..FRAME_HEADER_LENGTH] == h;
      if frameBodyBytes == frameBody.Length {
        var body := frameBody[..];
        assert held[FRAME_HEADER_LENGTH..] == body;
        var restored := OpenBody(session.value, h, body);
        if restored.None? { return false, copied; }
        Release(FrameKind(h), restored.value);
      }
      received := received + more;
      return true, copied;
    }

    /** Nothing may follow the final frame. */
    lemma TrailingRefused(more: Buffer)
      requires InFrames() && finalSeen && more != []
      ensures !FramedPrefix(reader, received + more)
    {
      hide Walk, HeaderAccepted, FrameSequence, FrameBytes, ReaderSession;
      HeldOn(received, more, session.value, Reached(), pushed, Held());
      NothingAfterFinal(session.value, Reached(), Held() + more);
    }

    /** One turn of the loop over a chunk. */
    method ConsumeSome(input: Buffer, offset: nat) returns (ok: bool, copied: nat)
      requires InFrames() && offset < |input|
      modifies this, globalHeader, frameHeader, frameBody
      ensures offset + copied <= |input| && (ok ==> 0 < copied)
      ensures ok ==> InFrames() && received == old(received) + input[offset..offset + copied]
      ensures ok ==> frameBody == null || frameBody == old(frameBody) || fresh(frameBody)
      ensures !ok ==> !FramedPrefix(reader, old(received) + input[offset..offset + copied])
      ensures old(pushed) <= pushed && (!ok ==> pushed == old(pushed))
      ensures totalInput == old(totalInput) && format == old(format) && legacyChunks == old(legacyChunks)
    {
      hide InFrames, FramedPrefix;
      if finalSeen {
        copied := |input| - offset;
        TrailingRefused(input[offset..offset + copied]);
        return false, copied;
      }
      if session.None? {
        ok, copied := FillGlobalHeader(input, offset);
        return;
      }
      ghost var before := received;
      var filled := 0;
      ok := true;
      if frameBody == null {
        ok, filled := FillFrameHeader(input, offset);
        if !ok || frameBody == null { return ok, filled; }
      }
      ok, copied := FillFrameBody(input, offset + filled);
      assert before + input[offset..offset + filled] + input[offset + filled..offset + filled + copied]
          == before + input[offset..offset + filled + copied];
      copied := filled + copied;
    }

    method ConsumeFramed(input: Buffer) returns (ok: bool)
      requires InFrames()
      modifies this, globalHeader, frameHeader, frameBody
      ensures ok == FramedPrefix(reader, old(received) + input)
      ensures ok ==> InFrames() && received == old(received) + input
      ensures ok ==> frameBody == null || frameBody == old(frameBody) || fresh(frameBody)
      ensures old(pushed) <= pushed <= Verified(reader, old(received) + input)
      ensures ok ==> pushed == Verified(reader, received)
      ensures totalInput == old(totalInput) && format == old(format) && legacyChunks == old(legacyChunks)
    {
      hide Walk, InFrames, FramedPrefix, Verified;
      ghost var before, whole := received, received + input;
      var offset := 0;
      assert input[..0] == [] && before + [] == before;
      while offset < |input|
        invariant offset <= |input| && InFrames() && received == before + input[..offset]
        invariant frameBody == null || frameBody == old(frameBody) || fresh(frameBody)
        invariant old(pushed) <= pushed
        invariant totalInput == old(totalInput) && format == old(format) && legacyChunks == old(legacyChunks)
      {
        ghost var start := offset;
        VerifiedInFrames();
        var copied;
        ok, copied := ConsumeSome(input, offset);
        offset := offset + copied;
        assert input[..start] + input[start..offset] == input[..offset];
        assert before + input[..start] + input[start..offset] == before + input[..offset];
        if !ok {
          FramedConcat(reader, before + input[..start], input[start..]);
          FramedConcat(reader, before + input[..offset], input[offset..]);
          assert before + input[..start] + input[start..] == whole;
          assert before + input[..offset] + input[offset..] == whole;
          return false;
        }
      }
      assert input[..offset] == input;
      VerifiedInFrames();
      return true;
    }

    /** Everything pushed is exactly the verified data frames of what was received. */
    lemma VerifiedInFrames()
      requires InFrames()
      ensures FramedPrefix(reader, received)
      ensures pushed == Verified(reader, received)
    {
      hide Walk, HeaderAccepted, FrameSequence, FrameBytes, ReaderSession;
    }

    method Transform(chunk: Buffer) returns (ok: bool)
      requires Valid()
      modifies this, globalHeader, frameHeader, frameBody
      ensures ok == StreamPrefix(reader, old(received) + chunk)
      ensures ok ==> Valid() && received == old(received) + chunk
      ensures ok ==> frameBody == null || frameBody == old(frameBody) || fresh(frameBody)
      ensures old(pushed) <= pushed
      ensures old(format) != Legacy ==> pushed <= Verified(reader, old(received) + chunk)
      ensures ok && format == Framed ==> pushed == Verified(reader, received)
    {
      hide Walk, HeaderAccepted, FramedPrefix, Verified, ReaderSession, Flatten;
      ghost var before := received;
      if format != Legacy { VerifiedInFrames(); FramedConcat(reader, before, chunk); }
      if |chunk| > LimitsFor(reader.limits).maxInputBytes - totalInput { return false; }
      totalInput := totalInput + |chunk|;
      if |chunk| == 0 {
        assert before + chunk == before;
        return true;
      }
      if format == Unknown {
        assert before + chunk == chunk;
        format := if chunk[0] == MAGIC[0] then Framed else Legacy;
        if format == Legacy && reader.allowLegacy == Some(false) { return false; }
      }
      if format == Legacy {
        FlattenSnoc(legacyChunks, chunk);
        FlattenNothing();
        legacyChunks := legacyChunks + [chunk];
        received := received + chunk;
        return true;
      }
      ok := ConsumeFramed(chunk);
    }

    /** The end of the input: success delivers exactly what the whole-buffer reader computes. */
    method Flush() returns (ok: bool)
      requires Valid() && |reader.key| == 32
      modifies this`pushed
      ensures ok == Decrypted(reader, reader.allowLegacy != Some(false), received).Some?
      ensures ok ==> Some(Flatten(pushed)) == Decrypted(reader, reader.allowLegacy != Some(false), received)
    {
      hide Walk, HeaderAccepted, ParseHeader, Flatten, LimitsFor;
      if format == Legacy {
        ConcatIsFlatten(legacyChunks);
        var restored := DecryptedLegacy(reader, BufferConcat(legacyChunks, totalInput));
        if restored.None? { return false; }
        FlattenNothing();
        FlattenSnoc([], restored.value);
        assert [] + restored.value == restored.value;
        pushed := pushed + [restored.value];
        return true;
      }
      NoneIsLegacy(reader, received);
      HeldNothing();
      if format != Framed || session.None? || frameHeaderBytes != 0 || frameBody != null { return false; }
      if !finalSeen { return false; }
      return true;
    }

    lemma HeldNothing()
      requires Shape()
      ensures Held() == [] <==> frameHeaderBytes == 0
    {
    }
  }

  lemma NoneIsLegacy(r: Reader, data: Buffer)
    ensures data == [] ==> DecryptedLegacy(r, data).None?
  {
  }

  /** The received bytes and more of them, as a walk from the frame under way. */
  lemma HeldOn(received: Buffer, more: Buffer, s: Session, p: Progress, plaintexts: seq<Buffer>, held: Buffer)
    requires |received| >= GLOBAL_HEADER_LENGTH
    requires Walk(s, START, received[GLOBAL_HEADER_LENGTH..]) == Walked(p, plaintexts, held, false)
    ensures (received + more)[..GLOBAL_HEADER_LENGTH] == received[..GLOBAL_HEADER_LENGTH]
    ensures Walk(s, START, (received + more)[GLOBAL_HEADER_LENGTH..]) == Prepend(plaintexts, Walk(s, p, held + more))
  {
    hide Walk, Prepend;
    WalkOn(s, received[GLOBAL_HEADER_LENGTH..], p, plaintexts, held, more);
    assert (received + more)[GLOBAL_HEADER_LENGTH..] == received[GLOBAL_HEADER_LENGTH..] + more;
  }

  lemma NothingAfterFinal(s: Session, p: Progress, b: Buffer)
    requires p.finalSeen && b != []
    ensures Walk(s, p, b).refused
  {
  }

  /** A walk over at most one frame. */
  lemma WalkHeld(s: Session, p: Progress, held: Buffer)
    requires !p.finalSeen
    ensures |held| < FRAME_HEADER_LENGTH ==> Walk(s, p, held) == Walked(p, [], held, false)
    ensures |held| >= FRAME_HEADER_LENGTH ==>
      var h := held[..FRAME_HEADER_LENGTH];
      var size := FRAME_OVERHEAD + FrameBytes(h);
      && (!HeaderAccepted(s, p, h) ==> Walk(s, p, held).refused)
      && (HeaderAccepted(s, p, h) && |held| < size ==> Walk(s, p, held) == Walked(p, [], held, false))
      && (HeaderAccepted(s, p, h) && |held| == size ==>
            match OpenBody(s, h, held[FRAME_HEADER_LENGTH..])
            case None => Walk(s, p, held).refused
            case Some(plaintext) =>
              var f := Frame(size, FrameKind(h), plaintext);
              Walk(s, p, held) == Walked(After(p, f), Yield(f), [], false))
  {
    hide HeaderAccepted, OpenBody, FrameBytes;
    if |held| >= FRAME_HEADER_LENGTH && |held| == FRAME_OVERHEAD + FrameBytes(held[..FRAME_HEADER_LENGTH]) {
      assert held[FRAME_HEADER_LENGTH..|held|] == held[FRAME_HEADER_LENGTH..];
      assert held[|held|..] == [];
      var f := NextFrame(s, p, held);
      if f.Frame? {
        WalkNothing(s, After(p, f));
        assert Yield(f) + [] == Yield(f);
      }
    }
  }

  /** A walk over no more than a frame header. */
  lemma WalkHeader(s: Session, p: Progress, held: Buffer)
    requires !p.finalSeen && |held| <= FRAME_HEADER_LENGTH
    ensures |held| < FRAME_HEADER_LENGTH || HeaderAccepted(s, p, held) ==>
      Walk(s, p, held) == Walked(p, [], held, false)
    ensures |held| == FRAME_HEADER_LENGTH && !HeaderAccepted(s, p, held) ==> Walk(s, p, held).refused
  {
    WalkHeld(s, p, held);
    hide Walk, HeaderAccepted, OpenBody, FrameBytes;
    if |held| == FRAME_HEADER_LENGTH { assert held[..FRAME_HEADER_LENGTH] == held; }
  }

  /** More bytes of a frame header, seen from the start of the frames. */
  lemma HeaderOn(received: Buffer, more: Buffer, s: Session, p: Progress, plaintexts: seq<Buffer>, held: Buffer)
    requires |received| >= GLOBAL_HEADER_LENGTH && !p.finalSeen && |held + more| <= FRAME_HEADER_LENGTH
    requires Walk(s, START, received[GLOBAL_HEADER_LENGTH..]) == Walked(p, plaintexts, held, false)
    ensures (received + more)[..GLOBAL_HEADER_LENGTH] == received[..GLOBAL_HEADER_LENGTH]
    ensures var w, now := Walk(s, START, (received + more)[GLOBAL_HEADER_LENGTH..]), held + more;
      if |now| < FRAME_HEADER_LENGTH || HeaderAccepted(s, p, now)
      then w == Walked(p, plaintexts, now, false) else w.refused
  {
    hide Walk, HeaderAccepted;
    HeldOn(received, more, s, p, plaintexts, held);
    WalkHeader(s, p, held + more);
    assert plaintexts + [] == plaintexts;
  }

  /** More bytes of a frame body, seen from the start of the frames. */
  lemma BodyOn(received: Buffer, more: Buffer, s: Session, p: Progress, plaintexts: seq<Buffer>, held: Buffer)
    requires |received| >= GLOBAL_HEADER_LENGTH && !p.finalSeen && |held| >= FRAME_HEADER_LENGTH
    requires HeaderAccepted(s, p, held[..FRAME_HEADER_LENGTH])
    requires |held + more| <= FRAME_OVERHEAD + FrameBytes(held[..FRAME_HEADER_LENGTH])
    requires Walk(s, START, received[GLOBAL_HEADER_LENGTH..]) == Walked(p, plaintexts, held, false)
    ensures (received + more)[..GLOBAL_HEADER_LENGTH] == received[..GLOBAL_HEADER_LENGTH]
    ensures
      var w := Walk(s, START, (received + more)[GLOBAL_HEADER_LENGTH..]);
      var now, h := held + more, held[..FRAME_HEADER_LENGTH];
      if |now| < FRAME_OVERHEAD + FrameBytes(h) then w == Walked(p, plaintexts, now, false)
      else
        match OpenBody(s, h, now[FRAME_HEADER_LENGTH..])
        case None => w.refused
        case Some(plaintext) =>
          var f := Frame(0, FrameKind(h), plaintext);
          w == Walked(After(p, f), plaintexts + Yield(f), [], false)
  {
    hide Walk, HeaderAccepted, OpenBody, FrameBytes, FrameKind;
    HeldOn(received, more, s, p, plaintexts, held);
    WalkHeld(s, p, held + more);
    assert (held + more)[..FRAME_HEADER_LENGTH] == held[..FRAME_HEADER_LENGTH];
    assert plaintexts + [] == plaintexts;
  }

  method CreateDecryptionStream(r: Reader) returns (t: DecryptionTransform?)
    ensures t == null <==> |r.key| != 32
    ensures t != null ==> fresh(t) && t.Valid() && t.reader == r && t.received == [] && t.pushed == []
    ensures t != null ==> fresh(t.globalHeader) && fresh(t.frameHeader) && t.frameBody == null
  {
    if |r.key| != 32 { return null; }
    t := new DecryptionTransform(r);
  }

  lemma RefusedIsNotDecrypted(r: Reader, data: Buffer)
    requires !StreamPrefix(r, data)
    ensures Decrypted(r, r.allowLegacy != Some(false), data).None?
  {
    hide Walk, ParseHeader, DecryptedLegacy;
  }

  /** A stream of chunks through the transform, then flush. */
  method RunDecryption(r: Reader, chunks: seq<Buffer>) returns (pushes: Option<seq<Buffer>>)
    ensures pushes.Some? <==> Decrypted(r, r.allowLegacy != Some(false), Flatten(chunks)).Some?
    ensures pushes.Some? ==> Some(Flatten(pushes.value)) == Decrypted(r, r.allowLegacy != Some(false), Flatten(chunks))
  {
    var t := CreateDecryptionStream(r);
    if t == null { return None; }
    hide Walk, DecryptedFrames, DecryptedLegacy, FramedPrefix, Flatten, DecryptionTransform.InFrames;
    var i := 0;
    FlattenNothing();
    while i < |chunks|
      invariant i <= |chunks| && fresh(t) && t.Valid() && t.reader == r
      invariant fresh(t.globalHeader) && fresh(t.frameHeader) && (t.frameBody == null || fresh(t.frameBody))
      invariant t.received == Flatten(chunks[..i])
    {
      assert chunks[..i + 1] == chunks[..i] + [chunks[i]];
      FlattenSnoc(chunks[..i], chunks[i]);
      var ok := t.Transform(chunks[i]);
      i := i + 1;
      if !ok {
        assert chunks[..i] + chunks[i..] == chunks;
        FlattenAppend(chunks[..i], chunks[i..]);
        StreamConcat(r, Flatten(chunks[..i]), Flatten(chunks[i..]));
        RefusedIsNotDecrypted(r, Flatten(chunks));
        return None;
      }
    }
    assert chunks[..i] == chunks;
    var ok := t.Flush();
    return if ok then Some(t.pushed) else None;
  }

  // --------------------------------------------------- where the two readers differ

  /** The stream reader's result; with the option omitted it reads legacy messages. */
  function StreamReads(r: Reader, data: Buffer): Option<Buffer> { Decrypted(r, r.allowLegacy != Some(false), data) }

  /** The buffer reader's result; with the option omitted it does not read them. */
  function BufferReads(r: Reader, data: Buffer): Option<Buffer> { Decrypted(r, r.allowLegacy == Some(true), data) }

  predicate ReadAlike(r: Reader, data: Buffer) { StreamReads(r, data) == BufferReads(r, data) }

  /** The unversioned packet of a message under its key. */
  function LegacyPacket(c: Crypto, alg: Algorithm, key: Buffer, nonce: Buffer, plain: Buffer): Buffer {
    var sealed := c.seal(alg, key, nonce, [], plain);
    [AlgorithmId(alg)] + nonce + sealed.tag + sealed.ciphertext
  }

  /** Every such packet within the limits is read where legacy messages are allowed, and refused elsewhere. */
  lemma LegacyPacketReads(r: Reader, alg: Algorithm, nonce: Buffer, plain: Buffer)
    requires SealLengths(r.crypto) && OpensSealed(r.crypto) && |r.key| == 32 && |nonce| == 12
    requires |plain| + LEGACY_HEADER_LENGTH <= LimitsFor(r.limits).maxInputBytes
    requires |plain| <= LimitsFor(r.limits).maxOutputBytes
    ensures var data := LegacyPacket(r.crypto, alg, r.key, nonce, plain);
      && LooksLegacy(data)
      && Decrypted(r, true, data) == Some(plain)
      && Decrypted(r, false, data) == None
  {
    hide LimitsFor, DecryptedFrames;
    var sealed := r.crypto.seal(alg, r.key, nonce, [], plain);
    var data := LegacyPacket(r.crypto, alg, r.key, nonce, plain);
    assert |sealed.ciphertext| == |plain| && |sealed.tag| == TAG_LENGTH;
    assert data[0] == AlgorithmId(alg);
    assert data[1..13] == nonce;
    assert data[13..LEGACY_HEADER_LENGTH] == sealed.tag;
    assert data[LEGACY_HEADER_LENGTH..] == sealed.ciphertext;
    assert r.crypto.open(alg, r.key, nonce, [], r.crypto.seal(alg, r.key, nonce, [], plain)) == Some(plain);
  }

  /** With the option omitted the two readers differ on every such packet. */
  lemma ReadersDiffer(r: Reader, alg: Algorithm, nonce: Buffer, plain: Buffer)
    requires SealLengths(r.crypto) && OpensSealed(r.crypto) && |r.key| == 32 && |nonce| == 12
    requires |plain| + LEGACY_HEADER_LENGTH <= LimitsFor(r.limits).maxInputBytes
    requires |plain| <= LimitsFor(r.limits).maxOutputBytes
    requires r.allowLegacy.None?
    ensures var data := LegacyPacket(r.crypto, alg, r.key, nonce, plain);
      StreamReads(r, data) == Some(plain) && BufferReads(r, data) == None
  {
    hide Decrypted, LegacyPacket;
    LegacyPacketReads(r, alg, nonce, plain);
  }

  /**
   On one input they agree exactly when the option is given, it does not look legacy, or
   it would not open as legacy.
   */
  lemma ReadAlikeWhen(r: Reader, data: Buffer)
    ensures ReadAlike(r, data) <==> r.allowLegacy.Some? || !LooksLegacy(data) || Decrypted(r, true, data).None?
  {
    hide DecryptedFrames, DecryptedLegacy;
    if r.allowLegacy.Some? {
      assert if r.allowLegacy.value then r.allowLegacy == Some(true) else r.allowLegacy == Some(false);
    }
  }

  /** An input that does not look legacy is read alike, and so is every input once the option is given. */
  lemma FramedReadAlike(r: Reader, data: Buffer)
    requires r.allowLegacy.Some? || !LooksLegacy(data)
    ensures ReadAlike(r, data)
  {
    ReadAlikeWhen(r, data);
  }

  /**
   For every AEAD: the two readers agree on all inputs if and only if the legacy option
   is given, or the key is refused, or no legacy header fits the input limit.
   */
  lemma ReadersAgree(r: Reader)
    requires SealLengths(r.crypto) && OpensSealed(r.crypto)
    ensures (forall data :: ReadAlike(r, data))
       <==> r.allowLegacy.Some? || |r.key| != 32 || LimitsFor(r.limits).maxInputBytes < LEGACY_HEADER_LENGTH
  {
    hide ReadAlike, DecryptedFrames, LimitsFor, OpensSealed, SealLengths;
    if r.allowLegacy.Some? {
      forall data ensures ReadAlike(r, data) { FramedReadAlike(r, data); }
    } else if |r.key| != 32 || LimitsFor(r.limits).maxInputBytes < LEGACY_HEADER_LENGTH {
      forall data ensures ReadAlike(r, data) { NoLegacyReadable(r, data); }
    } else {
      ReadersDiffer(r, Aes256Gcm, Zeros(12), []);
      NotAlike(r, LegacyPacket(r.crypto, Aes256Gcm, r.key, Zeros(12), []));
    }
  }

  lemma NoLegacyReadable(r: Reader, data: Buffer)
    requires |r.key| != 32 || LimitsFor(r.limits).maxInputBytes < LEGACY_HEADER_LENGTH
    ensures ReadAlike(r, data)
  {
    hide DecryptedFrames;
  }

  lemma NotAlike(r: Reader, data: Buffer)
    requires StreamReads(r, data) != BufferReads(r, data)
    ensures !ReadAlike(r, data)
  {
  }
}
