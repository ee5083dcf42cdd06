/**
 What a PXAE writer puts on the wire, byte by byte and in numbers, and what readers under
 other limits than the writer's make of it.
 */
module PacketLayout {
  import opened Buffers
  import opened ResourceLimits
  import opened EncryptionFormat
  import opened EncryptionLaws

  lemma CountIs(bytes: nat, size: nat)
    requires size > 0
    ensures DataFrameCount(bytes, size) == (bytes + size - 1) / size
  {
    if bytes == 0 { DivisionIs(size - 1, size, 0, size - 1); }
  }

  // ------------------------------------------------------------------------- headers

  /** The parsed headers: magic word, version, algorithm, two zero bytes, frame size, salt. */
  lemma HeaderParses(h: Buffer, limits: EngineLimits)
    ensures ParseHeader(h, limits).Some? <==>
      && |h| == 28 && h[..4] == [0x50, 0x58, 0x41, 0x45] && h[4] == 1 && (h[5] == 1 || h[5] == 2)
      && BigEndian(h[6..8]) == 0 && 1 <= BigEndian(h[8..12]) <= limits.maxFrameBytes - 29
    ensures ParseHeader(h, limits).Some? ==>
      ParseHeader(h, limits).value
        == Header(h, if h[5] == 1 then Aes256Gcm else ChaCha20Poly1305, BigEndian(h[8..12]), h[12..28])
  {
    hide BigEndian;
  }

  lemma HeaderBytes(alg: Algorithm, n: nat, salt: Buffer)
    ensures BuildHeader(alg, n, salt)
         == [0x50, 0x58, 0x41, 0x45, 1, if alg == Aes256Gcm then 1 else 2, 0, 0] + ToBigEndian(n, 4) + salt
  {
    assert ToBigEndian(0, 2) == ToBigEndian(0, 1) + [0] == ToBigEndian(0, 0) + [0] + [0] == [0, 0];
    hide ToBigEndian;
    var id := AlgorithmId(alg);
    assert MAGIC + [VERSION, id] + [0, 0] == [0x50, 0x58, 0x41, 0x45, 1, id, 0, 0];
  }

  // ------------------------------------------------------------------------ the writer

  /** The frame size of a writer, by what was requested and the frame limit. */
  lemma SizeIs(w: Writer, n: int)
    requires n == if w.requestedFrameSize.Some? then w.requestedFrameSize.value
      else Min(0x1_0000, w.limits.maxFrameBytes - 29)
    ensures ResolveFrameSize(w.requestedFrameSize, LimitsFor(w.limits))
         == if 1 <= n <= 0xffff_ffff && n + 29 <= w.limits.maxFrameBytes then Some(n) else None
  {
  }

  lemma SessionSize(w: Writer, n: int)
    requires WriterOk(w)
    requires n == if w.requestedFrameSize.Some? then w.requestedFrameSize.value
      else Min(0x1_0000, w.limits.maxFrameBytes - 29)
    ensures WriterSession(w).Some? <==> |w.key| == 32 && 1 <= n <= 0xffff_ffff && n + 29 <= w.limits.maxFrameBytes
    ensures WriterSession(w).Some? ==>
      && n >= 1 && WriterSession(w).value.header.bytes == BuildHeader(w.algorithm, n, w.salt)
      && WriterSession(w).value == OpenSession(w.crypto, w.key,
           Header(BuildHeader(w.algorithm, n, w.salt), w.algorithm, n, w.salt), LimitsFor(w.limits))
  {
    SizeIs(w, n);
    if 1 <= n <= 0xffff_ffff && n + 29 <= w.limits.maxFrameBytes {
      HeaderRoundTrip(w.algorithm, n, w.salt, LimitsFor(w.limits));
    }
    hide ResolveFrameSize, BuildHeader;
  }

  /**
   A message is encrypted exactly when the key has 32 bytes, the frame size, which is the
   one requested or else the smaller of 64 KiB and what a frame can hold, is legal, and
   data, frames and packet are within the limits.
   */
  lemma EncryptsExactly(w: Writer, data: Buffer, n: int)
    requires WriterOk(w)
    requires n == if w.requestedFrameSize.Some? then w.requestedFrameSize.value
      else Min(0x1_0000, w.limits.maxFrameBytes - 29)
    ensures Encrypted(w, data).Some? <==>
      && |w.key| == 32 && 1 <= n <= 0xffff_ffff && n + 29 <= w.limits.maxFrameBytes
      && |data| <= Max(w.limits.maxInputBytes, w.limits.maxOutputBytes)
      && var frames := (|data| + n - 1) / n;
      && frames <= w.limits.maxFrames && 28 + |data| + 29 * (frames + 1) <= w.limits.maxOutputBytes
  {
    hide WriterSession, BuildHeader, ResolveFrameSize, Packet, DataFrameCount;
    SessionSize(w, n);
    if WriterSession(w).Some? { CountIs(|data|, n); }
  }

  lemma SealedFrameIs(s: Session, kind: byte, i: nat, piece: Buffer)
    ensures SealFrame(s, kind, i, piece) ==
      var frameHeader := [kind] + ToBigEndian(i, 8) + ToBigEndian(|piece|, 4);
      var sealed := s.crypto.seal(s.header.algorithm, s.key, [0, 0, 0, 0] + ToBigEndian(i, 8),
                                  s.header.bytes + frameHeader, piece);
      frameHeader + sealed.ciphertext + sealed.tag
  {
    hide ToBigEndian;
    assert Zeros(4) == [0, 0, 0, 0];
  }

  lemma EncryptedIs(w: Writer, data: Buffer)
    requires WriterOk(w) && Encrypted(w, data).Some?
    ensures WriterSession(w).Some? && WriterSession(w).value.header.frameSizeBytes > 0
    ensures Encrypted(w, data).value == Packet(WriterSession(w).value, data)
  {
    hide WriterSession, Packet, DataFrameCount;
  }

  lemma InfoIs(alg: Algorithm)
    ensures Info(alg) == if alg == Aes256Gcm then "PipeX AEAD framed v1:aes-256-gcm"
      else "PipeX AEAD framed v1:chacha20-poly1305"
  {
    assert "PipeX AEAD framed v1:" + "aes-256-gcm" == "PipeX AEAD framed v1:aes-256-gcm";
    assert "PipeX AEAD framed v1:" + "chacha20-poly1305" == "PipeX AEAD framed v1:chacha20-poly1305";
  }

  lemma PacketSize(s: Session, data: Buffer)
    requires SealLengths(s.crypto) && s.header.frameSizeBytes > 0 && |s.header.bytes| == GLOBAL_HEADER_LENGTH
    ensures var n := s.header.frameSizeBytes; |Chunks(data, n)| == (|data| + n - 1) / n
    ensures var n := s.header.frameSizeBytes; |Packet(s, data)| == 28 + |data| + 29 * (|Chunks(data, n)| + 1)
  {
    hide Chunks, Packet, SealLengths, DataFrameCount;
    CountIs(|data|, s.header.frameSizeBytes);
    ChunksMakeData(data, s.header.frameSizeBytes);
    PacketLength(s, data);
  }

  /** The session of an encrypted message, and the packet and its length by it. */
  lemma SessionFacts(w: Writer, data: Buffer, n: int) returns (s: Session)
    requires WriterOk(w) && Encrypted(w, data).Some? && SealLengths(w.crypto)
    requires n == if w.requestedFrameSize.Some? then w.requestedFrameSize.value
      else Min(0x1_0000, w.limits.maxFrameBytes - 29)
    ensures n >= 1 && s.crypto == w.crypto && s.header.algorithm == w.algorithm
    ensures s.key == w.crypto.hkdf(w.key, w.salt,
      if w.algorithm == Aes256Gcm then "PipeX AEAD framed v1:aes-256-gcm"
      else "PipeX AEAD framed v1:chacha20-poly1305")
    ensures s.header.bytes
         == [0x50, 0x58, 0x41, 0x45, 1, if w.algorithm == Aes256Gcm then 1 else 2, 0, 0] + ToBigEndian(n, 4) + w.salt
    ensures |Chunks(data, n)| == (|data| + n - 1) / n
    ensures Encrypted(w, data).value == s.header.bytes + Flatten(AllFrames(s, Chunks(data, n)))
    ensures |Encrypted(w, data).value| == 28 + |data| + 29 * (|Chunks(data, n)| + 1)
  {
    hide Encrypted, WriterSession, BuildHeader, Chunks, Flatten, AllFrames, SealLengths, ToBigEndian;
    EncryptedIs(w, data);
    InfoIs(w.algorithm);
    hide Info;
    SessionSize(w, n);
    HeaderBytes(w.algorithm, n, w.salt);
    s := WriterSession(w).value;
    SessionHeaderLength(w);
    PacketSize(s, data);
  }

  lemma FrameAt(s: Session, chunks: seq<Buffer>, i: nat)
    requires i <= |chunks|
    ensures
      var piece := if i < |chunks| then chunks[i] else [];
      var frameHeader := [if i < |chunks| then 1 else 2] + ToBigEndian(i, 8) + ToBigEndian(|piece|, 4);
      var sealed := s.crypto.seal(s.header.algorithm, s.key, [0, 0, 0, 0] + ToBigEndian(i, 8),
                                  s.header.bytes + frameHeader, piece);
      AllFrames(s, chunks)[i] == frameHeader + sealed.ciphertext + sealed.tag
  {
    hide SealFrame, ToBigEndian;
    if i < |chunks| { SealedFrameIs(s, 1, i, chunks[i]); } else { SealedFrameIs(s, 2, i, []); }
  }

  /**
   The packet: the header with the frame size and the salt, a data frame for every n bytes
   of the data and one for the rest, and a final frame; each frame sealed with the key
   derived for the message, under its own number, the header and its frame header
   authenticated.
   */
  lemma PacketIs(w: Writer, data: Buffer, n: int) returns (chunks: seq<Buffer>, frames: seq<Buffer>)
    requires WriterOk(w) && Encrypted(w, data).Some? && SealLengths(w.crypto)
    requires n == if w.requestedFrameSize.Some? then w.requestedFrameSize.value
      else Min(0x1_0000, w.limits.maxFrameBytes - 29)
    ensures n >= 1 && |chunks| == (|data| + n - 1) / n && Flatten(chunks) == data
    ensures forall i | 0 <= i < |chunks| :: if i < |chunks| - 1 then |chunks[i]| == n else 0 < |chunks[i]| <= n
    ensures |frames| == |chunks| + 1 && |Encrypted(w, data).value| == 28 + |data| + 29 * |frames|
    ensures var header :=
        [0x50, 0x58, 0x41, 0x45, 1, if w.algorithm == Aes256Gcm then 1 else 2, 0, 0] + ToBigEndian(n, 4) + w.salt;
      var key := w.crypto.hkdf(w.key, w.salt,
        if w.algorithm == Aes256Gcm then "PipeX AEAD framed v1:aes-256-gcm"
        else "PipeX AEAD framed v1:chacha20-poly1305");
      && Encrypted(w, data).value == header + Flatten(frames)
      && forall i | 0 <= i < |frames| ::
        var piece := if i < |chunks| then chunks[i] else [];
        var frameHeader := [if i < |chunks| then 1 else 2] + ToBigEndian(i, 8) + ToBigEndian(|piece|, 4);
        var sealed := w.crypto.seal(w.algorithm, key, [0, 0, 0, 0] + ToBigEndian(i, 8), header + frameHeader, piece);
        frames[i] == frameHeader + sealed.ciphertext + sealed.tag
  {
    hide Encrypted, WriterSession, Chunks, Flatten, AllFrames, SealLengths, ToBigEndian, WriterOk;
    var s := SessionFacts(w, data, n);
    chunks := Chunks(data, n);
    frames := AllFrames(s, chunks);
    ChunksFlatten(data, n);
    PieceSizes(data, n);
    forall i | 0 <= i < |frames|
      ensures
        var piece := if i < |chunks| then chunks[i] else [];
        var frameHeader := [if i < |chunks| then 1 else 2] + ToBigEndian(i, 8) + ToBigEndian(|piece|, 4);
        var sealed := w.crypto.seal(w.algorithm, s.key, [0, 0, 0, 0] + ToBigEndian(i, 8),
                                    s.header.bytes + frameHeader, piece);
        frames[i] == frameHeader + sealed.ciphertext + sealed.tag
    {
      FrameAt(s, chunks, i);
    }
  }

  // ------------------------------------------------------------ readers under other limits

  /** A chunk too many, or one that exceeds the output limit, is refused at its frame header. */
  lemma RefusedFrame(t: Session, chunks: seq<Buffer>, i: nat, others: Buffer)
    requires i < |chunks| && |chunks[i]| < TWO_TO_THE_32 && i < TWO_TO_THE_64
    requires i >= t.limits.maxFrames || |Flatten(chunks[..i + 1])| > t.limits.maxOutputBytes
    ensures Walk(t, ProgressAt(chunks, i), SealFrame(t, DATA_FRAME, i, chunks[i]) + others).refused
  {
    hide Flatten;
    PartOfChunks(chunks, i);
    FrameHeaderFields(DATA_FRAME, i, |chunks[i]|);
    hide FrameHeader, FrameSequence, FrameBytes, FrameKind, OpenBody;
    var b, h := SealFrame(t, DATA_FRAME, i, chunks[i]) + others, FrameHeader(DATA_FRAME, i, |chunks[i]|);
    assert b[..FRAME_HEADER_LENGTH] == h;
    assert !HeaderAccepted(t, ProgressAt(chunks, i), h);
  }

  /** A reader whose frame or output limit the message exceeds refuses it on the way. */
  lemma {:induction false} WalkExceeds(t: Session, chunks: seq<Buffer>, i: nat)
    requires OpensMessage(t, chunks) && i <= |chunks| < TWO_TO_THE_64
    requires t.header.frameSizeBytes <= 0xffff_ffff
    requires t.header.frameSizeBytes + FRAME_OVERHEAD <= t.limits.maxFrameBytes
    requires forall c | c in chunks :: |c| <= t.header.frameSizeBytes
    requires |chunks| > t.limits.maxFrames || |Flatten(chunks)| > t.limits.maxOutputBytes
    requires i <= t.limits.maxFrames && |Flatten(chunks[..i])| <= t.limits.maxOutputBytes
    ensures Walk(t, ProgressAt(chunks, i), FramesFrom(t, chunks, i)).refused
    decreases |chunks| - i
  {
    hide Walk, OpensMessage, SealFrame, Flatten, FramesFrom;
    FramesFromStep(t, chunks, i);
    assert chunks[..|chunks|] == chunks;
    if i < |chunks| {
      var others := FramesFrom(t, chunks, i + 1);
      if i >= t.limits.maxFrames || |Flatten(chunks[..i + 1])| > t.limits.maxOutputBytes {
        RefusedFrame(t, chunks, i, others);
      } else {
        WalkExceeds(t, chunks, i + 1);
        OpensAt(t, chunks, i);
        WalkDataFrame(t, chunks, i, others);
      }
    }
  }

  /** Frames and their opening do not depend on the limits. */
  lemma LimitsAside(s: Session, chunks: seq<Buffer>, limits: EngineLimits)
    ensures FramesFrom(s.(limits := limits), chunks, 0) == FramesFrom(s, chunks, 0)
    ensures OpensMessage(s, chunks) ==> OpensMessage(s.(limits := limits), chunks)
  {
    var t := s.(limits := limits);
    FramesFromStep(s, chunks, 0);
    FramesFromStep(t, chunks, 0);
    hide FrameHeader, NonceFor, Flatten;
    assert DataFrames(t, chunks) == DataFrames(s, chunks);
    if OpensMessage(s, chunks) {
      forall i | 0 <= i < |chunks| ensures Opens(t, DATA_FRAME, i, chunks[i]) { OpensAt(s, chunks, i); }
    }
  }

  /** The session a reader with the writer's key opens on the packet, if its frame limit allows. */
  lemma SessionUnderLimits(w: Writer, r: Reader, data: Buffer, n: int, packet: Buffer) returns (s: Session)
    requires WriterOk(w) && Encrypted(w, data) == Some(packet) && SealLengths(w.crypto)
    requires r.crypto == w.crypto && r.key == w.key
    requires n == if w.requestedFrameSize.Some? then w.requestedFrameSize.value
      else Min(0x1_0000, w.limits.maxFrameBytes - 29)
    ensures |w.key| == 32 && 1 <= n <= 0xffff_ffff && s.crypto == w.crypto && s.header.frameSizeBytes == n
    ensures |packet| >= GLOBAL_HEADER_LENGTH && !LooksLegacy(packet)
    ensures ReaderSession(r, packet[..GLOBAL_HEADER_LENGTH])
         == if n + 29 <= r.limits.maxFrameBytes then Some(s.(limits := LimitsFor(r.limits))) else None
    ensures packet[GLOBAL_HEADER_LENGTH..] == FramesFrom(s, Chunks(data, n), 0)
    ensures |packet| == 28 + |data| + 29 * ((|data| + n - 1) / n + 1)
    ensures |Chunks(data, n)| == (|data| + n - 1) / n < TWO_TO_THE_64 && Flatten(Chunks(data, n)) == data
    ensures forall c | c in Chunks(data, n) :: |c| <= n
  {
    hide Encrypted, WriterSession, Chunks, Flatten, FramesFrom, AllFrames, SealLengths, DataFrameCount, BuildHeader,
      ParseHeader, LimitsFor;
    EncryptedIs(w, data);
    SessionSize(w, n);
    s := WriterSession(w).value;
    PacketBytes(w, data);
    var facts := SessionFacts(w, data, n);
    ChunksMakeData(data, n);
    ParsedAgain(w.algorithm, n, w.salt, LimitsFor(r.limits));
    MaxFrameKept(r.limits);
    WriterAdmits(w, data);
    assert packet[0] == s.header.bytes[0] == MAGIC[0];
  }

  lemma MaxFrameKept(limits: EngineLimits)
    ensures LimitsFor(limits).maxFrameBytes == limits.maxFrameBytes
  {
  }

  lemma ParsedAgain(alg: Algorithm, n: nat, salt: Buffer, limits: EngineLimits)
    requires |salt| == 16 && 1 <= n <= 0xffff_ffff
    ensures ParseHeader(BuildHeader(alg, n, salt), limits)
         == if n + 29 <= limits.maxFrameBytes then Some(Header(BuildHeader(alg, n, salt), alg, n, salt)) else None
    ensures BuildHeader(alg, n, salt)[0] == MAGIC[0]
  {
    var big := limits.(maxFrameBytes := 0x1_0000_0000 + 29);
    HeaderRoundTrip(alg, n, salt, big);
    hide BuildHeader, BigEndian;
    HeaderParses(BuildHeader(alg, n, salt), big);
    HeaderParses(BuildHeader(alg, n, salt), limits);
  }

  /**
   A reader with the writer's key under any limits of its own restores the message exactly
   when packet, frames, frame size and data are within those limits, and refuses it otherwise.
   */
  lemma {:induction false} ReadsExactly(w: Writer, r: Reader, legacyAllowed: bool, data: Buffer, n: int)
    requires WriterOk(w) && Encrypted(w, data).Some? && SealLengths(w.crypto) && OpensSealed(w.crypto)
    requires r.crypto == w.crypto && r.key == w.key
    requires n == if w.requestedFrameSize.Some? then w.requestedFrameSize.value
      else Min(0x1_0000, w.limits.maxFrameBytes - 29)
    ensures n >= 1
    ensures Decrypted(r, legacyAllowed, Encrypted(w, data).value) ==
      if && |Encrypted(w, data).value| <= Max(r.limits.maxInputBytes, r.limits.maxOutputBytes)
         && (|data| + n - 1) / n <= r.limits.maxFrames
         && n + 29 <= r.limits.maxFrameBytes
         && |data| <= r.limits.maxOutputBytes
      then Some(data) else None
  {
    hide Encrypted, ReaderSession, SealLengths, OpensSealed, LooksLegacy, DecryptedLegacy, Chunks, Flatten, FramesFrom;
    var packet := Encrypted(w, data).value;
    var s := SessionUnderLimits(w, r, data, n, packet);
    var chunks := Chunks(data, n);
    if n + 29 <= r.limits.maxFrameBytes { FramesUnderLimits(s, r, packet, chunks); }
  }

  lemma FramesUnderLimits(s: Session, r: Reader, packet: Buffer, chunks: seq<Buffer>)
    requires SealLengths(s.crypto) && OpensSealed(s.crypto) && |chunks| < TWO_TO_THE_64
    requires |packet| >= GLOBAL_HEADER_LENGTH && packet[GLOBAL_HEADER_LENGTH..] == FramesFrom(s, chunks, 0)
    requires ReaderSession(r, packet[..GLOBAL_HEADER_LENGTH]) == Some(s.(limits := LimitsFor(r.limits)))
    requires s.header.frameSizeBytes <= 0xffff_ffff
    requires s.header.frameSizeBytes + FRAME_OVERHEAD <= r.limits.maxFrameBytes
    requires forall c | c in chunks :: |c| <= s.header.frameSizeBytes
    ensures DecryptedFrames(r, packet)
         == if |chunks| <= r.limits.maxFrames && |Flatten(chunks)| <= r.limits.maxOutputBytes
            then Some(chunks) else None
  {
    hide SealLengths, OpensSealed, ReaderSession, Walk, Complete, Flatten, FramesFrom;
    var t := s.(limits := LimitsFor(r.limits));
    LimitsAside(s, chunks, LimitsFor(r.limits));
    AeadOpensMessage(t, chunks);
    WalkUnderLimits(t, chunks);
  }

  lemma WalkUnderLimits(t: Session, chunks: seq<Buffer>)
    requires OpensMessage(t, chunks) && |chunks| < TWO_TO_THE_64
    requires t.header.frameSizeBytes <= 0xffff_ffff
    requires t.header.frameSizeBytes + FRAME_OVERHEAD <= t.limits.maxFrameBytes
    requires forall c | c in chunks :: |c| <= t.header.frameSizeBytes
    ensures var walked := Walk(t, START, FramesFrom(t, chunks, 0));
      if |chunks| <= t.limits.maxFrames && |Flatten(chunks)| <= t.limits.maxOutputBytes
      then Complete(walked) && walked.plaintexts == chunks else !Complete(walked)
  {
    hide Walk, OpensMessage, Flatten, FramesFrom;
    FlattenNothing();
    assert chunks[..0] == [] && chunks[0..] == chunks;
    if |chunks| <= t.limits.maxFrames && |Flatten(chunks)| <= t.limits.maxOutputBytes {
      WalkWritten(t, chunks, 0);
    } else {
      WalkExceeds(t, chunks, 0);
    }
  }
}
