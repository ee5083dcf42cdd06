/** encryptBuffer and decryptBuffer: the whole-buffer writer and reader of PXAE. */
module EncryptionBuffer {
  import opened Buffers
  import opened EncryptionFormat
  import opened EncryptionLaws

  method EncryptBuffer(w: Writer, data: Buffer) returns (r: Option<Buffer>)
    requires WriterOk(w) && SealLengths(w.crypto)
    ensures r == Encrypted(w, data)
  {
    if |w.key| != 32 { return None; }
    var limits := LimitsFor(w.limits);
    if |data| > limits.maxInputBytes { return None; }
    var resolved := ResolveFrameSize(w.requestedFrameSize, limits);
    if resolved.None? { return None; }
    var frameSizeBytes := resolved.value;
    HeaderRoundTrip(w.algorithm, frameSizeBytes, w.salt, limits);
    hide SealFrame, Flatten, DataFrameCount, Chunks, SealLengths, ParseHeader, ResolveFrameSize;
    if DataFrameCount(|data|, frameSizeBytes) > limits.maxFrames { return None; }
    var outputLength := EncodedLength(|data|, frameSizeBytes);
    if outputLength > limits.maxOutputBytes { return None; }
    var header := BuildHeader(w.algorithm, frameSizeBytes, w.salt);
    var parsed := ParseHeader(header, limits).value;
    var session := OpenSession(w.crypto, w.key, parsed, limits);
    var frames := SealAll(session, data, frameSizeBytes);
    ghost var all := AllFrames(session, Chunks(data, frameSizeBytes));
    FlattenCons(header, all);
    PacketLength(session, data);
    return Some(ConcatFrames([header] + frames, outputLength));
  }

  /** Buffer.concat(frames, outputLength), which neither cuts nor fills when the lengths agree. */
  function ConcatFrames(frames: seq<Buffer>, outputLength: nat): (packet: Buffer)
    ensures outputLength == |Flatten(frames)| ==> packet == Flatten(frames)
  {
    BufferConcat(frames, outputLength)
  }

  /** The loop over the plaintext, and the final frame. */
  method SealAll(s: Session, data: Buffer, frameSizeBytes: nat) returns (frames: seq<Buffer>)
    requires frameSizeBytes > 0
    ensures frames == AllFrames(s, Chunks(data, frameSizeBytes))
  {
    ghost var chunks: seq<Buffer> := [];
    var offset, sequence := 0, 0;
    frames := [];
    hide SealFrame, Chunks, ChunksFrom;
    assert frames == DataFrames(s, chunks);
    hide DataFrames;
    ChunksFromEnds(data, frameSizeBytes);
    while offset < |data|
      invariant chunks + ChunksFrom(data, offset, frameSizeBytes) == Chunks(data, frameSizeBytes)
      invariant sequence == |chunks| && frames == DataFrames(s, chunks)
    {
      var plaintext := data[offset..Min(|data|, offset + frameSizeBytes)];
      NextChunk(data, offset, frameSizeBytes);
      DataFramesSnoc(s, chunks, plaintext);
      AppendHead(chunks, plaintext, ChunksFrom(data, offset + frameSizeBytes, frameSizeBytes));
      frames := frames + [SealFrame(s, DATA_FRAME, sequence, plaintext)];
      chunks := chunks + [plaintext];
      sequence := sequence + 1;
      offset := offset + frameSizeBytes;
    }
    NoMoreChunks(data, offset, frameSizeBytes);
    assert chunks + [] == chunks;
    frames := frames + [SealFrame(s, FINAL_FRAME, sequence, [])];
  }

  lemma DataFramesSnoc(s: Session, chunks: seq<Buffer>, x: Buffer)
    ensures DataFrames(s, chunks + [x]) == DataFrames(s, chunks) + [SealFrame(s, DATA_FRAME, |chunks|, x)]
  {
    hide SealFrame;
  }

  /** Legacy messages are read only when the option is explicitly true. */
  method DecryptBuffer(r: Reader, data: Buffer) returns (plain: Option<Buffer>)
    ensures plain == Decrypted(r, r.allowLegacy == Some(true), data)
  {
    if |r.key| != 32 { return None; }
    var limits := LimitsFor(r.limits);
    if |data| > limits.maxInputBytes { return None; }
    if |data| == 0 || (!IsFramedEncryption(data) && data[0] != MAGIC[0]) {
      if r.allowLegacy != Some(true) { return None; }
      return DecryptedLegacy(r, data);
    }
    if |data| < GLOBAL_HEADER_LENGTH { return None; }
    var parsed := ParseHeader(data[..GLOBAL_HEADER_LENGTH], limits);
    if parsed.None? { return None; }
    hide Walk, ParseHeader, Flatten;
    var plaintext := OpenAll(OpenSession(r.crypto, r.key, parsed.value, limits), data);
    return plaintext;
  }

  function IsFramedEncryption(data: Buffer): (framed: bool)
    ensures framed ==> data != [] && data[0] == MAGIC[0]
  {
    |data| >= |MAGIC| && data[..4] == MAGIC
  }

  /** The loop over the frames of a packet. */
  method OpenAll(s: Session, data: Buffer) returns (plain: Option<Buffer>)
    requires |data| >= GLOBAL_HEADER_LENGTH
    ensures var w := Walk(s, START, data[GLOBAL_HEADER_LENGTH..]);
      plain == if Complete(w) then Some(Flatten(w.plaintexts)) else None
  {
    hide Walk, NextFrame, Flatten;
    var plaintext: seq<Buffer> := [];
    var plaintextBytes, position := 0, GLOBAL_HEADER_LENGTH;
    var expectedSequence, dataFrames, finalSeen := 0, 0, false;
    ghost var whole := Walk(s, START, data[GLOBAL_HEADER_LENGTH..]);
    assert [] + whole.plaintexts == whole.plaintexts;
    FlattenNothing();
    while position < |data|
      invariant GLOBAL_HEADER_LENGTH <= position <= |data|
      invariant plaintextBytes == |Flatten(plaintext)|
      invariant whole == Prepend(plaintext,
        Walk(s, Progress(expectedSequence, dataFrames, plaintextBytes, finalSeen), data[position..]))
    {
      ghost var p := Progress(expectedSequence, dataFrames, plaintextBytes, finalSeen);
      WalkOne(s, p, data[position..]);
      if finalSeen || |data| - position < FRAME_HEADER_LENGTH {
        ShortIsIncomplete(s, p, data[position..]);
        return None;
      }
      var size, restored :=
        OpenNext(s, Progress(expectedSequence, dataFrames, plaintextBytes, finalSeen), data, position);
      if restored.None? { return None; }
      var kind := data[position];
      ghost var before := plaintext;
      if kind == FINAL_FRAME {
        finalSeen := true;
      } else {
        dataFrames := dataFrames + 1;
        plaintextBytes := plaintextBytes + |restored.value|;
        FlattenSnoc(plaintext, restored.value);
        plaintext := plaintext + [restored.value];
      }
      assert data[position..][size..] == data[position + size..];
      expectedSequence := expectedSequence + 1;
      position := position + size;
      PrependTwice(before, Yield(NextFrame(s, p, data[position - size..])),
        Walk(s, Progress(expectedSequence, dataFrames, plaintextBytes, finalSeen), data[position..]));
      assert before + [] == before;
    }
    assert data[position..] == [];
    WalkNothing(s, Progress(expectedSequence, dataFrames, plaintextBytes, finalSeen));
    if !finalSeen { return None; }
    assert plaintext + [] == plaintext;
    ConcatIsFlatten(plaintext);
    return Some(BufferConcat(plaintext, plaintextBytes));
  }

  lemma WalkOne(s: Session, p: Progress, b: Buffer)
    ensures p.finalSeen && b != [] ==> !Complete(Walk(s, p, b))
    ensures !p.finalSeen ==> match NextFrame(s, p, b)
      case Incomplete => !Complete(Walk(s, p, b))
      case Refused => !Complete(Walk(s, p, b))
      case Frame(size, _, _) =>
        Walk(s, p, b) == Prepend(Yield(NextFrame(s, p, b)), Walk(s, After(p, NextFrame(s, p, b)), b[size..]))
  {
    hide NextFrame, Yield, After;
  }

  lemma WalkNothing(s: Session, p: Progress)
    ensures Walk(s, p, []) == Walked(p, [], [], false)
  {
  }

  lemma ShortIsIncomplete(s: Session, p: Progress, b: Buffer)
    ensures |b| < FRAME_HEADER_LENGTH ==> NextFrame(s, p, b).Incomplete?
  {
  }

  /** Cutting first at a position and then inside is cutting inside. */
  lemma Slices(data: Buffer, position: nat, head: nat, body: nat, tail: nat)
    requires position + head + body + tail <= |data|
    ensures var inner, at := data[position..][head..head + body + tail], position + head;
      inner[..body] == data[at..at + body] && inner[body..] == data[at + body..at + body + tail]
  {
    var inner, at := data[position..][head..head + body + tail], position + head;
    assert inner == data[at..at + body + tail];
  }

  lemma OpensBody(s: Session, h: Buffer, body: Buffer, ciphertext: Buffer, tag: Buffer)
    requires |h| == FRAME_HEADER_LENGTH && |body| >= FrameBytes(h)
    requires ciphertext == body[..FrameBytes(h)] && tag == body[FrameBytes(h)..]
    ensures OpenBody(s, h, body)
         == s.crypto.open(s.header.algorithm, s.key, NonceFor(FrameSequence(h)), s.header.bytes + h,
                          Sealed(ciphertext, tag))
  {
    hide FrameBytes, FrameSequence, NonceFor;
  }

  /** One frame at `position`: its header checks, its length and its authentication. */
  method OpenNext(s: Session, p: Progress, data: Buffer, position: nat) returns (size: nat, restored: Option<Buffer>)
    requires position + FRAME_HEADER_LENGTH <= |data|
    ensures restored.Some? <==> NextFrame(s, p, data[position..]).Frame?
    ensures restored.Some? ==>
      position + size <= |data| && NextFrame(s, p, data[position..]) == Frame(size, data[position], restored.value)
  {
    size, restored := 0, None;
    var limits := s.limits;
    var frameHeader := data[position..position + FRAME_HEADER_LENGTH];
    assert data[position..][..FRAME_HEADER_LENGTH] == frameHeader;
    var at := position + FRAME_HEADER_LENGTH;
    var kind := FrameKind(frameHeader);
    var sequence := FrameSequence(frameHeader);
    var ciphertextBytes := FrameBytes(frameHeader);
    hide FrameSequence, FrameBytes, NonceFor, OpenBody;
    if sequence != p.sequence { return; }
    if kind != DATA_FRAME && kind != FINAL_FRAME { return; }
    if kind == FINAL_FRAME && ciphertextBytes != 0 { return; }
    if ciphertextBytes > s.header.frameSizeBytes || ciphertextBytes > limits.maxFrameBytes - FRAME_OVERHEAD { return; }
    if kind == DATA_FRAME && p.dataFrames >= limits.maxFrames { return; }
    if kind == DATA_FRAME && ciphertextBytes > limits.maxOutputBytes - p.plaintextBytes { return; }
    if |data| - at < ciphertextBytes + TAG_LENGTH { return; }
    var ciphertext := data[at..at + ciphertextBytes];
    var tag := data[at + ciphertextBytes..at + ciphertextBytes + TAG_LENGTH];
    size := FRAME_OVERHEAD + ciphertextBytes;
    ghost var rest := data[position..];
    ghost var body := rest[FRAME_HEADER_LENGTH..size];
    assert |rest| == |data| - position && frameHeader[0] == data[position];
    Slices(data, position, FRAME_HEADER_LENGTH, ciphertextBytes, TAG_LENGTH);
    assert HeaderAccepted(s, p, rest[..FRAME_HEADER_LENGTH]);
    restored := s.crypto.open(s.header.algorithm, s.key, NonceFor(sequence), s.header.bytes + frameHeader,
                              Sealed(ciphertext, tag));
    OpensBody(s, frameHeader, body, ciphertext, tag);
  }
}
