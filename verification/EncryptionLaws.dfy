/**
 Laws of the PXAE format: a reader's progress does not depend on how its input
 is cut, reader and writer invert each other under the same limits, and with an
 ideal AEAD no other byte string is accepted.
 */
module EncryptionLaws {
  import opened Buffers
  import opened ResourceLimits
  import opened EncryptionFormat

  // ------------------------------------------------------- cutting a reader's input

  /** A frame that is complete or refused stays so when more bytes follow. */
  lemma NextFrameStable(s: Session, p: Progress, a: Buffer, b: Buffer)
    requires !NextFrame(s, p, a).Incomplete?
    ensures NextFrame(s, p, a + b) == NextFrame(s, p, a)
  {
    hide HeaderAccepted, OpenBody;
    var h := a[..FRAME_HEADER_LENGTH];
    assert (a + b)[..FRAME_HEADER_LENGTH] == h;
    var size := FRAME_HEADER_LENGTH + FrameBytes(h) + TAG_LENGTH;
    if size <= |a| {
      assert (a + b)[FRAME_HEADER_LENGTH..size] == a[FRAME_HEADER_LENGTH..size];
    }
  }

  lemma WalkFrame(s: Session, p: Progress, b: Buffer)
    requires !p.finalSeen && NextFrame(s, p, b).Frame?
    ensures var f := NextFrame(s, p, b);
      Walk(s, p, b) == Prepend(Yield(f), Walk(s, After(p, f), b[f.size..]))
  {
  }

  lemma PrependTwice(a: seq<Buffer>, b: seq<Buffer>, w: Walked)
    ensures Prepend(a, Prepend(b, w)) == Prepend(a + b, w)
  {
    assert a + (b + w.plaintexts) == a + b + w.plaintexts;
  }

  /** The walk of ++ b after `first` has been walked. */
  function Resume(s: Session, first: Walked, b: Buffer): Walked {
    if first.refused then first.(rest := first.rest + b)
    else Prepend(first.plaintexts, Walk(s, first.progress, first.rest + b))
  }

  /** Walking a ++ b is walking a, and then b from where a left off. */
  lemma {:induction false} WalkConcat(s: Session, p: Progress, a: Buffer, b: Buffer)
    ensures Walk(s, p, a + b) == Resume(s, Walk(s, p, a), b)
    decreases |a|
  {
    hide NextFrame, After, Yield;
    var f := NextFrame(s, p, a);
    if p.finalSeen {
      if a == [] { assert a + b == b; }
    } else if f.Frame? {
      hide Walk;
      NextFrameStable(s, p, a, b);
      WalkFrame(s, p, a);
      WalkFrame(s, p, a + b);
      assert (a + b)[f.size..] == a[f.size..] + b;
      WalkConcat(s, After(p, f), a[f.size..], b);
      var more := Walk(s, After(p, f), a[f.size..]);
      PrependTwice(Yield(f), more.plaintexts, Walk(s, more.progress, more.rest + b));
    } else if f.Refused? {
      NextFrameStable(s, p, a, b);
    }
  }

  // ------------------------------------------------------------- sizes and chunks

  lemma {:induction false} CountStep(n: nat, size: nat)
    requires size > 0
    ensures n > size ==> DataFrameCount(n, size) == 1 + DataFrameCount(n - size, size)
    ensures 0 < n <= size ==> DataFrameCount(n, size) == 1
  {
    if n > size {
      DivideLess(n + size - 1, size);
    } else if n > 0 {
      DivideLess(n + size - 1, size);
      assert (n - 1) / size == 0;
    }
  }

  lemma {:induction false} DivideLess(n: nat, d: nat)
    requires 0 < d <= n
    ensures n / d == 1 + (n - d) / d
  {
    var q, r := (n - d) / d, (n - d) % d;
    assert n == (q + 1) * d + r;
    DivisionIs(n, d, q + 1, r);
  }

  lemma {:induction false} DivisionIs(n: nat, d: nat, q: nat, r: nat)
    requires 0 < d && r < d && n == q * d + r
    ensures n / d == q
  {
    var q', r' := n / d, n % d;
    assert n == q' * d + r';
    assert (q - q') * d == r' - r;
    assert (q' - q) * d == r - r';
    if q > q' { MultipleAtLeast(q - q', d); }
    if q < q' { MultipleAtLeast(q' - q, d); }
  }

  lemma MultipleAtLeast(k: nat, d: nat)
    requires k > 0
    ensures k * d >= d
  {
    assert k * d == d + (k - 1) * d;
  }

  lemma {:induction false} ChunkCount(data: Buffer, size: nat)
    requires size > 0
    ensures |Chunks(data, size)| == DataFrameCount(|data|, size)
    decreases |data|
  {
    CountStep(|data|, size);
    hide DataFrameCount;
    if data == [] {
      NoFrames(size);
    } else if |data| > size {
      ChunkCount(data[size..], size);
    }
  }

  lemma NoFrames(size: nat)
    requires size > 0
    ensures DataFrameCount(0, size) == 0
  {
  }

  lemma {:induction false} ChunksMakeData(data: Buffer, size: nat)
    requires size > 0
    ensures Flatten(Chunks(data, size)) == data
    ensures |Chunks(data, size)| == DataFrameCount(|data|, size)
    ensures forall c | c in Chunks(data, size) :: 0 < |c| <= size
  {
    hide Chunks, Flatten, DataFrameCount;
    ChunksFlatten(data, size);
    ChunkCount(data, size);
  }

  /** Full frames followed by a shorter rest are the chunks of what they hold. */
  lemma {:induction false} ChunksOf(full: seq<Buffer>, rest: Buffer, size: nat)
    requires size > 0 && |rest| < size
    requires forall c | c in full :: |c| == size
    ensures Chunks(Flatten(full) + rest, size) == full + if rest == [] then [] else [rest]
  {
    hide Chunks, Flatten;
    var last := if rest == [] then [] else [rest];
    if full == [] {
      FlattenNothing();
      assert [] + rest == rest && [] + last == last;
      ShortChunk(rest, size);
    } else {
      var head, tail := full[0], full[1..];
      assert |head| == size && forall c | c in tail :: c in full;
      assert full == [head] + tail;
      FlattenCons(head, tail);
      ChunksOf(tail, rest, size);
      ChunksAfter(head, Flatten(tail) + rest, size);
      assert Flatten(full) + rest == head + (Flatten(tail) + rest);
      assert [head] + (tail + last) == full + last;
    }
  }

  lemma ShortChunk(rest: Buffer, size: nat)
    requires |rest| < size
    ensures Chunks(rest, size) == if rest == [] then [] else [rest]
  {
  }

  lemma ChunksAfter(head: Buffer, others: Buffer, size: nat)
    requires |head| == size > 0
    ensures Chunks(head + others, size) == [head] + Chunks(others, size)
  {
    if others == [] {
      assert head + others == head;
      assert Chunks(others, size) == [] && [head] + [] == [head];
    } else {
      assert (head + others)[..size] == head && (head + others)[size..] == others;
    }
  }

  lemma {:induction false} CountMonotone(m: nat, n: nat, size: nat)
    requires size > 0 && m <= n
    ensures DataFrameCount(m, size) <= DataFrameCount(n, size)
    ensures EncodedLength(m, size) <= EncodedLength(n, size)
    decreases n
  {
    CountStep(m, size);
    CountStep(n, size);
    if m > size {
      CountMonotone(m - size, n - size, size);
    }
  }

  lemma {:induction false} SealedLength(s: Session, chunks: seq<Buffer>, k: nat)
    requires SealLengths(s.crypto) && k <= |chunks|
    ensures |Flatten(DataFrames(s, chunks)[..k])| == |Flatten(chunks[..k])| + k * FRAME_OVERHEAD
    decreases k
  {
    hide SealFrame, SealLengths, Flatten;
    var frames := DataFrames(s, chunks);
    if k == 0 {
      FlattenNothing();
      assert frames[..0] == [] && chunks[..0] == [];
    } else {
      SealedLength(s, chunks, k - 1);
      SealedFrameLength(s, DATA_FRAME, k - 1, chunks[k - 1]);
      assert frames[..k] == frames[..k - 1] + [frames[k - 1]];
      assert chunks[..k] == chunks[..k - 1] + [chunks[k - 1]];
      FlattenSnoc(frames[..k - 1], frames[k - 1]);
      FlattenSnoc(chunks[..k - 1], chunks[k - 1]);
    }
  }

  /** The frames of a packet sum to exactly the declared length. */
  lemma PacketLength(s: Session, data: Buffer)
    requires SealLengths(s.crypto) && s.header.frameSizeBytes > 0 && |s.header.bytes| == GLOBAL_HEADER_LENGTH
    ensures |Packet(s, data)| == EncodedLength(|data|, s.header.frameSizeBytes)
  {
    hide Chunks, Flatten, DataFrameCount, AllFrames, SealLengths;
    var size := s.header.frameSizeBytes;
    ChunksMakeData(data, size);
    var chunks := Chunks(data, size);
    AllFramesLength(s, chunks);
    assert |Packet(s, data)| == GLOBAL_HEADER_LENGTH + |data| + (|chunks| + 1) * FRAME_OVERHEAD;
  }

  lemma AllFramesLength(s: Session, chunks: seq<Buffer>)
    requires SealLengths(s.crypto)
    ensures |Flatten(AllFrames(s, chunks))| == |Flatten(chunks)| + (|chunks| + 1) * FRAME_OVERHEAD
  {
    SealedLength(s, chunks, |chunks|);
    assert chunks[..|chunks|] == chunks;
    var frames := DataFrames(s, chunks);
    assert frames[..|chunks|] == frames;
    FlattenSnoc(frames, SealFrame(s, FINAL_FRAME, |chunks|, []));
    SealedFrameLength(s, FINAL_FRAME, |chunks|, []);
  }

  lemma SealedFrameLength(s: Session, kind: byte, sequence: nat, plaintext: Buffer)
    requires SealLengths(s.crypto)
    ensures |SealFrame(s, kind, sequence, plaintext)| == |plaintext| + FRAME_OVERHEAD
  {
  }

  // ----------------------------------------------------------------- header fields

  lemma HeaderRoundTrip(alg: Algorithm, size: nat, salt: Buffer, limits: EngineLimits)
    requires |salt| == 16 && 1 <= size <= 0xffff_ffff && size + FRAME_OVERHEAD <= limits.maxFrameBytes
    ensures var header := BuildHeader(alg, size, salt);
      ParseHeader(header, limits) == Some(Header(header, alg, size, salt))
  {
    var header := BuildHeader(alg, size, salt);
    Widths();
    ReadWritten(0, 2);
    ReadWritten(size, 4);
    assert header[..4] == MAGIC;
    assert header[6..8] == ToBigEndian(0, 2);
    assert header[8..12] == ToBigEndian(size, 4);
    assert header[12..28] == salt;
  }

  lemma FrameHeaderFields(kind: byte, sequence: nat, n: nat)
    requires sequence < TWO_TO_THE_64 && n < TWO_TO_THE_32
    ensures var h := FrameHeader(kind, sequence, n);
      FrameKind(h) == kind && FrameSequence(h) == sequence && FrameBytes(h) == n
  {
    var h := FrameHeader(kind, sequence, n);
    Widths();
    ReadWritten(sequence, 8);
    ReadWritten(n, 4);
    assert h[1..9] == ToBigEndian(sequence, 8) && h[9..13] == ToBigEndian(n, 4);
  }

  /** A frame header is determined by its three fields. */
  lemma FrameHeaderFromFields(h: Buffer)
    requires |h| == FRAME_HEADER_LENGTH
    ensures FrameSequence(h) < TWO_TO_THE_64
    ensures h == FrameHeader(FrameKind(h), FrameSequence(h), FrameBytes(h))
  {
    Widths();
    WriteRead(h[1..9]);
    WriteRead(h[9..13]);
    assert h == [h[0]] + h[1..9] + h[9..13];
  }

  /** Different sequence numbers give different nonces. */
  lemma NoncesDistinct(a: nat, b: nat)
    requires a < TWO_TO_THE_64 && b < TWO_TO_THE_64 && NonceFor(a) == NonceFor(b)
    ensures a == b
  {
    Widths();
    ReadWritten(a, 8);
    ReadWritten(b, 8);
    assert NonceFor(a)[4..] == ToBigEndian(a, 8) && NonceFor(b)[4..] == ToBigEndian(b, 8);
  }

  // -------------------------------------------------------------------- round trip

  function SealPlain(s: Session, kind: byte, sequence: nat, plaintext: Buffer): Sealed {
    s.crypto.seal(s.header.algorithm, s.key, NonceFor(sequence),
                  s.header.bytes + FrameHeader(kind, sequence, |plaintext|), plaintext)
  }

  /** The reader of the session gets the plaintext of this frame back. */
  ghost predicate Opens(s: Session, kind: byte, sequence: nat, plaintext: Buffer) {
    var sealed := SealPlain(s, kind, sequence, plaintext);
    && |sealed.ciphertext| == |plaintext| && |sealed.tag| == TAG_LENGTH
    && s.crypto.open(s.header.algorithm, s.key, NonceFor(sequence),
                     s.header.bytes + FrameHeader(kind, sequence, |plaintext|), sealed) == Some(plaintext)
  }

  ghost predicate OpensMessage(s: Session, chunks: seq<Buffer>) {
    && (forall i | 0 <= i < |chunks| :: Opens(s, DATA_FRAME, i, chunks[i]))
    && Opens(s, FINAL_FRAME, |chunks|, [])
  }

  lemma {:induction false} AeadOpensMessage(s: Session, chunks: seq<Buffer>)
    requires SealLengths(s.crypto) && OpensSealed(s.crypto)
    ensures OpensMessage(s, chunks)
  {
  }

  lemma OpensAt(s: Session, chunks: seq<Buffer>, i: nat)
    requires OpensMessage(s, chunks) && i < |chunks|
    ensures Opens(s, DATA_FRAME, i, chunks[i])
  {
    hide Opens;
  }

  /** A written frame at the front of the input is read back. */
  lemma NextOfSealed(s: Session, p: Progress, kind: byte, sequence: nat, plaintext: Buffer, others: Buffer)
    requires sequence < TWO_TO_THE_64 && |plaintext| < TWO_TO_THE_32
    requires Opens(s, kind, sequence, plaintext)
    requires HeaderAccepted(s, p, FrameHeader(kind, sequence, |plaintext|))
    ensures NextFrame(s, p, SealFrame(s, kind, sequence, plaintext) + others)
         == Frame(|plaintext| + FRAME_OVERHEAD, kind, plaintext)
    ensures |SealFrame(s, kind, sequence, plaintext)| == |plaintext| + FRAME_OVERHEAD
  {
    FrameHeaderFields(kind, sequence, |plaintext|);
    hide HeaderAccepted, FrameHeader, FrameSequence, FrameBytes;
    var h := FrameHeader(kind, sequence, |plaintext|);
    var sealed := SealPlain(s, kind, sequence, plaintext);
    var b := SealFrame(s, kind, sequence, plaintext) + others;
    var size := |plaintext| + FRAME_OVERHEAD;
    assert b == h + (sealed.ciphertext + (sealed.tag + others));
    assert b[..FRAME_HEADER_LENGTH] == h;
    var body := b[FRAME_HEADER_LENGTH..size];
    assert body == sealed.ciphertext + sealed.tag;
    assert Sealed(body[..|plaintext|], body[|plaintext|..]) == sealed;
  }

  /** The chunks a reader under these limits takes. */
  ghost predicate Admitted(s: Session, chunks: seq<Buffer>) {
    && s.header.frameSizeBytes <= 0xffff_ffff
    && s.header.frameSizeBytes + FRAME_OVERHEAD <= s.limits.maxFrameBytes
    && (forall c | c in chunks :: |c| <= s.header.frameSizeBytes)
    && |chunks| <= s.limits.maxFrames
    && |Flatten(chunks)| <= s.limits.maxOutputBytes
  }

  /** A reader that has taken the first i data frames. */
  function ProgressAt(chunks: seq<Buffer>, i: nat): Progress
    requires i <= |chunks|
  {
    Progress(i, i, |Flatten(chunks[..i])|, false)
  }

  lemma PartOfChunks(chunks: seq<Buffer>, i: nat)
    requires i < |chunks|
    ensures |Flatten(chunks[..i])| + |chunks[i]| == |Flatten(chunks[..i + 1])| <= |Flatten(chunks)|
  {
    assert chunks[..i + 1] == chunks[..i] + [chunks[i]];
    FlattenSnoc(chunks[..i], chunks[i]);
    FlattenAppend(chunks[..i + 1], chunks[i + 1..]);
    assert chunks[..i + 1] + chunks[i + 1..] == chunks;
  }

  /** The i-th chunk is one a reader under these limits takes after those before it. */
  ghost predicate AdmittedAt(s: Session, chunks: seq<Buffer>, i: nat)
    requires i < |chunks|
  {
    && |chunks[i]| <= s.header.frameSizeBytes <= 0xffff_ffff
    && s.header.frameSizeBytes + FRAME_OVERHEAD <= s.limits.maxFrameBytes
    && i < s.limits.maxFrames
    && |Flatten(chunks[..i + 1])| <= s.limits.maxOutputBytes
  }

  lemma AllAdmitted(s: Session, chunks: seq<Buffer>, i: nat)
    requires Admitted(s, chunks) && i < |chunks|
    ensures AdmittedAt(s, chunks, i)
  {
    hide Flatten;
    PartOfChunks(chunks, i);
  }

  lemma {:induction false} WalkDataFrame(s: Session, chunks: seq<Buffer>, i: nat, others: Buffer)
    requires i < |chunks| && AdmittedAt(s, chunks, i) && Opens(s, DATA_FRAME, i, chunks[i])
    ensures Walk(s, ProgressAt(chunks, i), SealFrame(s, DATA_FRAME, i, chunks[i]) + others)
         == Prepend([chunks[i]], Walk(s, ProgressAt(chunks, i + 1), others))
  {
    hide Walk, Flatten, SealFrame, Opens, NextFrame;
    PartOfChunks(chunks, i);
    FrameHeaderFields(DATA_FRAME, i, |chunks[i]|);
    hide FrameHeader, FrameSequence, FrameBytes, FrameKind;
    var p, b := ProgressAt(chunks, i), SealFrame(s, DATA_FRAME, i, chunks[i]) + others;
    NextOfSealed(s, p, DATA_FRAME, i, chunks[i], others);
    WalkFrame(s, p, b);
    assert b[|chunks[i]| + FRAME_OVERHEAD..] == others;
  }

  lemma WalkFinalFrame(s: Session, chunks: seq<Buffer>)
    requires Admitted(s, chunks) && OpensMessage(s, chunks)
    ensures var p := ProgressAt(chunks, |chunks|);
      Walk(s, p, SealFrame(s, FINAL_FRAME, |chunks|, []))
         == Walked(p.(sequence := |chunks| + 1, finalSeen := true), [], [], false)
  {
    hide Flatten, SealFrame, Opens, NextFrame;
    FrameHeaderFields(FINAL_FRAME, |chunks|, 0);
    hide FrameHeader, FrameSequence, FrameBytes, FrameKind;
    var p, b := ProgressAt(chunks, |chunks|), SealFrame(s, FINAL_FRAME, |chunks|, []);
    NextOfSealed(s, p, FINAL_FRAME, |chunks|, [], []);
    assert b + [] == b;
    WalkFrame(s, p, b);
    assert b[FRAME_OVERHEAD..] == [];
  }

  /** The frames of a message from the i-th on. */
  function FramesFrom(s: Session, chunks: seq<Buffer>, i: nat): Buffer
    requires i <= |chunks|
  {
    Flatten(AllFrames(s, chunks)[i..])
  }

  lemma FramesFromStep(s: Session, chunks: seq<Buffer>, i: nat)
    requires i <= |chunks|
    ensures i < |chunks| ==>
      FramesFrom(s, chunks, i) == SealFrame(s, DATA_FRAME, i, chunks[i]) + FramesFrom(s, chunks, i + 1)
    ensures FramesFrom(s, chunks, |chunks|) == SealFrame(s, FINAL_FRAME, |chunks|, [])
    ensures FramesFrom(s, chunks, 0) == Flatten(AllFrames(s, chunks))
  {
    hide SealFrame;
    var all := AllFrames(s, chunks);
    assert all[0..] == all;
    assert all[i..][1..] == all[i + 1..];
    var last := all[|chunks|];
    assert all[|chunks|..] == [] + [last];
    FlattenSnoc([], last);
  }

  lemma {:induction false} WalkWritten(s: Session, chunks: seq<Buffer>, i: nat)
    requires Admitted(s, chunks) && OpensMessage(s, chunks) && i <= |chunks|
    ensures Walk(s, ProgressAt(chunks, i), FramesFrom(s, chunks, i))
         == Walked(Progress(|chunks| + 1, |chunks|, |Flatten(chunks)|, true), chunks[i..], [], false)
    decreases |chunks| - i
  {
    hide Walk, Admitted, OpensMessage, SealFrame, Flatten;
    FramesFromStep(s, chunks, i);
    hide FramesFrom;
    if i == |chunks| {
      WalkFinalFrame(s, chunks);
      assert chunks[..i] == chunks;
    } else {
      WalkWritten(s, chunks, i + 1);
      AllAdmitted(s, chunks, i);
      OpensAt(s, chunks, i);
      WalkDataFrame(s, chunks, i, FramesFrom(s, chunks, i + 1));
      assert [chunks[i]] + chunks[i + 1..] == chunks[i..];
    }
  }

  /** A writer's session: its header is the one it built, and its limits are the plugin's. */
  lemma WriterSessionIs(w: Writer)
    requires WriterOk(w) && WriterSession(w).Some?
    ensures var s, size := WriterSession(w).value, ResolveFrameSize(w.requestedFrameSize, LimitsFor(w.limits));
      && |w.key| == 32 && size.Some?
      && s == OpenSession(w.crypto, w.key,
           Header(BuildHeader(w.algorithm, size.value, w.salt), w.algorithm, size.value, w.salt), LimitsFor(w.limits))
  {
    var limits := LimitsFor(w.limits);
    HeaderRoundTrip(w.algorithm, ResolveFrameSize(w.requestedFrameSize, limits).value, w.salt, limits);
  }

  /** A reader of the packet opens the session the writer used. */
  lemma SameSession(w: Writer, r: Reader, packet: Buffer)
    requires WriterOk(w) && WriterSession(w).Some?
    requires r.crypto == w.crypto && r.key == w.key && r.limits == w.limits
    requires var s := WriterSession(w).value; |packet| >= GLOBAL_HEADER_LENGTH && s.header.bytes <= packet
    ensures ReaderSession(r, packet[..GLOBAL_HEADER_LENGTH]) == WriterSession(w)
    ensures !LooksLegacy(packet)
  {
    WriterSessionIs(w);
    var s := WriterSession(w).value;
    assert packet[..GLOBAL_HEADER_LENGTH] == s.header.bytes;
    HeaderRoundTrip(w.algorithm, s.header.frameSizeBytes, w.salt, LimitsFor(w.limits));
  }

  lemma WriterSessionSizes(w: Writer)
    requires WriterOk(w) && WriterSession(w).Some?
    ensures var s := WriterSession(w).value;
      && 1 <= s.header.frameSizeBytes <= 0xffff_ffff
      && s.header.frameSizeBytes + FRAME_OVERHEAD <= s.limits.maxFrameBytes
  {
    WriterSessionIs(w);
    hide WriterSession, BuildHeader;
  }

  /** The writer's limit checks are all a reader under the same limits needs. */
  lemma {:induction false} WriterAdmits(w: Writer, data: Buffer)
    requires WriterOk(w) && Encrypted(w, data).Some?
    ensures WriterSession(w).Some? && WriterSession(w).value.header.frameSizeBytes > 0
    ensures var s := WriterSession(w).value; Admitted(s, Chunks(data, s.header.frameSizeBytes))
  {
    hide WriterSession, Packet, Flatten, Chunks, DataFrameCount;
    WriterSessionSizes(w);
    var s := WriterSession(w).value;
    ChunksMakeData(data, s.header.frameSizeBytes);
    assert EncodedLength(|data|, s.header.frameSizeBytes) <= s.limits.maxOutputBytes;
  }

  /** The bytes of an encrypted message: the session's header, then its frames from the first on. */
  lemma PacketBytes(w: Writer, data: Buffer)
    requires WriterOk(w) && Encrypted(w, data).Some? && SealLengths(w.crypto)
    ensures WriterSession(w).Some? && WriterSession(w).value.header.frameSizeBytes > 0
    ensures var s, packet := WriterSession(w).value, Encrypted(w, data).value;
      && |packet| >= GLOBAL_HEADER_LENGTH == |s.header.bytes|
      && packet[..GLOBAL_HEADER_LENGTH] == s.header.bytes
      && packet[GLOBAL_HEADER_LENGTH..] == FramesFrom(s, Chunks(data, s.header.frameSizeBytes), 0)
      && |packet| <= s.limits.maxOutputBytes
  {
    hide WriterSession, BuildHeader, Chunks, Flatten, AllFrames, SealLengths, DataFrameCount;
    SessionHeaderLength(w);
    WriterAdmits(w, data);
    var s := WriterSession(w).value;
    FramesFromStep(s, Chunks(data, s.header.frameSizeBytes), 0);
    PacketLength(s, data);
    hide FramesFrom, EncodedLength;
  }

  /** The session a reader with the writer's key and limits opens on a packet. */
  lemma DecryptedFramesOf(w: Writer, r: Reader, data: Buffer)
    requires WriterOk(w) && Encrypted(w, data).Some? && SealLengths(w.crypto)
    requires var s := WriterSession(w).value;
      s.header.frameSizeBytes > 0 && OpensMessage(s, Chunks(data, s.header.frameSizeBytes))
    requires r.crypto == w.crypto && r.key == w.key && r.limits == w.limits
    ensures var packet := Encrypted(w, data).value;
      && !LooksLegacy(packet)
      && DecryptedFrames(r, packet) == Some(Chunks(data, WriterSession(w).value.header.frameSizeBytes))
  {
    hide Encrypted, Walk, ReaderSession, WriterSession, Admitted, OpensMessage, SealLengths, Chunks, FramesFrom,
      LooksLegacy;
    PacketBytes(w, data);
    WriterAdmits(w, data);
    var s, packet := WriterSession(w).value, Encrypted(w, data).value;
    var chunks := Chunks(data, s.header.frameSizeBytes);
    SameSession(w, r, packet);
    WalkWritten(s, chunks, 0);
    assert chunks[..0] == [] && chunks[0..] == chunks;
    FlattenNothing();
  }

  /** The message of a writer, for whatever AEAD opens what this message sealed. */
  lemma {:induction false} PacketDecrypts(w: Writer, r: Reader, legacyAllowed: bool, data: Buffer)
    requires WriterOk(w) && Encrypted(w, data).Some?
    requires SealLengths(w.crypto)
    requires var s := WriterSession(w).value;
      s.header.frameSizeBytes > 0 && OpensMessage(s, Chunks(data, s.header.frameSizeBytes))
    requires r.crypto == w.crypto && r.key == w.key && r.limits == w.limits
    ensures Decrypted(r, legacyAllowed, Encrypted(w, data).value) == Some(data)
  {
    hide Encrypted, WriterSession, OpensMessage, SealLengths, Chunks, FramesFrom, LooksLegacy, DecryptedFrames,
         DecryptedLegacy, Flatten;
    PacketBytes(w, data);
    DecryptedFramesOf(w, r, data);
    WriterLimitsAre(w);
    ChunksMakeData(data, WriterSession(w).value.header.frameSizeBytes);
  }

  lemma WriterLimitsAre(w: Writer)
    requires WriterOk(w) && WriterSession(w).Some?
    ensures |w.key| == 32 && WriterSession(w).value.limits == LimitsFor(w.limits)
    ensures LimitsFor(w.limits).maxOutputBytes <= LimitsFor(w.limits).maxInputBytes
  {
    WriterSessionIs(w);
  }

  /**
   Round trip under one set of limits: a reader with the writer's key and limits
   gets back exactly the data, whatever its legacy setting.
   */
  lemma {:induction false} RoundTrip(w: Writer, r: Reader, legacyAllowed: bool, data: Buffer)
    requires WriterOk(w) && SealLengths(w.crypto) && OpensSealed(w.crypto)
    requires r.crypto == w.crypto && r.key == w.key && r.limits == w.limits
    requires Encrypted(w, data).Some?
    ensures Decrypted(r, legacyAllowed, Encrypted(w, data).value) == Some(data)
  {
    WriterAdmits(w, data);
    var s := WriterSession(w).value;
    hide WriterSession, Encrypted, Decrypted, Chunks;
    AeadOpensMessage(s, Chunks(data, s.header.frameSizeBytes));
    PacketDecrypts(w, r, legacyAllowed, data);
  }

  // ------------------------------------------------------------ only what was written

  /** The tuple was sealed as frame i of this message. */
  predicate SealedAs(s: Session, chunks: seq<Buffer>, i: nat,
                     alg: Algorithm, key: Buffer, nonce: Buffer, aad: Buffer, sealed: Sealed)
  {
    && i <= |chunks|
    && alg == s.header.algorithm && key == s.key && nonce == NonceFor(i)
    && var kind, plaintext := KindAt(chunks, i), PlaintextAt(chunks, i);
    && aad == s.header.bytes + FrameHeader(kind, i, |plaintext|)
    && sealed == SealPlain(s, kind, i, plaintext)
  }

  function KindAt(chunks: seq<Buffer>, i: nat): byte { if i < |chunks| then DATA_FRAME else FINAL_FRAME }
  function PlaintextAt(chunks: seq<Buffer>, i: nat): Buffer { if i < |chunks| then chunks[i] else [] }

  /** An ideal AEAD under which only this message was sealed: nothing else opens. */
  ghost predicate OnlyMessageOpens(s: Session, chunks: seq<Buffer>) {
    forall alg, key, nonce, aad, sealed :: s.crypto.open(alg, key, nonce, aad, sealed).Some? ==>
      exists i :: SealedAs(s, chunks, i, alg, key, nonce, aad, sealed)
  }

  /** What opens under the header and key of session t is a frame of this message. */
  ghost predicate OpensOnly(s: Session, chunks: seq<Buffer>, t: Session) {
    forall nonce, aad, sealed ::
      t.header.bytes <= aad && t.crypto.open(t.header.algorithm, t.key, nonce, aad, sealed).Some? ==>
        exists i :: SealedAs(s, chunks, i, t.header.algorithm, t.key, nonce, aad, sealed)
  }

  lemma OnlyMessageOpensOnly(s: Session, chunks: seq<Buffer>, t: Session)
    requires OnlyMessageOpens(s, chunks) && t.crypto == s.crypto
    ensures OpensOnly(s, chunks, t)
  {
    hide SealedAs;
  }

  lemma Unsealed(s: Session, chunks: seq<Buffer>, t: Session, nonce: Buffer, aad: Buffer, sealed: Sealed)
    returns (i: nat)
    requires OpensOnly(s, chunks, t) && t.header.bytes <= aad
    requires t.crypto.open(t.header.algorithm, t.key, nonce, aad, sealed).Some?
    ensures SealedAs(s, chunks, i, t.header.algorithm, t.key, nonce, aad, sealed)
  {
    hide SealedAs;
    i :| SealedAs(s, chunks, i, t.header.algorithm, t.key, nonce, aad, sealed);
  }

  /** A frame that opens at position i of any message is frame i of the sealed one. */
  lemma {:induction false} OpenedFrameIs(s: Session, chunks: seq<Buffer>, t: Session, p: Progress, b: Buffer)
    requires OpensOnly(s, chunks, t) && |chunks| < TWO_TO_THE_64 - 1
    requires |s.header.bytes| == |t.header.bytes|
    requires NextFrame(t, p, b).Frame?
    ensures var f, i := NextFrame(t, p, b), p.sequence;
      && i <= |chunks| && t.header.bytes == s.header.bytes
      && f.kind == KindAt(chunks, i)
      && f.size <= |b| && b[..f.size] == SealFrame(s, f.kind, i, PlaintextAt(chunks, i))
  {
    hide NextFrame, FrameBytes, FrameSequence, FrameHeader, OpensOnly;
    var h, f := b[..FRAME_HEADER_LENGTH], NextFrame(t, p, b);
    var sealed := FrameOpens(t, p, b);
    var aad := t.header.bytes + h;
    var i := Unsealed(s, chunks, t, NonceFor(p.sequence), aad, sealed);
    FrameHeaderFromFields(h);
    assert p.sequence < TWO_TO_THE_64 by { HeaderSequence(t, p, b); }
    NoncesDistinct(p.sequence, i);
    var kind, plaintext := KindAt(chunks, i), PlaintextAt(chunks, i);
    var wrote := FrameHeader(kind, i, |plaintext|);
    assert aad[..|t.header.bytes|] == t.header.bytes && (s.header.bytes + wrote)[..|t.header.bytes|] == s.header.bytes;
    assert aad[|t.header.bytes|..] == h && (s.header.bytes + wrote)[|t.header.bytes|..] == wrote;
    assert f.kind == kind by { HeaderSequence(t, p, b); WrittenKind(kind, i, |plaintext|); }
  }

  /** What a reader hands to the AEAD when it takes a frame. */
  lemma FrameOpens(t: Session, p: Progress, b: Buffer) returns (sealed: Sealed)
    requires NextFrame(t, p, b).Frame?
    ensures var h, f := b[..FRAME_HEADER_LENGTH], NextFrame(t, p, b);
      && t.crypto.open(t.header.algorithm, t.key, NonceFor(p.sequence), t.header.bytes + h, sealed).Some?
      && f.size <= |b| && b[..f.size] == h + sealed.ciphertext + sealed.tag
  {
    hide FrameBytes, FrameSequence;
    var h, f := b[..FRAME_HEADER_LENGTH], NextFrame(t, p, b);
    var body, n := b[FRAME_HEADER_LENGTH..f.size], FrameBytes(h);
    sealed := Sealed(body[..n], body[n..]);
    assert b[..f.size] == h + body;
  }

  lemma HeaderSequence(t: Session, p: Progress, b: Buffer)
    requires NextFrame(t, p, b).Frame?
    ensures p.sequence == FrameSequence(b[..FRAME_HEADER_LENGTH]) < TWO_TO_THE_64
    ensures NextFrame(t, p, b).kind == b[0]
  {
    FrameHeaderFromFields(b[..FRAME_HEADER_LENGTH]);
  }

  lemma WrittenKind(kind: byte, i: nat, n: nat)
    ensures FrameHeader(kind, i, n)[0] == kind
  {
  }

  /** Whatever completes from frame i on is the sealed message's frames from i on. */
  lemma {:induction false} OnlyWrittenFrames(s: Session, chunks: seq<Buffer>, t: Session, p: Progress, b: Buffer)
    requires OpensOnly(s, chunks, t) && |chunks| < TWO_TO_THE_64 - 1
    requires |s.header.bytes| == |t.header.bytes|
    requires !p.finalSeen && p.sequence <= |chunks| && Complete(Walk(t, p, b))
    ensures t.header.bytes == s.header.bytes
    ensures b == FramesFrom(s, chunks, p.sequence)
    decreases |b|
  {
    hide OpensOnly, SealFrame, NextFrame, FramesFrom;
    var f, i := NextFrame(t, p, b), p.sequence;
    OpenedFrameIs(s, chunks, t, p, b);
    FramesFromStep(s, chunks, i);
    assert b == b[..f.size] + b[f.size..];
    if i < |chunks| {
      WalkFrame(t, p, b);
      OnlyWrittenFrames(s, chunks, t, After(p, f), b[f.size..]);
    } else {
      WalkFrame(t, p, b);
      assert b[f.size..] == [];
    }
  }

  lemma SessionHeaderLength(w: Writer)
    requires WriterOk(w) && WriterSession(w).Some?
    ensures |WriterSession(w).value.header.bytes| == GLOBAL_HEADER_LENGTH && WriterSession(w).value.crypto == w.crypto
  {
    WriterSessionIs(w);
  }

  /**
   Framing completeness: when only this message was sealed, no reader under any
   key, limits or legacy setting accepts any other byte string. Reordered,
   duplicated, truncated and extended frame sequences are all refused.
   */
  lemma {:induction false} OnlyThePacket(w: Writer, data: Buffer, r: Reader, legacyAllowed: bool, x: Buffer)
    requires WriterOk(w) && Encrypted(w, data).Some? && r.crypto == w.crypto
    requires var s := WriterSession(w).value;
      s.header.frameSizeBytes > 0 && OnlyMessageOpens(s, Chunks(data, s.header.frameSizeBytes))
    requires Decrypted(r, legacyAllowed, x).Some?
    ensures x == Encrypted(w, data).value
  {
    hide WriterSession, BuildHeader, Walk, Chunks, FrameHeader, SealFrame, NextFrame, Flatten, FramesFrom,
      OnlyMessageOpens, WithinWriterLimits, LimitsFor, AllFrames;
    WriterAdmits(w, data);
    var s := WriterSession(w).value;
    var chunks := Chunks(data, s.header.frameSizeBytes);
    SessionHeaderLength(w);
    assert |chunks| < TWO_TO_THE_64 - 1;
    if LooksLegacy(x) {
      NoLegacyOpens(s, chunks, r, x);
      assert false;
    } else {
      var t := ReaderSession(r, x[..GLOBAL_HEADER_LENGTH]).value;
      OnlyMessageOpensOnly(s, chunks, t);
      OnlyWrittenFrames(s, chunks, t, START, x[GLOBAL_HEADER_LENGTH..]);
      FramesFromStep(s, chunks, 0);
      assert x == x[..GLOBAL_HEADER_LENGTH] + x[GLOBAL_HEADER_LENGTH..];
    }
  }

  lemma NoLegacyOpens(s: Session, chunks: seq<Buffer>, r: Reader, x: Buffer)
    requires OnlyMessageOpens(s, chunks) && r.crypto == s.crypto && |s.header.bytes| > 0
    ensures DecryptedLegacy(r, x).None?
  {
  }

  /** With the writer's key and limits, exactly the packet is accepted, and it yields the data. */
  lemma {:induction false} ExactlyThePacket(w: Writer, data: Buffer, r: Reader, legacyAllowed: bool, x: Buffer)
    requires WriterOk(w) && Encrypted(w, data).Some? && SealLengths(w.crypto)
    requires r.crypto == w.crypto && r.key == w.key && r.limits == w.limits
    requires var s := WriterSession(w).value;
      && s.header.frameSizeBytes > 0
      && OpensMessage(s, Chunks(data, s.header.frameSizeBytes))
      && OnlyMessageOpens(s, Chunks(data, s.header.frameSizeBytes))
    ensures Decrypted(r, legacyAllowed, x) == if x == Encrypted(w, data).value then Some(data) else None
  {
    hide WriterSession, Encrypted, Decrypted, Chunks, OpensMessage, OnlyMessageOpens, SealLengths;
    PacketDecrypts(w, r, legacyAllowed, data);
    if Decrypted(r, legacyAllowed, x).Some? {
      OnlyThePacket(w, data, r, legacyAllowed, x);
    }
  }
}
