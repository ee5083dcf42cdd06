/**
 The PXAE authenticated frame format: headers, frames, the packet a message
 becomes, and what a reader makes of a byte string.

 The AEAD has the interface of section 2 of RFC 5116 and the key derivation that
 of section 2 of RFC 5869; both are values of type Crypto, with their laws stated
 where a result needs them. The random salt is a parameter.
 */
module EncryptionFormat {
  import opened Buffers
  import opened ResourceLimits

  const MAGIC: Buffer := [0x50, 0x58, 0x41, 0x45] // PXAE
  const VERSION: byte := 1
  const GLOBAL_HEADER_LENGTH: nat := 28
  const FRAME_HEADER_LENGTH: nat := 13
  const TAG_LENGTH: nat := 16
  const FRAME_OVERHEAD: nat := FRAME_HEADER_LENGTH + TAG_LENGTH
  const DEFAULT_PLAINTEXT_FRAME_BYTES: nat := 64 * 1024
  const DATA_FRAME: byte := 1
  const FINAL_FRAME: byte := 2
  const LEGACY_HEADER_LENGTH: nat := 1 + 12 + TAG_LENGTH

  datatype Algorithm = Aes256Gcm | ChaCha20Poly1305

  function AlgorithmId(a: Algorithm): byte { if a == Aes256Gcm then 1 else 2 }

  function AlgorithmOf(id: byte): Option<Algorithm> {
    if id == 1 then Some(Aes256Gcm) else if id == 2 then Some(ChaCha20Poly1305) else None
  }

  // ----------------------------------------------------------------- cryptography

  datatype Sealed = Sealed(ciphertext: Buffer, tag: Buffer)

  /** seal and open take algorithm, key, nonce and associated data. */
  datatype Crypto = Crypto(
    hkdf: (Buffer, Buffer, string) -> Buffer,
    seal: (Algorithm, Buffer, Buffer, Buffer, Buffer) -> Sealed,
    open: (Algorithm, Buffer, Buffer, Buffer, Sealed) -> Option<Buffer>)

  /** The ciphertext is as long as the plaintext and the tag has sixteen bytes. */
  ghost predicate SealLengths(c: Crypto) {
    forall alg, key, nonce, aad, plaintext ::
      var s := c.seal(alg, key, nonce, aad, plaintext);
      |s.ciphertext| == |plaintext| && |s.tag| == TAG_LENGTH
  }

  /** Open inverts Seal. */
  ghost predicate OpensSealed(c: Crypto) {
    forall alg, key, nonce, aad, plaintext ::
      c.open(alg, key, nonce, aad, c.seal(alg, key, nonce, aad, plaintext)) == Some(plaintext)
  }

  // ------------------------------------------------------------- limits and sizes

  /** Input and output limits of the plugin, and the frame limits. */
  function LimitsFor(limits: EngineLimits): EngineLimits {
    limits.(maxInputBytes := PluginInputLimit(limits), maxOutputBytes := PluginOutputLimit(limits))
  }

  function ResolveFrameSize(requested: Option<int>, limits: EngineLimits): (r: Option<nat>)
    ensures r.Some? ==> 1 <= r.value <= 0xffff_ffff && r.value + FRAME_OVERHEAD <= limits.maxFrameBytes
  {
    var capacity := limits.maxFrameBytes - FRAME_OVERHEAD;
    if capacity < 1 || limits.maxFrameBytes < GLOBAL_HEADER_LENGTH then None
    else
      var size := if requested.Some? then requested.value else Min(DEFAULT_PLAINTEXT_FRAME_BYTES, capacity);
      if size < 1 || size > 0xffff_ffff || size > capacity then None else Some(size)
  }

  function DataFrameCount(plaintextBytes: nat, frameSizeBytes: nat): nat
    requires frameSizeBytes > 0
  {
    if plaintextBytes == 0 then 0 else (plaintextBytes + frameSizeBytes - 1) / frameSizeBytes
  }

  function EncodedLength(plaintextBytes: nat, frameSizeBytes: nat): nat
    requires frameSizeBytes > 0
  {
    GLOBAL_HEADER_LENGTH + plaintextBytes + (DataFrameCount(plaintextBytes, frameSizeBytes) + 1) * FRAME_OVERHEAD
  }

  // ---------------------------------------------------------------------- headers

  function BuildHeader(alg: Algorithm, frameSizeBytes: nat, salt: Buffer): Buffer {
    MAGIC + [VERSION, AlgorithmId(alg)] + ToBigEndian(0, 2) + ToBigEndian(frameSizeBytes, 4) + salt
  }

  datatype Header = Header(bytes: Buffer, algorithm: Algorithm, frameSizeBytes: nat, salt: Buffer)

  function ParseHeader(header: Buffer, limits: EngineLimits): (h: Option<Header>)
    ensures h.Some? ==> h.value.bytes == header && |header| == GLOBAL_HEADER_LENGTH
    ensures h.Some? ==> 1 <= h.value.frameSizeBytes && h.value.frameSizeBytes + FRAME_OVERHEAD <= limits.maxFrameBytes
  {
    if |header| != GLOBAL_HEADER_LENGTH || header[..4] != MAGIC then None
    else if header[4] != VERSION then None
    else if AlgorithmOf(header[5]).None? || BigEndian(header[6..8]) != 0 then None
    else
      var frameSizeBytes := BigEndian(header[8..12]);
      if frameSizeBytes < 1 || frameSizeBytes > limits.maxFrameBytes - FRAME_OVERHEAD then None
      else Some(Header(header, AlgorithmOf(header[5]).value, frameSizeBytes, header[12..28]))
  }

  function FrameHeader(kind: byte, sequence: nat, ciphertextBytes: nat): (h: Buffer)
    ensures |h| == FRAME_HEADER_LENGTH
  {
    [kind] + ToBigEndian(sequence, 8) + ToBigEndian(ciphertextBytes, 4)
  }

  function FrameKind(h: Buffer): byte requires |h| == FRAME_HEADER_LENGTH { h[0] }
  function FrameSequence(h: Buffer): nat requires |h| == FRAME_HEADER_LENGTH { BigEndian(h[1..9]) }
  function FrameBytes(h: Buffer): nat requires |h| == FRAME_HEADER_LENGTH { BigEndian(h[9..13]) }

  function NonceFor(sequence: nat): Buffer { Zeros(4) + ToBigEndian(sequence, 8) }

  function Info(alg: Algorithm): string {
    "PipeX AEAD framed v1:" + if alg == Aes256Gcm then "aes-256-gcm" else "chacha20-poly1305"
  }

  /** One message under way: its header and the key derived for it. */
  datatype Session = Session(crypto: Crypto, header: Header, key: Buffer, limits: EngineLimits)

  function OpenSession(c: Crypto, key: Buffer, header: Header, limits: EngineLimits): Session {
    Session(c, header, c.hkdf(key, header.salt, Info(header.algorithm)), limits)
  }

  // ---------------------------------------------------------------------- writing

  function SealFrame(s: Session, kind: byte, sequence: nat, plaintext: Buffer): Buffer {
    var h := FrameHeader(kind, sequence, |plaintext|);
    var sealed := s.crypto.seal(s.header.algorithm, s.key, NonceFor(sequence), s.header.bytes + h, plaintext);
    h + sealed.ciphertext + sealed.tag
  }

  function DataFrames(s: Session, chunks: seq<Buffer>): (frames: seq<Buffer>)
    ensures |frames| == |chunks|
  {
    seq(|chunks|, i requires 0 <= i < |chunks| => SealFrame(s, DATA_FRAME, i, chunks[i]))
  }

  function AllFrames(s: Session, chunks: seq<Buffer>): (frames: seq<Buffer>)
    ensures |frames| == |chunks| + 1
  {
    DataFrames(s, chunks) + [SealFrame(s, FINAL_FRAME, |chunks|, [])]
  }

  /** The whole packet of a message. */
  function Packet(s: Session, data: Buffer): Buffer
    requires s.header.frameSizeBytes > 0
  {
    s.header.bytes + Flatten(AllFrames(s, Chunks(data, s.header.frameSizeBytes)))
  }

  /** Everything a writer is given. */
  datatype Writer = Writer(
    crypto: Crypto,
    algorithm: Algorithm,
    key: Buffer,
    requestedFrameSize: Option<int>,
    salt: Buffer,
    limits: EngineLimits)

  predicate WriterOk(w: Writer) { |w.salt| == 16 }

  /** The session a writer opens; None when the key or the frame size is refused. */
  function WriterSession(w: Writer): Option<Session> {
    var limits := LimitsFor(w.limits);
    var size := ResolveFrameSize(w.requestedFrameSize, limits);
    if |w.key| != 32 || size.None? then None
    else
      var header := BuildHeader(w.algorithm, size.value, w.salt);
      match ParseHeader(header, limits)
      case None => None
      case Some(h) => Some(OpenSession(w.crypto, w.key, h, limits))
  }

  predicate WithinWriterLimits(plaintextBytes: nat, frameSizeBytes: nat, limits: EngineLimits)
    requires frameSizeBytes > 0
  {
    && plaintextBytes <= limits.maxInputBytes
    && DataFrameCount(plaintextBytes, frameSizeBytes) <= limits.maxFrames
    && EncodedLength(plaintextBytes, frameSizeBytes) <= limits.maxOutputBytes
  }

  /** What encrypting `data` yields. */
  function Encrypted(w: Writer, data: Buffer): Option<Buffer> {
    match WriterSession(w)
    case None => None
    case Some(s) =>
      if s.header.frameSizeBytes > 0 && WithinWriterLimits(|data|, s.header.frameSizeBytes, s.limits)
      then Some(Packet(s, data)) else None
  }

  // ---------------------------------------------------------------------- reading

  /** What a reader remembers between frames. */
  datatype Progress = Progress(sequence: nat, dataFrames: nat, plaintextBytes: nat, finalSeen: bool)

  const START := Progress(0, 0, 0, false)

  /** The checks made on a frame header before its body is read. */
  predicate HeaderAccepted(s: Session, p: Progress, h: Buffer)
    requires |h| == FRAME_HEADER_LENGTH
  {
    && FrameSequence(h) == p.sequence
    && (FrameKind(h) == DATA_FRAME || FrameKind(h) == FINAL_FRAME)
    && (FrameKind(h) == FINAL_FRAME ==> FrameBytes(h) == 0)
    && FrameBytes(h) <= s.header.frameSizeBytes
    && FrameBytes(h) <= s.limits.maxFrameBytes - FRAME_OVERHEAD
    && (FrameKind(h) == DATA_FRAME ==> p.dataFrames < s.limits.maxFrames)
    && (FrameKind(h) == DATA_FRAME ==> FrameBytes(h) <= s.limits.maxOutputBytes - p.plaintextBytes)
  }

  function OpenBody(s: Session, h: Buffer, body: Buffer): Option<Buffer>
    requires |h| == FRAME_HEADER_LENGTH && |body| >= FrameBytes(h)
  {
    var n := FrameBytes(h);
    s.crypto.open(s.header.algorithm, s.key, NonceFor(FrameSequence(h)), s.header.bytes + h,
                  Sealed(body[..n], body[n..]))
  }

  datatype Frame = Incomplete | Refused | Frame(size: nat, kind: byte, plaintext: Buffer)

  /** The frame at the front of `b`. */
  function NextFrame(s: Session, p: Progress, b: Buffer): (f: Frame)
    ensures f.Frame? ==> FRAME_OVERHEAD <= f.size <= |b|
  {
    if |b| < FRAME_HEADER_LENGTH then Incomplete else
    var h := b[..FRAME_HEADER_LENGTH];
    if !HeaderAccepted(s, p, h) then Refused else
    var size := FRAME_HEADER_LENGTH + FrameBytes(h) + TAG_LENGTH;
    if |b| < size then Incomplete else
    match OpenBody(s, h, b[FRAME_HEADER_LENGTH..size])
    case None => Refused
    case Some(plaintext) => Frame(size, FrameKind(h), plaintext)
  }

  function After(p: Progress, f: Frame): Progress
    requires f.Frame?
  {
    if f.kind == FINAL_FRAME then p.(sequence := p.sequence + 1, finalSeen := true)
    else p.(sequence := p.sequence + 1, dataFrames := p.dataFrames + 1,
            plaintextBytes := p.plaintextBytes + |f.plaintext|)
  }

  /** What a frame adds to the plaintext: a final frame adds nothing. */
  function Yield(f: Frame): seq<Buffer>
    requires f.Frame?
  {
    if f.kind == FINAL_FRAME then [] else [f.plaintext]
  }

  /** The verified frames at the front of a byte string, and what stands after them. */
  datatype Walked = Walked(progress: Progress, plaintexts: seq<Buffer>, rest: Buffer, refused: bool)

  function Walk(s: Session, p: Progress, b: Buffer): Walked
    decreases |b|
  {
    if p.finalSeen then Walked(p, [], b, b != []) else
    var f := NextFrame(s, p, b);
    match f
    case Incomplete => Walked(p, [], b, false)
    case Refused => Walked(p, [], b, true)
    case Frame(size, _, _) => Prepend(Yield(f), Walk(s, After(p, f), b[size..]))
  }

  function Prepend(plaintexts: seq<Buffer>, w: Walked): Walked {
    w.(plaintexts := plaintexts + w.plaintexts)
  }

  predicate Complete(w: Walked) { !w.refused && w.rest == [] && w.progress.finalSeen }

  /** Everything a reader is given; `allowLegacy` is None when the option is omitted. */
  datatype Reader = Reader(crypto: Crypto, key: Buffer, allowLegacy: Option<bool>, limits: EngineLimits)

  /** The session of a framed message, once its first 28 bytes are known. */
  function ReaderSession(r: Reader, header: Buffer): Option<Session> {
    match ParseHeader(header, LimitsFor(r.limits))
    case None => None
    case Some(h) => Some(OpenSession(r.crypto, r.key, h, LimitsFor(r.limits)))
  }

  /** The data frames of a framed message; None when any check fails. */
  function DecryptedFrames(r: Reader, data: Buffer): Option<seq<Buffer>> {
    if |data| < GLOBAL_HEADER_LENGTH then None else
    match ReaderSession(r, data[..GLOBAL_HEADER_LENGTH])
    case None => None
    case Some(s) =>
      var w := Walk(s, START, data[GLOBAL_HEADER_LENGTH..]);
      if Complete(w) then Some(w.plaintexts) else None
  }

  function DecryptedLegacy(r: Reader, data: Buffer): Option<Buffer> {
    if |data| < LEGACY_HEADER_LENGTH || |data| - LEGACY_HEADER_LENGTH > LimitsFor(r.limits).maxOutputBytes
      || AlgorithmOf(data[0]).None? then None
    else
      r.crypto.open(AlgorithmOf(data[0]).value, r.key, data[1..13], [],
                    Sealed(data[LEGACY_HEADER_LENGTH..], data[13..LEGACY_HEADER_LENGTH]))
  }

  /** A first byte other than that of the magic word marks a legacy message. */
  predicate LooksLegacy(data: Buffer) { data == [] || data[0] != MAGIC[0] }

  /** What decrypting `data` yields when legacy messages are or are not allowed. */
  function Decrypted(r: Reader, legacyAllowed: bool, data: Buffer): Option<Buffer> {
    if |r.key| != 32 || |data| > LimitsFor(r.limits).maxInputBytes then None
    else if LooksLegacy(data) then
      if legacyAllowed then DecryptedLegacy(r, data) else None
    else
      match DecryptedFrames(r, data)
      case None => None
      case Some(frames) => Some(Flatten(frames))
  }
}
