/**
 The PXKM envelope: a data key encrypted by a key service, and the message encrypted
 under that data key. The provider and AES-GCM are parameters; so is the random IV.
 */
module KmsEnvelope {
  import opened Buffers
  import opened ResourceLimits
  import opened EncryptionFormat

  const KMS_MAGIC: Buffer := [0x50, 0x58, 0x4b, 0x4d] // PXKM
  const FORMAT_VERSION: byte := 1
  const ALGORITHM_AES_256_GCM: byte := 1
  const IV_LENGTH: nat := 12
  const FIXED_HEADER_LENGTH: nat := 4 + 1 + 1 + 2 + 4 + 4 + IV_LENGTH
  const DATA_KEY_LENGTH: nat := 32

  /** The engine validates that an encrypted key length fits its four bytes. */
  type KeyLimit = x: int | 0 <= x <= 0xffff_ffff

  datatype KmsLimits = KmsLimits(engine: EngineLimits, maxEncryptedKeyBytes: KeyLimit, maxKeyIdBytes: SafeNat)

  function InputLimit(l: KmsLimits): SafeNat { PluginInputLimit(l.engine) }
  function OutputLimit(l: KmsLimits): SafeNat { PluginOutputLimit(l.engine) }

  datatype Envelope = Envelope(iv: Buffer, encryptedKey: Buffer, ciphertext: Buffer, tag: Buffer)

  // ------------------------------------------------------------------------ format

  function FixedHeader(keyBytes: nat, ciphertextBytes: nat, iv: Buffer): Buffer {
    KMS_MAGIC + [FORMAT_VERSION, ALGORITHM_AES_256_GCM] + ToBigEndian(0, 2)
      + ToBigEndian(keyBytes, 4) + ToBigEndian(ciphertextBytes, 4) + iv
  }

  /** The bytes the AEAD authenticates beside the ciphertext. */
  function AuthenticatedHeader(e: Envelope): Buffer {
    FixedHeader(|e.encryptedKey|, |e.ciphertext|, e.iv) + e.encryptedKey
  }

  function Serialize(e: Envelope): Buffer { AuthenticatedHeader(e) + e.ciphertext + e.tag }

  /** What the format can carry. */
  predicate WellFormed(e: Envelope) {
    && |e.iv| == IV_LENGTH && |e.tag| == TAG_LENGTH
    && 1 <= |e.encryptedKey| <= 0xffff_ffff && |e.ciphertext| <= 0xffff_ffff
  }

  predicate IsFramed(data: Buffer) { |data| >= |KMS_MAGIC| && data[..|KMS_MAGIC|] == KMS_MAGIC }

  /** The framed path of the parser. */
  function ParseFramed(data: Buffer, l: KmsLimits): (r: Option<Envelope>) {
    if |data| > InputLimit(l) || !IsFramed(data) || |data| < FIXED_HEADER_LENGTH + 1 + TAG_LENGTH then None
    else if data[4] != FORMAT_VERSION then None
    else if data[5] != ALGORITHM_AES_256_GCM || BigEndian(data[6..8]) != 0 then None
    else
      var keyLen, ciphertextLength := BigEndian(data[8..12]), BigEndian(data[12..16]);
      if keyLen < 1 || keyLen > l.maxEncryptedKeyBytes then None
      else if FIXED_HEADER_LENGTH + keyLen + ciphertextLength + TAG_LENGTH != |data| then None
      else if ciphertextLength > OutputLimit(l) then None
      else Some(Envelope(
        data[16..FIXED_HEADER_LENGTH],
        data[FIXED_HEADER_LENGTH..FIXED_HEADER_LENGTH + keyLen],
        data[FIXED_HEADER_LENGTH + keyLen..|data| - TAG_LENGTH],
        data[|data| - TAG_LENGTH..]))
  }

  /** The unversioned envelope: key length, key, IV, tag, ciphertext. */
  function ParseLegacy(data: Buffer, l: KmsLimits): Option<Envelope> {
    if |data| > InputLimit(l) || |data| < 4 || data[0] == KMS_MAGIC[0] then None
    else
      var keyLen := BigEndian(data[..4]);
      var start := 4 + keyLen + IV_LENGTH + TAG_LENGTH;
      if keyLen < 1 || keyLen > l.maxEncryptedKeyBytes || |data| < start then None
      else if |data| - start > OutputLimit(l) then None
      else Some(Envelope(
        data[4 + keyLen..4 + keyLen + IV_LENGTH],
        data[4..4 + keyLen],
        data[start..],
        data[4 + keyLen + IV_LENGTH..start]))
  }

  lemma Fits(n: nat)
    requires n <= 0xffff_ffff
    ensures BigEndian(ToBigEndian(n, 4)) == n
  {
    Widths();
    ReadWritten(n, 4);
  }

  lemma FieldsOf(e: Envelope)
    requires WellFormed(e)
    ensures var s, k, n := Serialize(e), |e.encryptedKey|, |e.ciphertext|;
      && |s| == FIXED_HEADER_LENGTH + k + n + TAG_LENGTH
      && s[..4] == KMS_MAGIC && s[4] == FORMAT_VERSION && s[5] == ALGORITHM_AES_256_GCM
      && s[6..8] == ToBigEndian(0, 2) && s[8..12] == ToBigEndian(k, 4) && s[12..16] == ToBigEndian(n, 4)
      && s[16..28] == e.iv && s[28..28 + k] == e.encryptedKey
      && s[28 + k..28 + k + n] == e.ciphertext && s[28 + k + n..] == e.tag
  {
    hide ToBigEndian;
  }

  /** A built envelope parses exactly when it is within the reader's limits, and then to itself. */
  lemma BuiltParses(e: Envelope, l: KmsLimits)
    requires WellFormed(e)
    ensures ParseFramed(Serialize(e), l)
         == if WithinLimits(e, l) then Some(e) else None
  {
    FieldsOf(e);
    Fits(|e.encryptedKey|);
    Fits(|e.ciphertext|);
    assert BigEndian(ToBigEndian(0, 2)) == 0 by { ReadWritten(0, 2); }
    hide Serialize, ToBigEndian, BigEndian;
  }

  /** Every envelope the parser accepts re-serialises to the same bytes. */
  lemma ParsedRebuilds(data: Buffer, l: KmsLimits)
    requires ParseFramed(data, l).Some?
    ensures WellFormed(ParseFramed(data, l).value) && Serialize(ParseFramed(data, l).value) == data
  {
    var e := ParseFramed(data, l).value;
    var k, n := BigEndian(data[8..12]), BigEndian(data[12..16]);
    Widths();
    WriteRead(data[6..8]);
    WriteRead(data[8..12]);
    WriteRead(data[12..16]);
    hide ToBigEndian, BigEndian;
    assert |e.encryptedKey| == k && |e.ciphertext| == n;
    assert data[4..6] == [FORMAT_VERSION, ALGORITHM_AES_256_GCM];
    Cuts(data, k, n);
  }

  lemma Cuts(data: Buffer, k: nat, n: nat)
    requires FIXED_HEADER_LENGTH + k + n + TAG_LENGTH == |data|
    ensures data == data[..4] + data[4..6] + data[6..8] + data[8..12] + data[12..16] + data[16..28] + data[28..28 + k]
                  + data[28 + k..|data| - TAG_LENGTH] + data[|data| - TAG_LENGTH..]
  {
  }

  predicate WithinLimits(e: Envelope, l: KmsLimits) {
    |Serialize(e)| <= InputLimit(l) && |e.encryptedKey| <= l.maxEncryptedKeyBytes && |e.ciphertext| <= OutputLimit(l)
  }

  /** The framed inputs accepted are exactly the serialised envelopes within the limits, each parsed to its own. */
  lemma FramedInputsAreEnvelopes(data: Buffer, l: KmsLimits, e: Envelope)
    ensures ParseFramed(data, l) == Some(e) <==> WellFormed(e) && WithinLimits(e, l) && Serialize(e) == data
  {
    if WellFormed(e) && Serialize(e) == data { BuiltParses(e, l); }
    if ParseFramed(data, l) == Some(e) {
      ParsedRebuilds(data, l);
      BuiltParses(e, l);
    }
  }

  // --------------------------------------------------------------- process and reverse

  datatype DataKey = DataKey(plaintext: Buffer, encrypted: Buffer)

  function SealedEnvelope(c: Crypto, key: DataKey, iv: Buffer, data: Buffer): Envelope {
    var header := FixedHeader(|key.encrypted|, |data|, iv) + key.encrypted;
    var sealed := c.seal(Aes256Gcm, key.plaintext, iv, header, data);
    Envelope(iv, key.encrypted, sealed.ciphertext, sealed.tag)
  }

  predicate Encrypts(key: DataKey, keyIdBytes: nat, data: Buffer, l: KmsLimits) {
    && keyIdBytes <= l.maxKeyIdBytes
    && |data| <= InputLimit(l) && |data| <= 0xffff_ffff
    && |key.plaintext| == DATA_KEY_LENGTH && 1 <= |key.encrypted| <= l.maxEncryptedKeyBytes
    && FIXED_HEADER_LENGTH + |key.encrypted| + TAG_LENGTH + |data| <= OutputLimit(l)
  }

  function Processed(c: Crypto, key: DataKey, keyIdBytes: nat, iv: Buffer, data: Buffer, l: KmsLimits): Option<Buffer> {
    if Encrypts(key, keyIdBytes, data, l) then Some(Serialize(SealedEnvelope(c, key, iv, data))) else None
  }

  /** What reverse makes of a parsed envelope; a legacy one is authenticated without a header. */
  function Opened(c: Crypto, kms: Buffer -> Option<Buffer>, e: Envelope, header: Buffer): Option<Buffer> {
    var key := kms(e.encryptedKey);
    if key.None? || |key.value| != DATA_KEY_LENGTH then None
    else c.open(Aes256Gcm, key.value, e.iv, header, Sealed(e.ciphertext, e.tag))
  }

  function Reversed(c: Crypto, kms: Buffer -> Option<Buffer>, keyIdBytes: nat, allowLegacy: bool, data: Buffer,
                    l: KmsLimits): Option<Buffer>
  {
    if keyIdBytes > l.maxKeyIdBytes then None
    else if IsFramed(data) then
      var e := ParseFramed(data, l);
      if e.None? then None else Opened(c, kms, e.value, AuthenticatedHeader(e.value))
    else
      var e := if allowLegacy then ParseLegacy(data, l) else None;
      if e.None? then None else Opened(c, kms, e.value, [])
  }

  /** Under one set of limits every message that was processed is restored. */
  lemma RoundTrip(c: Crypto, kms: Buffer -> Option<Buffer>, key: DataKey, keyIdBytes: nat, iv: Buffer,
                  allowLegacy: bool, data: Buffer, l: KmsLimits)
    requires SealLengths(c) && OpensSealed(c) && |iv| == IV_LENGTH
    requires kms(key.encrypted) == Some(key.plaintext)
    requires Processed(c, key, keyIdBytes, iv, data, l).Some?
    ensures var packet := Processed(c, key, keyIdBytes, iv, data, l).value;
      && |packet| == FIXED_HEADER_LENGTH + |key.encrypted| + |data| + TAG_LENGTH
      && Reversed(c, kms, keyIdBytes, allowLegacy, packet, l) == Some(data)
  {
    hide FixedHeader;
    var e := SealedEnvelope(c, key, iv, data);
    var header := FixedHeader(|key.encrypted|, |data|, iv) + key.encrypted;
    var sealed := c.seal(Aes256Gcm, key.plaintext, iv, header, data);
    assert c.open(Aes256Gcm, key.plaintext, iv, header, sealed) == Some(data);
    FieldsOf(e);
    BuiltParses(e, l);
    assert AuthenticatedHeader(e) == header;
    hide ParseFramed, Serialize;
    assert IsFramed(Serialize(e));
  }

  // --------------------------------------------------------- the envelope, byte by byte

  lemma HeaderBytes(k: nat, n: nat, iv: Buffer)
    ensures FixedHeader(k, n, iv)
         == [0x50, 0x58, 0x4b, 0x4d, 1, 1, 0, 0] + ToBigEndian(k, 4) + ToBigEndian(n, 4) + iv
  {
    assert ToBigEndian(0, 2) == ToBigEndian(0, 1) + [0] == ToBigEndian(0, 0) + [0] + [0] == [0, 0];
    hide ToBigEndian;
    assert KMS_MAGIC + [FORMAT_VERSION, ALGORITHM_AES_256_GCM] + [0, 0] == [0x50, 0x58, 0x4b, 0x4d, 1, 1, 0, 0];
  }

  /**
   A message is processed exactly when it and the keys are within their limits, to the magic
   word, version, algorithm, lengths and IV, the encrypted key, the ciphertext and its tag;
   all that stands before the ciphertext is authenticated.
   */
  lemma ProcessesExactly(c: Crypto, key: DataKey, keyIdBytes: nat, iv: Buffer, data: Buffer, l: KmsLimits)
    requires SealLengths(c) && |iv| == 12
    ensures var k, n := |key.encrypted|, |data|;
      var header := [0x50, 0x58, 0x4b, 0x4d, 1, 1, 0, 0] + ToBigEndian(k, 4) + ToBigEndian(n, 4) + iv + key.encrypted;
      var sealed := c.seal(Aes256Gcm, key.plaintext, iv, header, data);
      Processed(c, key, keyIdBytes, iv, data, l) ==
        if && keyIdBytes <= l.maxKeyIdBytes
           && n <= Max(l.engine.maxInputBytes, l.engine.maxOutputBytes) && n <= 4294967295
           && |key.plaintext| == 32 && 1 <= k <= l.maxEncryptedKeyBytes
           && 28 + k + n + 16 <= l.engine.maxOutputBytes
        then Some(header + sealed.ciphertext + sealed.tag) else None
  {
    hide FixedHeader, ToBigEndian;
    HeaderBytes(|key.encrypted|, |data|, iv);
  }

  /** What the parts of a framed input are, if it is one. */
  ghost predicate FramedAs(data: Buffer, iv: Buffer, encryptedKey: Buffer, ciphertext: Buffer, tag: Buffer,
                           l: KmsLimits)
  {
    && |iv| == 12 && |tag| == 16 && 1 <= |encryptedKey| <= l.maxEncryptedKeyBytes
    && |ciphertext| <= Min(l.engine.maxOutputBytes, 4294967295)
    && |data| <= Max(l.engine.maxInputBytes, l.engine.maxOutputBytes)
    && data == [0x50, 0x58, 0x4b, 0x4d, 1, 1, 0, 0] + ToBigEndian(|encryptedKey|, 4) + ToBigEndian(|ciphertext|, 4)
         + iv + encryptedKey + ciphertext + tag
  }

  /** What the parts of an unversioned input are. */
  ghost predicate LegacyAs(data: Buffer, iv: Buffer, encryptedKey: Buffer, ciphertext: Buffer, tag: Buffer,
                           l: KmsLimits)
  {
    && |iv| == 12 && |tag| == 16 && 1 <= |encryptedKey| <= l.maxEncryptedKeyBytes
    && |ciphertext| <= l.engine.maxOutputBytes
    && |data| <= Max(l.engine.maxInputBytes, l.engine.maxOutputBytes)
    && data == ToBigEndian(|encryptedKey|, 4) + encryptedKey + iv + tag + ciphertext && data[0] != 0x50
  }

  lemma EnvelopeIs(e: Envelope, data: Buffer, l: KmsLimits)
    ensures ParseFramed(data, l) == Some(e) <==> FramedAs(data, e.iv, e.encryptedKey, e.ciphertext, e.tag, l)
    ensures ParseFramed(data, l) == Some(e) ==>
      AuthenticatedHeader(e) == data[..28 + |e.encryptedKey|] && |data| >= 28 + |e.encryptedKey|
  {
    FramedInputsAreEnvelopes(data, l, e);
    HeaderBytes(|e.encryptedKey|, |e.ciphertext|, e.iv);
    hide ParseFramed, FixedHeader, ToBigEndian;
    var h := AuthenticatedHeader(e);
    assert Serialize(e) == h + (e.ciphertext + e.tag);
    if ParseFramed(data, l) == Some(e) { assert |h| == 28 + |e.encryptedKey| && data[..|h|] == h; }
  }

  lemma LegacyIs(e: Envelope, data: Buffer, l: KmsLimits)
    ensures ParseLegacy(data, l) == Some(e) <==> LegacyAs(data, e.iv, e.encryptedKey, e.ciphertext, e.tag, l)
  {
    Widths();
    if ParseLegacy(data, l) == Some(e) {
      var k := BigEndian(data[..4]);
      WriteRead(data[..4]);
      hide ToBigEndian, BigEndian;
      assert data == data[..4] + data[4..4 + k] + data[4 + k..16 + k] + data[16 + k..32 + k] + data[32 + k..];
    } else if LegacyAs(data, e.iv, e.encryptedKey, e.ciphertext, e.tag, l) {
      LegacyParts(e, data);
      Fits(|e.encryptedKey|);
      hide ToBigEndian, BigEndian;
    }
  }

  lemma LegacyParts(e: Envelope, data: Buffer)
    requires |e.iv| == 12 && |e.tag| == 16
    requires data == ToBigEndian(|e.encryptedKey|, 4) + e.encryptedKey + e.iv + e.tag + e.ciphertext
    ensures var k := |e.encryptedKey|;
      && |data| == 32 + k + |e.ciphertext| && data[..4] == ToBigEndian(k, 4) && data[4..4 + k] == e.encryptedKey
      && data[4 + k..16 + k] == e.iv && data[16 + k..32 + k] == e.tag && data[32 + k..] == e.ciphertext
  {
    hide ToBigEndian;
  }

  /** A key the service yields, used: it has 32 bytes and opens the message. */
  function OpenedWith(c: Crypto, key: Option<Buffer>, iv: Buffer, aad: Buffer, ciphertext: Buffer, tag: Buffer):
    Option<Buffer>
  {
    if key.None? || |key.value| != 32 then None else c.open(Aes256Gcm, key.value, iv, aad, Sealed(ciphertext, tag))
  }

  /**
   A framed input is opened with the key its encrypted key stands for, header and encrypted
   key authenticated; another input only where legacy messages are allowed, and then with
   nothing authenticated beside it; every other input is refused.
   */
  lemma ReversesExactly(c: Crypto, kms: Buffer -> Option<Buffer>, keyIdBytes: nat, allowLegacy: bool, data: Buffer,
                        l: KmsLimits)
    ensures keyIdBytes > l.maxKeyIdBytes ==> Reversed(c, kms, keyIdBytes, allowLegacy, data, l).None?
    ensures keyIdBytes <= l.maxKeyIdBytes ==>
      forall iv, key, ciphertext, tag | FramedAs(data, iv, key, ciphertext, tag, l) ::
        |data| >= 28 + |key| && Reversed(c, kms, keyIdBytes, allowLegacy, data, l)
          == OpenedWith(c, kms(key), iv, data[..28 + |key|], ciphertext, tag)
    ensures keyIdBytes <= l.maxKeyIdBytes && allowLegacy ==>
      forall iv, key, ciphertext, tag | LegacyAs(data, iv, key, ciphertext, tag, l) ::
        Reversed(c, kms, keyIdBytes, allowLegacy, data, l) == OpenedWith(c, kms(key), iv, [], ciphertext, tag)
    ensures Reversed(c, kms, keyIdBytes, allowLegacy, data, l).Some? ==>
      || (exists iv, key, ciphertext, tag :: FramedAs(data, iv, key, ciphertext, tag, l))
      || (allowLegacy && exists iv, key, ciphertext, tag :: LegacyAs(data, iv, key, ciphertext, tag, l))
  {
    hide ParseFramed, ParseLegacy, FramedAs, LegacyAs, AuthenticatedHeader;
    forall iv, key, ciphertext, tag | FramedAs(data, iv, key, ciphertext, tag, l)
      ensures |data| >= 28 + |key| && (keyIdBytes <= l.maxKeyIdBytes ==>
        Reversed(c, kms, keyIdBytes, allowLegacy, data, l)
          == OpenedWith(c, kms(key), iv, data[..28 + |key|], ciphertext, tag))
    {
      var e := Envelope(iv, key, ciphertext, tag);
      EnvelopeIs(e, data, l);
      FramedStarts(data, iv, key, ciphertext, tag, l);
    }
    forall iv, key, ciphertext, tag | LegacyAs(data, iv, key, ciphertext, tag, l)
      ensures keyIdBytes <= l.maxKeyIdBytes && allowLegacy ==>
        Reversed(c, kms, keyIdBytes, allowLegacy, data, l) == OpenedWith(c, kms(key), iv, [], ciphertext, tag)
    {
      LegacyIs(Envelope(iv, key, ciphertext, tag), data, l);
      LegacyStarts(data, iv, key, ciphertext, tag, l);
    }
    if Reversed(c, kms, keyIdBytes, allowLegacy, data, l).Some? {
      if IsFramed(data) {
        EnvelopeIs(ParseFramed(data, l).value, data, l);
      } else {
        LegacyIs(ParseLegacy(data, l).value, data, l);
      }
    }
  }

  lemma FramedStarts(data: Buffer, iv: Buffer, key: Buffer, ciphertext: Buffer, tag: Buffer, l: KmsLimits)
    requires FramedAs(data, iv, key, ciphertext, tag, l)
    ensures IsFramed(data)
  {
    hide ToBigEndian;
  }

  lemma LegacyStarts(data: Buffer, iv: Buffer, key: Buffer, ciphertext: Buffer, tag: Buffer, l: KmsLimits)
    requires LegacyAs(data, iv, key, ciphertext, tag, l)
    ensures !IsFramed(data)
  {
    hide ToBigEndian;
  }

  /** process: the header buffer is filled in place and the parts are joined. */
  method Process(c: Crypto, key: DataKey, keyIdBytes: nat, iv: Buffer, data: Buffer, l: KmsLimits)
    returns (r: Option<Buffer>)
    requires SealLengths(c) && |iv| == IV_LENGTH
    ensures r == Processed(c, key, keyIdBytes, iv, data, l)
  {
    hide ToBigEndian, Flatten, BufferConcat;
    var maxInputBytes, maxOutputBytes := InputLimit(l), OutputLimit(l);
    if keyIdBytes > l.maxKeyIdBytes { return None; }
    if |data| > maxInputBytes { return None; }
    if |data| > 0xffff_ffff { return None; }
    var minimumOverhead := FIXED_HEADER_LENGTH + 1 + TAG_LENGTH;
    if |data| > maxOutputBytes - minimumOverhead { return None; }
    if |key.plaintext| != DATA_KEY_LENGTH { return None; }
    if |key.encrypted| < 1 || |key.encrypted| > l.maxEncryptedKeyBytes { return None; }
    var overhead := FIXED_HEADER_LENGTH + |key.encrypted| + TAG_LENGTH;
    if |data| > maxOutputBytes - overhead { return None; }
    var outputLength := overhead + |data|;
    var header := FilledHeader(|key.encrypted|, |data|, iv);
    var sealed := c.seal(Aes256Gcm, key.plaintext, iv, header + key.encrypted, data);
    Joined(header, key.encrypted, sealed.ciphertext, sealed.tag);
    r := Some(BufferConcat([header, key.encrypted, sealed.ciphertext, sealed.tag], outputLength));
  }

  lemma Joined(a: Buffer, b: Buffer, c: Buffer, d: Buffer)
    ensures BufferConcat([a, b, c, d], |a| + |b| + |c| + |d|) == a + b + c + d
  {
    FlattenNothing();
    assert [a, b, c, d] == [a] + ([b] + ([c] + ([d] + [])));
    FlattenCons(d, []);
    FlattenCons(c, [d] + []);
    FlattenCons(b, [c] + ([d] + []));
    FlattenCons(a, [b] + ([c] + ([d] + [])));
    assert a + (b + (c + (d + []))) == a + b + c + d;
  }

  method PutAt(target: array<byte>, at: nat, part: Buffer)
    requires at + |part| <= target.Length
    modifies target
    ensures target[..at + |part|] == old(target[..at]) + part
  {
    CopyInto(target, at, part, 0, |part|);
    assert part[0..|part|] == part;
  }

  method FilledHeader(keyBytes: nat, ciphertextBytes: nat, iv: Buffer) returns (h: Buffer)
    requires |iv| == IV_LENGTH
    ensures h == FixedHeader(keyBytes, ciphertextBytes, iv)
  {
    hide ToBigEndian;
    var header := new byte[FIXED_HEADER_LENGTH](_ => 0);
    PutAt(header, 0, KMS_MAGIC);
    PutAt(header, 4, [FORMAT_VERSION, ALGORITHM_AES_256_GCM]);
    PutAt(header, 6, ToBigEndian(0, 2));
    PutAt(header, 8, ToBigEndian(keyBytes, 4));
    PutAt(header, 12, ToBigEndian(ciphertextBytes, 4));
    PutAt(header, 16, iv);
    h := header[..];
    assert h == header[..28] && header[..0] == [];
  }
}
