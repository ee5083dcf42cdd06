/**
 Framing completeness for a key that sealed any number of messages: their headers differ,
 as fresh salts make them, and a reader of the key accepts exactly the packets sealed,
 never frames spliced from several of them.
 */
module ManyMessages {
  import opened Buffers
  import opened EncryptionFormat
  import opened EncryptionLaws
  import opened IdealAead

  /** One message and what it was written with. */
  datatype Sent = Sent(writer: Writer, data: Buffer)

  predicate SentOk(m: Sent) { WriterOk(m.writer) && Encrypted(m.writer, m.data).Some? }

  function SessionOf(m: Sent): (s: Session)
    requires SentOk(m)
    ensures s.header.frameSizeBytes > 0 && WriterSession(m.writer) == Some(s)
  {
    WriterSession(m.writer).value
  }

  function ChunksOfSent(m: Sent): seq<Buffer>
    requires SentOk(m)
  {
    Chunks(m.data, SessionOf(m).header.frameSizeBytes)
  }

  function PacketOf(m: Sent): Buffer
    requires SentOk(m)
  {
    Encrypted(m.writer, m.data).value
  }

  /** All messages were written with one AEAD, under headers that differ. */
  ghost predicate SentApart(sent: seq<Sent>, c: Crypto) {
    && (forall k | 0 <= k < |sent| :: SentOk(sent[k]) && sent[k].writer.crypto == c)
    && (forall j, k | 0 <= j < k < |sent| :: SessionOf(sent[j]).header.bytes != SessionOf(sent[k]).header.bytes)
  }

  ghost predicate SealedIn(sent: seq<Sent>, k: nat, i: nat,
                           alg: Algorithm, key: Buffer, nonce: Buffer, aad: Buffer, sealed: Sealed)
  {
    && k < |sent| && SentOk(sent[k])
    && SealedAs(SessionOf(sent[k]), ChunksOfSent(sent[k]), i, alg, key, nonce, aad, sealed)
  }

  /** An ideal AEAD: under keys derived from `key`, only frames of these messages open. */
  ghost predicate OnlySentOpens(sent: seq<Sent>, c: Crypto, key: Buffer) {
    forall alg, salt, nonce, aad, sealed ::
      c.open(alg, c.hkdf(key, salt, Info(alg)), nonce, aad, sealed).Some? ==>
        exists k: nat, i: nat :: SealedIn(sent, k, i, alg, c.hkdf(key, salt, Info(alg)), nonce, aad, sealed)
  }

  lemma SentFacts(m: Sent)
    requires SentOk(m)
    ensures |SessionOf(m).header.bytes| == GLOBAL_HEADER_LENGTH && |ChunksOfSent(m)| < TWO_TO_THE_64 - 1
    ensures PacketOf(m) == SessionOf(m).header.bytes + FramesFrom(SessionOf(m), ChunksOfSent(m), 0)
  {
    hide WriterSession, Chunks, Flatten, AllFrames, FramesFrom;
    SessionHeaderLength(m.writer);
    WriterAdmits(m.writer, m.data);
    FramesFromStep(SessionOf(m), ChunksOfSent(m), 0);
  }

  /** The authenticated data tells the message: two frames under one header are of one message. */
  lemma SameMessage(sent: seq<Sent>, c: Crypto, t: Session, k: nat, i: nat, nonce: Buffer, aad: Buffer, sealed: Sealed)
    requires SentApart(sent, c) && |t.header.bytes| == GLOBAL_HEADER_LENGTH && t.header.bytes <= aad
    requires SealedIn(sent, k, i, t.header.algorithm, t.key, nonce, aad, sealed)
    ensures SessionOf(sent[k]).header.bytes == t.header.bytes
  {
    hide FrameHeader, SealPlain, SessionOf, ChunksOfSent;
    SentFacts(sent[k]);
    assert aad[..GLOBAL_HEADER_LENGTH] == SessionOf(sent[k]).header.bytes;
  }

  lemma HeadersDiffer(sent: seq<Sent>, c: Crypto, j: nat, k: nat)
    requires SentApart(sent, c) && j < |sent| && k < |sent|
    requires SessionOf(sent[j]).header.bytes == SessionOf(sent[k]).header.bytes
    ensures j == k
  {
    hide SessionOf;
  }

  /** All that opens under the header of message k is of message k. */
  lemma OpensOnlyOne(sent: seq<Sent>, r: Reader, t: Session, k: nat)
    requires SentApart(sent, r.crypto) && OnlySentOpens(sent, r.crypto, r.key) && k < |sent|
    requires |t.header.bytes| == GLOBAL_HEADER_LENGTH && SessionOf(sent[k]).header.bytes == t.header.bytes
    requires t.crypto == r.crypto && t.key == r.crypto.hkdf(r.key, t.header.salt, Info(t.header.algorithm))
    ensures OpensOnly(SessionOf(sent[k]), ChunksOfSent(sent[k]), t)
  {
    assert SentOk(sent[k]);
    hide SealedAs, SessionOf, ChunksOfSent, SentApart;
    var s, chunks, alg := SessionOf(sent[k]), ChunksOfSent(sent[k]), t.header.algorithm;
    forall nonce, aad, sealed | t.header.bytes <= aad && t.crypto.open(alg, t.key, nonce, aad, sealed).Some?
      ensures exists i :: SealedAs(s, chunks, i, alg, t.key, nonce, aad, sealed)
    {
      var j, i :| SealedIn(sent, j, i, alg, t.key, nonce, aad, sealed);
      SameMessage(sent, r.crypto, t, j, i, nonce, aad, sealed);
      HeadersDiffer(sent, r.crypto, j, k);
      assert SealedAs(s, chunks, i, alg, t.key, nonce, aad, sealed);
    }
  }

  /** The message whose frame opens first. */
  lemma FirstMessage(sent: seq<Sent>, r: Reader, t: Session, b: Buffer) returns (k: nat)
    requires SentApart(sent, r.crypto) && OnlySentOpens(sent, r.crypto, r.key)
    requires |t.header.bytes| == GLOBAL_HEADER_LENGTH
    requires t.crypto == r.crypto && t.key == r.crypto.hkdf(r.key, t.header.salt, Info(t.header.algorithm))
    requires NextFrame(t, START, b).Frame?
    ensures k < |sent| && SessionOf(sent[k]).header.bytes == t.header.bytes
  {
    hide SealedAs, SessionOf, ChunksOfSent, SentApart, FrameBytes, FrameSequence;
    var f, h := NextFrame(t, START, b), b[..FRAME_HEADER_LENGTH];
    var body := b[FRAME_HEADER_LENGTH..f.size];
    var n, alg, aad := FrameBytes(h), t.header.algorithm, t.header.bytes + h;
    var sealed := Sealed(body[..n], body[n..]);
    assert t.crypto.open(alg, t.key, NonceFor(FrameSequence(h)), aad, sealed).Some?;
    var i;
    k, i :| SealedIn(sent, k, i, alg, t.key, NonceFor(FrameSequence(h)), aad, sealed);
    SameMessage(sent, r.crypto, t, k, i, NonceFor(FrameSequence(h)), aad, sealed);
  }

  /** The session a reader opens on a framed input it accepts. */
  lemma AcceptedSession(r: Reader, x: Buffer) returns (t: Session)
    requires DecryptedFrames(r, x).Some?
    ensures |x| >= GLOBAL_HEADER_LENGTH && t.header.bytes == x[..GLOBAL_HEADER_LENGTH]
    ensures t.crypto == r.crypto && t.key == r.crypto.hkdf(r.key, t.header.salt, Info(t.header.algorithm))
    ensures Complete(Walk(t, START, x[GLOBAL_HEADER_LENGTH..])) && NextFrame(t, START, x[GLOBAL_HEADER_LENGTH..]).Frame?
  {
    hide ParseHeader, NextFrame;
    t := ReaderSession(r, x[..GLOBAL_HEADER_LENGTH]).value;
  }

  /** Every framed input a reader of the key accepts is one of the packets sealed. */
  lemma {:induction false} OnlyThePackets(sent: seq<Sent>, r: Reader, x: Buffer) returns (k: nat)
    requires SentApart(sent, r.crypto) && OnlySentOpens(sent, r.crypto, r.key)
    requires DecryptedFrames(r, x).Some?
    ensures k < |sent| && SentOk(sent[k]) && x == PacketOf(sent[k])
  {
    hide DecryptedFrames, Walk, NextFrame, OnlySentOpens, OpensOnly, SessionOf, ChunksOfSent, PacketOf, FramesFrom;
    var t := AcceptedSession(r, x);
    var rest := x[GLOBAL_HEADER_LENGTH..];
    k := FirstMessage(sent, r, t, rest);
    SentFacts(sent[k]);
    OpensOnlyOne(sent, r, t, k);
    OnlyWrittenFrames(SessionOf(sent[k]), ChunksOfSent(sent[k]), t, START, rest);
    assert x == x[..GLOBAL_HEADER_LENGTH] + rest;
  }

  /** The reader shares key and limits with the writer of this message, and the AEAD opens it. */
  ghost predicate Readable(m: Sent, r: Reader) {
    && SentOk(m) && r.key == m.writer.key && r.limits == m.writer.limits && r.crypto == m.writer.crypto
    && OpensMessage(SessionOf(m), ChunksOfSent(m))
  }

  /**
   No splicing: of all inputs that do not look legacy, a reader of the key accepts exactly
   the packets sealed, and each yields its own message.
   */
  lemma {:induction false} ExactlyThePackets(sent: seq<Sent>, r: Reader, legacyAllowed: bool, x: Buffer)
    requires SentApart(sent, r.crypto) && OnlySentOpens(sent, r.crypto, r.key) && SealLengths(r.crypto)
    requires forall k | 0 <= k < |sent| :: Readable(sent[k], r)
    ensures forall k | 0 <= k < |sent| :: Decrypted(r, legacyAllowed, PacketOf(sent[k])) == Some(sent[k].data)
    ensures !LooksLegacy(x) ==>
      (Decrypted(r, legacyAllowed, x).Some? <==> exists k :: 0 <= k < |sent| && x == PacketOf(sent[k]))
  {
    hide Encrypted, WriterSession, OpensMessage, SealLengths, OnlySentOpens, LooksLegacy, DecryptedFrames, Chunks;
    forall k | 0 <= k < |sent| ensures Decrypted(r, legacyAllowed, PacketOf(sent[k])) == Some(sent[k].data) {
      hide Decrypted;
      assert Readable(sent[k], r);
      PacketDecrypts(sent[k].writer, r, legacyAllowed, sent[k].data);
    }
    if !LooksLegacy(x) && Decrypted(r, legacyAllowed, x).Some? {
      var k := OnlyThePackets(sent, r, x);
    }
  }

  // ------------------------------------------------------------- the assumption can be met

  function PlaintextOf(sent: seq<Sent>, k: nat, i: nat): Option<Buffer> {
    if k < |sent| && SentOk(sent[k]) then Some(PlaintextAt(ChunksOfSent(sent[k]), i)) else None
  }

  /** Opens the frames of these messages and nothing else. */
  ghost function OpenSent(sent: seq<Sent>, alg: Algorithm, key: Buffer, nonce: Buffer, aad: Buffer, sealed: Sealed):
    Option<Buffer>
  {
    if exists k: nat, i: nat :: SealedIn(sent, k, i, alg, key, nonce, aad, sealed) then
      var k: nat, i: nat :| SealedIn(sent, k, i, alg, key, nonce, aad, sealed);
      PlaintextOf(sent, k, i)
    else None
  }

  ghost function Restricting(c: Crypto, sent: seq<Sent>): Crypto {
    c.(open := (alg: Algorithm, key: Buffer, nonce: Buffer, aad: Buffer, sealed: Sealed) =>
      OpenSent(sent, alg, key, nonce, aad, sealed))
  }

  ghost function WithCrypto(sent: seq<Sent>, c: Crypto): seq<Sent> {
    seq(|sent|, k requires 0 <= k < |sent| => sent[k].(writer := sent[k].writer.(crypto := c)))
  }

  /** What opens does not touch what is sealed. */
  lemma SwapSent(m: Sent, swapped: Crypto)
    requires SentOk(m) && swapped.seal == m.writer.crypto.seal && swapped.hkdf == m.writer.crypto.hkdf
    ensures var w := m.(writer := m.writer.(crypto := swapped));
      && SentOk(w) && SessionOf(w) == SessionOf(m).(crypto := swapped)
      && SessionOf(m).crypto == m.writer.crypto && ChunksOfSent(w) == ChunksOfSent(m)
  {
    hide WriterSession, Encrypted, Chunks;
    SwapOpen(m.writer, m.data, swapped);
  }

  lemma SealedSwapped(s: Session, chunks: seq<Buffer>, i: nat, swapped: Crypto,
                      alg: Algorithm, key: Buffer, nonce: Buffer, aad: Buffer, sealed: Sealed)
    requires swapped.seal == s.crypto.seal && SealedAs(s, chunks, i, alg, key, nonce, aad, sealed)
    ensures SealedAs(s.(crypto := swapped), chunks, i, alg, key, nonce, aad, sealed)
  {
    hide FrameHeader, NonceFor;
  }

  /** A tuple tells its message and its frame. */
  lemma OpenSentFinds(sent: seq<Sent>, c: Crypto, k: nat, i: nat,
                      alg: Algorithm, key: Buffer, nonce: Buffer, aad: Buffer, sealed: Sealed)
    requires SentApart(sent, c) && SealedIn(sent, k, i, alg, key, nonce, aad, sealed)
    ensures OpenSent(sent, alg, key, nonce, aad, sealed) == PlaintextOf(sent, k, i)
  {
    hide SentApart, SealedIn, PlaintextOf;
    var j: nat, n: nat :| SealedIn(sent, j, n, alg, key, nonce, aad, sealed)
      && OpenSent(sent, alg, key, nonce, aad, sealed) == PlaintextOf(sent, j, n);
    SameFrame(sent, c, j, n, k, i, alg, key, nonce, aad, sealed);
  }

  lemma SameFrame(sent: seq<Sent>, c: Crypto, j: nat, n: nat, k: nat, i: nat,
                  alg: Algorithm, key: Buffer, nonce: Buffer, aad: Buffer, sealed: Sealed)
    requires SentApart(sent, c) && SealedIn(sent, k, i, alg, key, nonce, aad, sealed)
    requires SealedIn(sent, j, n, alg, key, nonce, aad, sealed)
    ensures j == k && n == i
  {
    hide SentApart, SealPlain, FrameHeader, SessionOf, ChunksOfSent;
    SentFacts(sent[j]);
    SentFacts(sent[k]);
    assert aad[..GLOBAL_HEADER_LENGTH] == SessionOf(sent[j]).header.bytes;
    assert aad[..GLOBAL_HEADER_LENGTH] == SessionOf(sent[k]).header.bytes;
    HeadersDiffer(sent, c, j, k);
    SealedOnce(SessionOf(sent[k]), ChunksOfSent(sent[k]), n, i, alg, key, nonce, aad, sealed);
  }

  lemma SentFrameOpens(sent: seq<Sent>, c: Crypto, k: nat, i: nat)
    requires SentApart(sent, c) && SealLengths(c) && k < |sent| && i <= |ChunksOfSent(sent[k])|
    ensures var chunks := ChunksOfSent(sent[k]);
      Opens(SessionOf(sent[k]).(crypto := Restricting(c, sent)), KindAt(chunks, i), i, PlaintextAt(chunks, i))
  {
    SwapSent(sent[k], c);
    var s, chunks := SessionOf(sent[k]), ChunksOfSent(sent[k]);
    hide SentApart, SessionOf, ChunksOfSent, OpenSent, FrameHeader, NonceFor;
    var kind, plaintext := KindAt(chunks, i), PlaintextAt(chunks, i);
    var aad := s.header.bytes + FrameHeader(kind, i, |plaintext|);
    var sealed := SealPlain(s, kind, i, plaintext);
    assert sealed == c.seal(s.header.algorithm, s.key, NonceFor(i), aad, plaintext);
    OpenSentFinds(sent, c, k, i, s.header.algorithm, s.key, NonceFor(i), aad, sealed);
  }

  lemma SwappedOpensMessage(sent: seq<Sent>, c: Crypto, k: nat)
    requires SentApart(sent, c) && SealLengths(c) && k < |sent|
    ensures var w := WithCrypto(sent, Restricting(c, sent))[k];
      SentOk(w) && OpensMessage(SessionOf(w), ChunksOfSent(w))
  {
    var restricted := Restricting(c, sent);
    SwapSent(sent[k], restricted);
    var s, chunks := SessionOf(sent[k]), ChunksOfSent(sent[k]);
    hide SentApart, SessionOf, ChunksOfSent, Restricting, Opens, SealLengths;
    forall i | 0 <= i < |chunks| ensures Opens(s.(crypto := restricted), DATA_FRAME, i, chunks[i]) {
      SentFrameOpens(sent, c, k, i);
    }
    SentFrameOpens(sent, c, k, |chunks|);
  }

  lemma SwappedApart(sent: seq<Sent>, c: Crypto, swapped: Crypto)
    requires SentApart(sent, c) && swapped.seal == c.seal && swapped.hkdf == c.hkdf
    ensures SentApart(WithCrypto(sent, swapped), swapped)
  {
    hide SentOk, SessionOf, ChunksOfSent;
    forall k | 0 <= k < |sent| { SwapSent(sent[k], swapped); }
  }

  lemma SwappedSealedIn(sent: seq<Sent>, c: Crypto, swapped: Crypto, k: nat, i: nat,
                        alg: Algorithm, key: Buffer, nonce: Buffer, aad: Buffer, sealed: Sealed)
    requires SentApart(sent, c) && swapped.seal == c.seal && swapped.hkdf == c.hkdf
    requires SealedIn(sent, k, i, alg, key, nonce, aad, sealed)
    ensures SealedIn(WithCrypto(sent, swapped), k, i, alg, key, nonce, aad, sealed)
  {
    SwapSent(sent[k], swapped);
    hide SentApart, SealedAs, SessionOf, ChunksOfSent;
    SealedSwapped(SessionOf(sent[k]), ChunksOfSent(sent[k]), i, swapped, alg, key, nonce, aad, sealed);
  }

  /**
   For any messages sealed under different headers there is an AEAD with the same sealing
   function that opens their frames and, whatever the key, nothing else.
   */
  lemma {:induction false} IdealForAllExists(sent: seq<Sent>, c: Crypto) returns (ideal: seq<Sent>, restricted: Crypto)
    requires SentApart(sent, c) && SealLengths(c)
    ensures restricted == c.(open := restricted.open) && SealLengths(restricted)
    ensures ideal == WithCrypto(sent, restricted) && SentApart(ideal, restricted)
    ensures forall key :: OnlySentOpens(ideal, restricted, key)
    ensures forall k | 0 <= k < |ideal| :: OpensMessage(SessionOf(ideal[k]), ChunksOfSent(ideal[k]))
  {
    restricted := Restricting(c, sent);
    ideal := WithCrypto(sent, restricted);
    SwappedApart(sent, c, restricted);
    hide SentApart, SealedIn, SessionOf, ChunksOfSent, OpensMessage, WithCrypto;
    forall k | 0 <= k < |ideal| ensures SentOk(ideal[k]) && OpensMessage(SessionOf(ideal[k]), ChunksOfSent(ideal[k])) {
      SwappedOpensMessage(sent, c, k);
    }
    forall alg, key, nonce, aad, sealed | restricted.open(alg, key, nonce, aad, sealed).Some?
      ensures exists k: nat, i: nat :: SealedIn(ideal, k, i, alg, key, nonce, aad, sealed)
    {
      var k: nat, i: nat :| SealedIn(sent, k, i, alg, key, nonce, aad, sealed);
      SwappedSealedIn(sent, c, restricted, k, i, alg, key, nonce, aad, sealed);
    }
  }
}
