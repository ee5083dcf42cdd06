/**
 The assumptions about the AEAD can be met. The laws hold of a cipher that hides nothing,
 and whatever the sealing function, there is an AEAD with it that opens the frames of one
 message and nothing else.
 */
module IdealAead {
  import opened Buffers
  import opened EncryptionFormat
  import opened EncryptionLaws

  /** An AEAD in form only: the ciphertext is the plaintext and the tag is zero. */
  function PlainCrypto(): Crypto {
    Crypto((key: Buffer, salt: Buffer, info: string) => key,
           (alg: Algorithm, key: Buffer, nonce: Buffer, aad: Buffer, plaintext: Buffer) => Sealed(plaintext, Zeros(16)),
           (alg: Algorithm, key: Buffer, nonce: Buffer, aad: Buffer, sealed: Sealed) =>
             if sealed.tag == Zeros(16) then Some(sealed.ciphertext) else None)
  }

  lemma LawsCanBeMet()
    ensures SealLengths(PlainCrypto()) && OpensSealed(PlainCrypto())
  {
  }

  /** Opens the tuple when it is one of the frames from i on. */
  function Search(s: Session, chunks: seq<Buffer>, i: nat,
                  alg: Algorithm, key: Buffer, nonce: Buffer, aad: Buffer, sealed: Sealed): (r: Option<Buffer>)
    ensures r.Some? ==> exists k :: SealedAs(s, chunks, k, alg, key, nonce, aad, sealed)
    decreases |chunks| + 1 - i
  {
    if i > |chunks| then None
    else if SealedAs(s, chunks, i, alg, key, nonce, aad, sealed) then Some(PlaintextAt(chunks, i))
    else Search(s, chunks, i + 1, alg, key, nonce, aad, sealed)
  }

  /** The AEAD of a session, restricted to one message. */
  function Restricted(s: Session, chunks: seq<Buffer>): Crypto {
    s.crypto.(open := (alg: Algorithm, key: Buffer, nonce: Buffer, aad: Buffer, sealed: Sealed) =>
      Search(s, chunks, 0, alg, key, nonce, aad, sealed))
  }

  /** A tuple is a frame of the message at most once: its nonce tells which. */
  lemma SealedOnce(s: Session, chunks: seq<Buffer>, i: nat, k: nat,
                   alg: Algorithm, key: Buffer, nonce: Buffer, aad: Buffer, sealed: Sealed)
    requires i < TWO_TO_THE_64 && k < TWO_TO_THE_64
    requires SealedAs(s, chunks, i, alg, key, nonce, aad, sealed)
    requires SealedAs(s, chunks, k, alg, key, nonce, aad, sealed)
    ensures i == k
  {
    hide SealPlain, FrameHeader;
    NoncesDistinct(i, k);
  }

  lemma {:induction false} SearchFinds(s: Session, chunks: seq<Buffer>, i: nat, k: nat,
                                       alg: Algorithm, key: Buffer, nonce: Buffer, aad: Buffer, sealed: Sealed)
    requires i <= k <= |chunks| < TWO_TO_THE_64
    requires SealedAs(s, chunks, k, alg, key, nonce, aad, sealed)
    ensures Search(s, chunks, i, alg, key, nonce, aad, sealed) == Some(PlaintextAt(chunks, k))
    decreases k - i
  {
    hide SealedAs, PlaintextAt;
    if SealedAs(s, chunks, i, alg, key, nonce, aad, sealed) {
      SealedOnce(s, chunks, i, k, alg, key, nonce, aad, sealed);
    } else {
      SearchFinds(s, chunks, i + 1, k, alg, key, nonce, aad, sealed);
    }
  }

  lemma RestrictedOpens(s: Session, chunks: seq<Buffer>, i: nat)
    requires SealLengths(s.crypto) && i <= |chunks| < TWO_TO_THE_64
    ensures Opens(s.(crypto := Restricted(s, chunks)), KindAt(chunks, i), i, PlaintextAt(chunks, i))
  {
    hide Search;
    var kind, plaintext := KindAt(chunks, i), PlaintextAt(chunks, i);
    var sealed := SealPlain(s, kind, i, plaintext);
    var aad := s.header.bytes + FrameHeader(kind, i, |plaintext|);
    assert sealed == s.crypto.seal(s.header.algorithm, s.key, NonceFor(i), aad, plaintext);
    assert SealedAs(s, chunks, i, s.header.algorithm, s.key, NonceFor(i), aad, sealed);
    SearchFinds(s, chunks, 0, i, s.header.algorithm, s.key, NonceFor(i), aad, sealed);
  }

  lemma {:induction false} RestrictedIsIdeal(s: Session, chunks: seq<Buffer>)
    requires SealLengths(s.crypto) && |chunks| < TWO_TO_THE_64
    ensures var t := s.(crypto := Restricted(s, chunks));
      SealLengths(t.crypto) && OpensMessage(t, chunks) && OnlyMessageOpens(t, chunks)
  {
    var t := s.(crypto := Restricted(s, chunks));
    assert SealLengths(t.crypto) by {
      assert t.crypto.seal == s.crypto.seal;
    }
    hide SealLengths, Search, Opens;
    forall i | 0 <= i < |chunks| ensures Opens(t, DATA_FRAME, i, chunks[i]) { RestrictedOpens(s, chunks, i); }
    RestrictedOpens(s, chunks, |chunks|);
    forall alg, key, nonce, aad, sealed | t.crypto.open(alg, key, nonce, aad, sealed).Some?
      ensures exists i :: SealedAs(t, chunks, i, alg, key, nonce, aad, sealed)
    {
      var i :| SealedAs(s, chunks, i, alg, key, nonce, aad, sealed);
      var kind, plaintext := KindAt(chunks, i), PlaintextAt(chunks, i);
      assert SealPlain(t, kind, i, plaintext) == SealPlain(s, kind, i, plaintext);
      assert SealedAs(t, chunks, i, alg, key, nonce, aad, sealed);
    }
  }

  /** The session does not depend on what opens. */
  lemma SwapOpen(w: Writer, data: Buffer, swapped: Crypto)
    requires WriterOk(w) && Encrypted(w, data).Some?
    requires swapped.seal == w.crypto.seal && swapped.hkdf == w.crypto.hkdf
    ensures WriterSession(w).Some? && WriterSession(w).value.crypto == w.crypto
    ensures WriterSession(w.(crypto := swapped)) == Some(WriterSession(w).value.(crypto := swapped))
    ensures Encrypted(w.(crypto := swapped), data).Some?
  {
    hide BuildHeader, Packet, WithinWriterLimits;
    WriterAdmits(w, data);
    WriterSessionIs(w);
    var s := WriterSession(w).value;
    HeaderRoundTrip(w.algorithm, s.header.frameSizeBytes, w.salt, LimitsFor(w.limits));
  }

  /** For every message that encrypts there is such an AEAD with the same sealing function. */
  lemma {:induction false} IdealAeadExists(w: Writer, data: Buffer) returns (ideal: Writer)
    requires WriterOk(w) && Encrypted(w, data).Some? && SealLengths(w.crypto)
    ensures ideal == w.(crypto := ideal.crypto) && ideal.crypto.seal == w.crypto.seal
    ensures WriterOk(ideal) && Encrypted(ideal, data).Some? && SealLengths(ideal.crypto)
    ensures var s := WriterSession(ideal).value;
      && s.header.frameSizeBytes > 0
      && OpensMessage(s, Chunks(data, s.header.frameSizeBytes))
      && OnlyMessageOpens(s, Chunks(data, s.header.frameSizeBytes))
  {
    WriterAdmits(w, data);
    hide WriterSession, Encrypted, Chunks, OpensMessage, OnlyMessageOpens, SealLengths;
    var s := WriterSession(w).value;
    var chunks := Chunks(data, s.header.frameSizeBytes);
    ideal := w.(crypto := Restricted(s, chunks));
    assert s.crypto == w.crypto by { SwapOpen(w, data, w.crypto); }
    SwapOpen(w, data, ideal.crypto);
    hide Restricted;
    ChunksMakeData(data, s.header.frameSizeBytes);
    RestrictedIsIdeal(s, chunks);
  }
}
