/**
 What a framed input is that a PXAE reader accepts, whatever the AEAD: a header, data frames
 in order and a final frame, each of which opens under its own number, within the limits.
 The definition speaks of the whole input at once; the reader goes frame by frame.
 */
module VerifiedFrames {
  import opened Buffers
  import opened EncryptionFormat
  import opened EncryptionLaws
  import PacketLayout

  /** A frame by its contents: what was sealed and what it opens to. */
  datatype Part = Part(sealed: Sealed, plaintext: Buffer)

  /** The bytes of a frame: its type, its number, the length of its ciphertext, then ciphertext and tag. */
  function BytesOf(kind: byte, number: nat, sealed: Sealed): Buffer {
    [kind] + ToBigEndian(number, 8) + ToBigEndian(|sealed.ciphertext|, 4) + sealed.ciphertext + sealed.tag
  }

  /** The tag has sixteen bytes, and the AEAD opens the frame under its number and both headers. */
  predicate OpensAs(s: Session, kind: byte, number: nat, part: Part) {
    var frameHeader := [kind] + ToBigEndian(number, 8) + ToBigEndian(|part.sealed.ciphertext|, 4);
    && |part.sealed.tag| == 16
    && s.crypto.open(s.header.algorithm, s.key, [0, 0, 0, 0] + ToBigEndian(number, 8),
                     s.header.bytes + frameHeader, part.sealed) == Some(part.plaintext)
  }

  function Plaintexts(parts: seq<Part>): (p: seq<Buffer>)
    ensures |p| == |parts|
  {
    seq(|parts|, j requires 0 <= j < |parts| => parts[j].plaintext)
  }

  /** The data frames from `first` on, and the final frame. */
  function FramesOf(first: nat, parts: seq<Part>, last: Part): seq<Buffer> {
    seq(|parts|, j requires 0 <= j < |parts| => BytesOf(1, first + j, parts[j].sealed))
      + [BytesOf(2, first + |parts|, last.sealed)]
  }

  /** A data frame that opens, no larger than a frame may be, after frames that yielded `before` bytes. */
  predicate Fits(s: Session, number: nat, before: nat, part: Part) {
    && OpensAs(s, 1, number, part)
    && |part.sealed.ciphertext| <= Min(s.header.frameSizeBytes, s.limits.maxFrameBytes - 29)
    && before + |part.sealed.ciphertext| <= s.limits.maxOutputBytes
  }

  /**
   Data frames numbered from `first` and a final frame, after frames that already yielded
   `out` bytes: all of them open, none is larger than a frame may be, the data frames are not
   too many, and each fits what the output limit leaves; the final frame is empty.
   */
  ghost predicate Verified(s: Session, first: nat, out: nat, parts: seq<Part>, last: Part) {
    && (forall j | 0 <= j < |parts| :: Fits(s, first + j, out + |Flatten(Plaintexts(parts[..j]))|, parts[j]))
    && (parts != [] ==> first + |parts| <= s.limits.maxFrames)
    && OpensAs(s, 2, first + |parts|, last) && last.sealed.ciphertext == [] && s.limits.maxFrameBytes >= 29
  }

  // -------------------------------------------------------------------- one frame

  lemma HeaderIs(kind: byte, number: nat, n: nat)
    ensures FrameHeader(kind, number, n) == [kind] + ToBigEndian(number, 8) + ToBigEndian(n, 4)
    ensures NonceFor(number) == [0, 0, 0, 0] + ToBigEndian(number, 8)
  {
    hide ToBigEndian;
    assert Zeros(4) == [0, 0, 0, 0];
  }

  /** The bytes of a frame are its header, its ciphertext and its tag. */
  lemma FrameCut(b: Buffer, size: nat, n: nat)
    requires 13 + n <= size <= |b|
    ensures b[..size] == b[..13] + b[13..size][..n] + b[13..size][n..]
  {
  }

  /** A frame a reader takes, by its contents. */
  lemma TakenFrame(s: Session, p: Progress, b: Buffer) returns (part: Part)
    requires NextFrame(s, p, b).Frame?
    ensures var f := NextFrame(s, p, b);
      && f.plaintext == part.plaintext && (f.kind == 1 || f.kind == 2)
      && f.size <= |b| && b[..f.size] == BytesOf(f.kind, p.sequence, part.sealed)
      && OpensAs(s, f.kind, p.sequence, part) && (f.kind == 2 ==> part.sealed.ciphertext == [])
      && |part.sealed.ciphertext| <= Min(s.header.frameSizeBytes, s.limits.maxFrameBytes - 29)
      && (f.kind == 1 ==> p.dataFrames < s.limits.maxFrames)
      && (f.kind == 1 ==> p.plaintextBytes + |part.sealed.ciphertext| <= s.limits.maxOutputBytes)
  {
    var h, f := b[..FRAME_HEADER_LENGTH], NextFrame(s, p, b);
    var body, n := b[FRAME_HEADER_LENGTH..f.size], FrameBytes(h);
    FrameHeaderFromFields(h);
    HeaderIs(FrameKind(h), p.sequence, n);
    hide ToBigEndian, FrameHeader, NonceFor, FrameKind, FrameSequence, FrameBytes;
    FrameCut(b, f.size, n);
    part := Part(Sealed(body[..n], body[n..]), f.plaintext);
  }

  /** A frame that opens and is within the limits is taken. */
  lemma FrameTaken(s: Session, p: Progress, kind: byte, part: Part, others: Buffer)
    requires kind == 1 || kind == 2
    requires OpensAs(s, kind, p.sequence, part) && p.sequence < TWO_TO_THE_64
    requires |part.sealed.ciphertext| <= Min(s.header.frameSizeBytes, s.limits.maxFrameBytes - 29)
    requires s.header.frameSizeBytes < TWO_TO_THE_32 && (kind == 2 ==> part.sealed.ciphertext == [])
    requires kind == 1 ==> p.dataFrames < s.limits.maxFrames
    requires kind == 1 ==> p.plaintextBytes + |part.sealed.ciphertext| <= s.limits.maxOutputBytes
    ensures NextFrame(s, p, BytesOf(kind, p.sequence, part.sealed) + others)
         == Frame(|part.sealed.ciphertext| + 29, kind, part.plaintext)
    ensures |BytesOf(kind, p.sequence, part.sealed)| == |part.sealed.ciphertext| + 29
  {
    var n := |part.sealed.ciphertext|;
    var h, b := FrameHeader(kind, p.sequence, n), BytesOf(kind, p.sequence, part.sealed) + others;
    FrameHeaderFields(kind, p.sequence, n);
    HeaderIs(kind, p.sequence, n);
    hide ToBigEndian, FrameHeader, FrameKind, FrameSequence, FrameBytes, NonceFor;
    assert b == h + (part.sealed.ciphertext + (part.sealed.tag + others));
    assert b[..FRAME_HEADER_LENGTH] == h;
    var body := b[FRAME_HEADER_LENGTH..n + 29];
    assert body == part.sealed.ciphertext + part.sealed.tag;
    assert Sealed(body[..n], body[n..]) == part.sealed;
  }

  // ---------------------------------------------------------------------- all frames

  lemma PlaintextsCons(head: Part, parts: seq<Part>)
    ensures Plaintexts([head] + parts) == [head.plaintext] + Plaintexts(parts)
  {
  }

  lemma FramesCons(head: Part, parts: seq<Part>, last: Part, first: nat)
    ensures FramesOf(first, [head] + parts, last)
         == [BytesOf(1, first, head.sealed)] + FramesOf(first + 1, parts, last)
  {
    hide BytesOf;
    var all, n := [head] + parts, |parts|;
    var whole, rest := FramesOf(first, all, last), FramesOf(first + 1, parts, last);
    assert whole[0] == BytesOf(1, first, head.sealed);
    forall j | 0 <= j < |rest| ensures whole[j + 1] == rest[j] {
      if j < n { assert all[j + 1] == parts[j]; }
    }
  }

  lemma FrontCons(head: Part, parts: seq<Part>, j: nat)
    requires j <= |parts|
    ensures |Flatten(Plaintexts(([head] + parts)[..j + 1]))| == |head.plaintext| + |Flatten(Plaintexts(parts[..j]))|
  {
    hide Flatten;
    assert ([head] + parts)[..j + 1] == [head] + parts[..j];
    PlaintextsCons(head, parts[..j]);
    FlattenCons(head.plaintext, Plaintexts(parts[..j]));
  }

  lemma VerifiedCons(s: Session, first: nat, out: nat, head: Part, parts: seq<Part>, last: Part)
    ensures Verified(s, first, out, [head] + parts, last) <==>
      && Fits(s, first, out, head) && first + 1 <= s.limits.maxFrames
      && Verified(s, first + 1, out + |head.plaintext|, parts, last)
  {
    hide OpensAs, Fits, Flatten, Plaintexts;
    NoPlaintexts();
    FlattenNothing();
    if Verified(s, first, out, [head] + parts, last) { VerifiedTail(s, first, out, head, parts, last); }
    if Fits(s, first, out, head) && Verified(s, first + 1, out + |head.plaintext|, parts, last) {
      FitsAll(s, first, out, head, parts, last);
    }
  }

  lemma VerifiedTail(s: Session, first: nat, out: nat, head: Part, parts: seq<Part>, last: Part)
    requires Verified(s, first, out, [head] + parts, last)
    ensures Fits(s, first, out, head) && Verified(s, first + 1, out + |head.plaintext|, parts, last)
  {
    hide OpensAs, Fits, Flatten, Plaintexts;
    var all := [head] + parts;
    NoPlaintexts();
    FlattenNothing();
    assert all[..0] == [] && Fits(s, first + 0, out + |Flatten(Plaintexts(all[..0]))|, all[0]);
    forall j | 0 <= j < |parts|
      ensures Fits(s, first + 1 + j, out + |head.plaintext| + |Flatten(Plaintexts(parts[..j]))|, parts[j])
    {
      FrontCons(head, parts, j);
      assert Fits(s, first + (j + 1), out + |Flatten(Plaintexts(all[..j + 1]))|, all[j + 1]);
    }
  }

  lemma FitsAll(s: Session, first: nat, out: nat, head: Part, parts: seq<Part>, last: Part)
    requires Fits(s, first, out, head) && Verified(s, first + 1, out + |head.plaintext|, parts, last)
    ensures forall j | 0 <= j <= |parts| ::
      Fits(s, first + j, out + |Flatten(Plaintexts(([head] + parts)[..j]))|, ([head] + parts)[j])
  {
    hide OpensAs, Fits, Flatten, Plaintexts;
    var all := [head] + parts;
    NoPlaintexts();
    FlattenNothing();
    assert all[..0] == [];
    forall j | 0 <= j <= |parts| ensures Fits(s, first + j, out + |Flatten(Plaintexts(all[..j]))|, all[j]) {
      if j > 0 {
        FrontCons(head, parts, j - 1);
        var before := out + |head.plaintext| + |Flatten(Plaintexts(parts[..j - 1]))|;
        assert Fits(s, first + 1 + (j - 1), before, parts[j - 1]);
      }
    }
  }

  lemma NoPlaintexts()
    ensures Plaintexts([]) == []
  {
  }

  /** The frames of a walk that completes. */
  lemma {:induction false} WalkVerified(s: Session, p: Progress, b: Buffer) returns (parts: seq<Part>, last: Part)
    requires !p.finalSeen && p.sequence == p.dataFrames && Complete(Walk(s, p, b))
    ensures Verified(s, p.sequence, p.plaintextBytes, parts, last)
    ensures b == Flatten(FramesOf(p.sequence, parts, last)) && Walk(s, p, b).plaintexts == Plaintexts(parts)
    decreases |b|
  {
    hide Verified, OpensAs, NextFrame, FramesOf, BytesOf, Plaintexts, Flatten;
    var f := NextFrame(s, p, b);
    var part := TakenFrame(s, p, b);
    assert b == b[..f.size] + b[f.size..];
    WalkFrame(s, p, b);
    if f.kind == 2 {
      parts, last := [], part;
      LastVerified(s, p, last);
      assert b[f.size..] == [] && b == b[..f.size];
    } else {
      hide Walk;
      parts, last := WalkVerified(s, After(p, f), b[f.size..]);
      VerifiedCons(s, p.sequence, p.plaintextBytes, part, parts, last);
      PlaintextsCons(part, parts);
      FramesCons(part, parts, last, p.sequence);
      FlattenCons(BytesOf(1, p.sequence, part.sealed), FramesOf(p.sequence + 1, parts, last));
      parts := [part] + parts;
    }
  }

  lemma LastVerified(s: Session, p: Progress, last: Part)
    requires OpensAs(s, 2, p.sequence, last) && last.sealed.ciphertext == [] && s.limits.maxFrameBytes >= 29
    ensures Verified(s, p.sequence, p.plaintextBytes, [], last)
    ensures Flatten(FramesOf(p.sequence, [], last)) == BytesOf(2, p.sequence, last.sealed) && Plaintexts([]) == []
  {
    hide OpensAs, BytesOf;
    var frame := BytesOf(2, p.sequence, last.sealed);
    assert FramesOf(p.sequence, [], last) == [] + [frame];
    FlattenSnoc([], frame);
    assert [] + frame == frame;
  }

  /** Such frames are walked to the end. */
  lemma {:induction false} VerifiedWalks(s: Session, p: Progress, parts: seq<Part>, last: Part)
    requires !p.finalSeen && p.sequence == p.dataFrames <= s.limits.maxFrames
    requires s.header.frameSizeBytes < TWO_TO_THE_32
    requires Verified(s, p.sequence, p.plaintextBytes, parts, last)
    ensures var walked := Walk(s, p, Flatten(FramesOf(p.sequence, parts, last)));
      Complete(walked) && walked.plaintexts == Plaintexts(parts)
    decreases |parts|
  {
    hide OpensAs, NextFrame, FramesOf, BytesOf, Plaintexts, Flatten;
    if parts == [] {
      LastVerified(s, p, last);
      hide Verified;
      FrameTaken(s, p, 2, last, []);
      var b := BytesOf(2, p.sequence, last.sealed);
      assert b + [] == b;
      WalkFrame(s, p, b);
      assert b[29..] == [];
    } else {
      var head, others := parts[0], parts[1..];
      assert parts == [head] + others;
      hide Walk, Verified;
      VerifiedCons(s, p.sequence, p.plaintextBytes, head, others, last);
      PlaintextsCons(head, others);
      FramesCons(head, others, last, p.sequence);
      var frame, rest := BytesOf(1, p.sequence, head.sealed), Flatten(FramesOf(p.sequence + 1, others, last));
      FlattenCons(frame, FramesOf(p.sequence + 1, others, last));
      FrameTaken(s, p, 1, head, rest);
      var b := frame + rest;
      WalkFrame(s, p, b);
      assert b[|frame|..] == rest;
      VerifiedWalks(s, After(p, NextFrame(s, p, b)), others, last);
    }
  }

  // ---------------------------------------------------------------------- what is accepted

  /** The session of a framed input: the header's fields, and the key derived from the reader's. */
  lemma SessionOf(r: Reader, h: Buffer)
    ensures ReaderSession(r, h).Some? <==>
      && |h| == 28 && h[..4] == [0x50, 0x58, 0x41, 0x45] && h[4] == 1 && (h[5] == 1 || h[5] == 2)
      && BigEndian(h[6..8]) == 0 && 1 <= BigEndian(h[8..12]) <= r.limits.maxFrameBytes - 29
    ensures ReaderSession(r, h).Some? ==>
      ReaderSession(r, h).value == Session(
        r.crypto,
        Header(h, if h[5] == 1 then Aes256Gcm else ChaCha20Poly1305, BigEndian(h[8..12]), h[12..28]),
        r.crypto.hkdf(r.key, h[12..28],
          if h[5] == 1 then "PipeX AEAD framed v1:aes-256-gcm" else "PipeX AEAD framed v1:chacha20-poly1305"),
        r.limits.(maxInputBytes := Max(r.limits.maxInputBytes, r.limits.maxOutputBytes)))
  {
    hide BigEndian, ParseHeader, Info;
    PacketLayout.HeaderParses(h, LimitsFor(r.limits));
    PacketLayout.InfoIs(Aes256Gcm);
    PacketLayout.InfoIs(ChaCha20Poly1305);
  }

  lemma FrameSizeFits(r: Reader, h: Buffer)
    requires ReaderSession(r, h).Some?
    ensures ReaderSession(r, h).value.header.frameSizeBytes < TWO_TO_THE_32
  {
    SessionOf(r, h);
    hide ReaderSession, BigEndian;
    Widths();
    WriteRead(h[8..12]);
  }

  /** Accepted framed inputs, whatever the AEAD: a header and frames that all verify, and nothing else. */
  lemma AcceptsExactly(r: Reader, x: Buffer)
    ensures DecryptedFrames(r, x).Some? <==>
      && |x| >= 28 && ReaderSession(r, x[..28]).Some?
      && exists parts, last ::
        Verified(ReaderSession(r, x[..28]).value, 0, 0, parts, last) && x[28..] == Flatten(FramesOf(0, parts, last))
    ensures |x| >= 28 && ReaderSession(r, x[..28]).Some? ==>
      forall parts, last |
        Verified(ReaderSession(r, x[..28]).value, 0, 0, parts, last) && x[28..] == Flatten(FramesOf(0, parts, last)) ::
        DecryptedFrames(r, x) == Some(Plaintexts(parts))
  {
    hide ReaderSession, Walk, Complete, Verified, FramesOf, Plaintexts, Flatten;
    if |x| >= 28 && ReaderSession(r, x[..28]).Some? {
      var s := ReaderSession(r, x[..28]).value;
      FrameSizeFits(r, x[..28]);
      if DecryptedFrames(r, x).Some? { var parts, last := WalkVerified(s, START, x[28..]); }
      forall parts, last | Verified(s, 0, 0, parts, last) && x[28..] == Flatten(FramesOf(0, parts, last))
        ensures DecryptedFrames(r, x) == Some(Plaintexts(parts))
      {
        VerifiedWalks(s, START, parts, last);
      }
    }
  }

  /**
   What a reader makes of any input: nothing without a key of 32 bytes or beyond its input
   limit; a framed input is its frames' plaintexts, joined; any other is a legacy message,
   read where allowed and within the output limit.
   */
  lemma ReadsAs(r: Reader, legacyAllowed: bool, x: Buffer)
    ensures Decrypted(r, legacyAllowed, x) ==
      if |r.key| != 32 || |x| > Max(r.limits.maxInputBytes, r.limits.maxOutputBytes) then None
      else if x != [] && x[0] == 0x50 then
        if DecryptedFrames(r, x).Some? then Some(Flatten(DecryptedFrames(r, x).value)) else None
      else if !legacyAllowed || |x| < 29 || |x| - 29 > r.limits.maxOutputBytes || (x[0] != 1 && x[0] != 2) then None
      else
        r.crypto.open(if x[0] == 1 then Aes256Gcm else ChaCha20Poly1305, r.key, x[1..13], [],
                      Sealed(x[29..], x[13..29]))
  {
    hide DecryptedFrames, Flatten;
  }
}
