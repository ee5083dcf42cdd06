/**
 The scanner recognises exactly the concatenations of legal frames, and refuses
 a prefix only when nothing could complete it.
 */
module FrameRecognition {
  import opened Buffers
  import opened MessagePackGrammar
  import opened ScannerMachine

  /** A top-level frame: one value within the byte limit. */
  ghost predicate IsFrame(f: Buffer, lim: Limits) {
    IsValue(f) && |f| <= lim.maxFrameBytes
  }

  ghost predicate Framing(frames: seq<Buffer>, lim: Limits) {
    && |frames| <= lim.maxFrames
    && forall f | f in frames :: IsFrame(f, lim)
  }

  /** `s` is cut into legal frames. */
  ghost predicate FramingOf(frames: seq<Buffer>, lim: Limits, s: Buffer) {
    Framing(frames, lim) && Flatten(frames) == s
  }

  /** The cumulative ends of the frames. */
  function Ends(frames: seq<Buffer>): (ends: seq<nat>)
    ensures |ends| == |frames|
  {
    if frames == [] then [] else Ends(frames[..|frames| - 1]) + [|Flatten(frames)|]
  }

  lemma EndsSnoc(frames: seq<Buffer>, f: Buffer)
    ensures Ends(frames + [f]) == Ends(frames) + [|Flatten(frames)| + |f|]
  {
    FlattenSnoc(frames, f);
    hide Flatten;
    var all := frames + [f];
    assert all[..|all| - 1] == frames;
    assert Ends(all) == Ends(all[..|all| - 1]) + [|Flatten(all)|];
  }

  // ------------------------------------------------------- legal frames are accepted

  lemma ScanFirst(st: State, lim: Limits, s: Buffer)
    requires s != [] && Step(st, lim, s[0]).Some?
    ensures ScanBytes(st, lim, s) == Continue(
      Scanned(Step(st, lim, s[0]).value, if Closes(st, lim, s[0]) then [1] else []), 1,
      ScanBytes(Step(st, lim, s[0]).value, lim, s[1..]))
  {
    hide Step, Closes;
    var b := s[0];
    assert s == [b] + s[1..];
    ScanConcat(st, lim, [b], s[1..]);
    assert [b][..0] == [];
    assert ScanBytes(st, lim, [b]) == Append(Scanned(st, []), lim, b, 0);
    assert [] + (if Closes(st, lim, b) then [1] else []) == (if Closes(st, lim, b) then [1] else []);
  }

  /** What BoundedFits and the invariant say of the first byte of a completion. */
  lemma CompletionStarts(st: State, lim: Limits, f: Buffer)
    requires Inv(st, lim) && Fits(st, lim, f) && st.frames < lim.maxFrames
    ensures f != [] && Step(st, lim, f[0]).Some?
    ensures Closes(st, lim, f[0]) ==> |f| == 1 && Step(st, lim, f[0]).value == Fresh(st.frames + 1)
    ensures !Closes(st, lim, f[0]) ==>
      var next := Step(st, lim, f[0]).value;
      Inv(next, lim) && Fits(next, lim, f[1..]) && next.frames == st.frames
  {
    NothingLacksOnlyWhenReady(st, lim);
    BoundedFits(st, lim, f);
    var next := Bounded(st, lim, f[0]).value;
    assert next.frames == st.frames;
    if Ready(next) {
      ReadyRest(next, f[1..]);
    } else {
      StepKeepsInv(st, lim, f[0]);
    }
  }

  /** Bytes that complete the current frame within the budget are accepted and close it. */
  lemma {:induction false} CompletionScans(st: State, lim: Limits, f: Buffer)
    requires Inv(st, lim) && Fits(st, lim, f) && st.frames < lim.maxFrames
    ensures ScanBytes(st, lim, f) == Some(Scanned(Fresh(st.frames + 1), [|f|]))
    decreases |f|
  {
    hide Inv, Fits, Step, Closes;
    CompletionStarts(st, lim, f);
    ScanFirst(st, lim, f);
    if Closes(st, lim, f[0]) {
      assert f[1..] == [];
      assert [1] + Shift([], 1) == [|f|];
    } else {
      CompletionScans(Step(st, lim, f[0]).value, lim, f[1..]);
      assert [] + Shift([|f[1..]|], 1) == [|f|];
    }
  }

  /** A sequence of legal frames is accepted, and its boundaries are the cumulative frame ends. */
  lemma {:induction false} FramesScan(frames: seq<Buffer>, lim: Limits)
    requires Framing(frames, lim)
    ensures ScanBytes(Fresh(0), lim, Flatten(frames)) == Some(Scanned(Fresh(|frames|), Ends(frames)))
  {
    hide Append, IsFrame;
    if frames == [] {
      assert ScanBytes(Fresh(0), lim, []) == Some(Scanned(Fresh(0), []));
    } else {
      hide ScanBytes;
      var front, f := frames[..|frames| - 1], frames[|frames| - 1];
      assert frames == front + [f];
      assert IsFrame(f, lim) && Framing(front, lim);
      hide Framing;
      FramesScan(front, lim);
      FrameScans(|front|, lim, f);
      FlattenSnoc(front, f);
      EndsSnoc(front, f);
      hide Flatten, Ends;
      ScanConcat(Fresh(0), lim, Flatten(front), f);
      assert Shift([|f|], |Flatten(front)|) == [|Flatten(front)| + |f|];
    }
  }

  lemma FrameScans(frames: nat, lim: Limits, f: Buffer)
    requires IsFrame(f, lim) && frames < lim.maxFrames
    ensures ScanBytes(Fresh(frames), lim, f) == Some(Scanned(Fresh(frames + 1), [|f|]))
  {
    FreshRest(frames, f);
    hide Rest, IsValue, ScanBytes;
    CompletionScans(Fresh(frames), lim, f);
  }

  // --------------------------------------------------- accepted input is legal frames

  /** What a scan of `s` from the start knows: the frames found and the bytes of the next one. */
  ghost predicate Explains(s: Buffer, lim: Limits, r: Scanned, frames: seq<Buffer>, partial: Buffer) {
    && s == Flatten(frames) + partial
    && Framing(frames, lim)
    && r.boundaries == Ends(frames)
    && r.state.frames == |frames|
    && r.state.frameBytes == |partial|
    && forall t :: Rest(r.state, t) <==> IsValue(partial + t)
  }

  lemma AdvanceCounts(st: State, b: byte)
    requires Advance(st, b).Some?
    ensures Advance(st, b).value.frames == st.frames
    ensures Advance(st, b).value.frameBytes == st.frameBytes + 1
  {
  }

  lemma RestAfterByte(st: State, lim: Limits, partial: Buffer, b: byte)
    requires Inv(st, lim) && Advance(st, b).Some?
    requires forall t :: Rest(st, t) <==> IsValue(partial + t)
    ensures forall t :: Rest(Advance(st, b).value, t) <==> IsValue(partial + [b] + t)
  {
    hide Advance, Rest, IsValue, Inv;
    forall t
      ensures Rest(Advance(st, b).value, t) <==> IsValue(partial + [b] + t)
    {
      AdvanceRest(st, lim, [b] + t);
      assert ([b] + t)[1..] == t;
      assert Rest(st, [b] + t) <==> IsValue(partial + ([b] + t));
      assert partial + ([b] + t) == partial + [b] + t;
    }
  }

  lemma NothingOfNextFrame(frames: nat)
    ensures forall t :: Rest(Fresh(frames), t) <==> IsValue([] + t)
  {
    hide Rest, IsValue;
    forall t ensures Rest(Fresh(frames), t) <==> IsValue([] + t) {
      FreshRest(frames, t);
      assert [] + t == t;
    }
  }

  lemma ExplainByte(s: Buffer, lim: Limits, r: Scanned, frames: seq<Buffer>, partial: Buffer, b: byte)
    returns (frames': seq<Buffer>, partial': Buffer)
    requires Explains(s, lim, r, frames, partial) && Inv(r.state, lim)
    requires Append(r, lim, b, |s|).Some?
    ensures Explains(s + [b], lim, Append(r, lim, b, |s|).value, frames', partial')
  {
    hide Advance, Rest, IsValue, Inv;
    var next := Advance(r.state, b).value;
    AdvanceCounts(r.state, b);
    RestAfterByte(r.state, lim, partial, b);
    if Ready(next) {
      var f := partial + [b];
      ReadyRest(next, []);
      assert f + [] == f;
      frames', partial' := frames + [f], [];
      FlattenSnoc(frames, f);
      EndsSnoc(frames, f);
      NothingOfNextFrame(|frames'|);
    } else {
      frames', partial' := frames, partial + [b];
    }
  }

  lemma {:induction false} ScanExplained(lim: Limits, s: Buffer) returns (frames: seq<Buffer>, partial: Buffer)
    requires ScanBytes(Fresh(0), lim, s).Some?
    ensures Explains(s, lim, ScanBytes(Fresh(0), lim, s).value, frames, partial)
    decreases |s|
  {
    hide Advance, Rest, IsValue, Inv;
    if s == [] {
      frames, partial := [], [];
      NothingOfNextFrame(0);
    } else {
      var front := s[..|s| - 1];
      frames, partial := ScanExplained(lim, front);
      ScanKeepsInv(Fresh(0), lim, front);
      frames, partial := ExplainByte(front, lim, ScanBytes(Fresh(0), lim, front).value, frames, partial, s[|s| - 1]);
      assert front + [s[|s| - 1]] == s;
    }
  }

  // ------------------------------------------------------------------- main results

  /** scan over the whole input and then finish succeed. */
  predicate Accepts(lim: Limits, s: Buffer) {
    ScanBytes(Fresh(0), lim, s).Some? && Clean(ScanBytes(Fresh(0), lim, s).value.state)
  }

  /** Accepted inputs are exactly the concatenations of at most maxFrames legal frames. */
  lemma ExactRecognition(lim: Limits, s: Buffer)
    ensures Accepts(lim, s) <==> exists frames :: FramingOf(frames, lim, s)
    ensures Accepts(lim, s) <==> exists frames: seq<Buffer> ::
      && Flatten(frames) == s && |frames| <= lim.maxFrames
      && forall f | f in frames :: IsValue(f) && |f| <= lim.maxFrameBytes
  {
    hide ScanBytes, Inv, Flatten, IsValue;
    if Accepts(lim, s) {
      var frames, partial := ScanExplained(lim, s);
      assert Flatten(frames) + [] == Flatten(frames);
      assert FramingOf(frames, lim, s);
    }
    forall frames: seq<Buffer> |
      && Flatten(frames) == s && |frames| <= lim.maxFrames
      && forall f | f in frames :: IsValue(f) && |f| <= lim.maxFrameBytes
      ensures FramingOf(frames, lim, s)
    {
      assert forall f | f in frames :: IsFrame(f, lim);
    }
    if frames :| FramingOf(frames, lim, s) {
      assert forall f | f in frames :: IsFrame(f, lim);
      FramesScan(frames, lim);
    }
  }

  lemma {:induction false} EndsDetermineFrames(a: seq<Buffer>, b: seq<Buffer>)
    requires Ends(a) == Ends(b) && Flatten(a) == Flatten(b)
    ensures a == b
    decreases |a|
  {
    assert |Ends(a)| == |a| && |Ends(b)| == |b|;
    hide Flatten, Ends;
    if a != [] {
      var n := |a| - 1;
      assert a == a[..n] + [a[n]] && b == b[..n] + [b[n]];
      EndsSnoc(a[..n], a[n]);
      EndsSnoc(b[..n], b[n]);
      FlattenSnoc(a[..n], a[n]);
      FlattenSnoc(b[..n], b[n]);
      assert Ends(a)[..n] == Ends(a[..n]) && Ends(b)[..n] == Ends(b[..n]);
      EndsBeforeLast(a[..n]);
      EndsBeforeLast(b[..n]);
      var cut := |Flatten(a[..n])|;
      assert Flatten(a)[..cut] == Flatten(a[..n]) && Flatten(b)[..cut] == Flatten(b[..n]);
      assert Flatten(a)[cut..] == a[n] && Flatten(b)[cut..] == b[n];
      EndsDetermineFrames(a[..n], b[..n]);
    }
  }

  lemma EndsBeforeLast(a: seq<Buffer>)
    ensures a != [] ==> Ends(a)[|a| - 1] == |Flatten(a)|
  {
  }

  /** A byte string is cut into legal frames in at most one way: values are a prefix code. */
  lemma UniqueFraming(lim: Limits, a: seq<Buffer>, b: seq<Buffer>)
    requires Framing(a, lim) && Framing(b, lim) && Flatten(a) == Flatten(b)
    ensures a == b
  {
    FramesScan(a, lim);
    FramesScan(b, lim);
    EndsDetermineFrames(a, b);
  }

  // --------------------------------------------------------------- early rejection

  function Nils(n: nat): Buffer { seq(n, _ => 0xc0) }

  lemma {:induction false} NilsAreFlat(n: nat)
    ensures Flat(n, Nils(n))
  {
    if n > 0 {
      NilsAreFlat(n - 1);
      assert Nils(n)[0] == 0xc0 && Nils(n)[1..] == Nils(n - 1);
    }
  }

  /** What a length header of `kind` announcing `n` adds to a frame at least. */
  function AnnouncedBytes(kind: Kind, n: nat): nat {
    match kind
    case ArrayKind => n
    case MapKind => 2 * n
    case PayloadKind => n
    case ExtensionKind => n + 1
  }

  /** The fewest bytes the current frame can have: the digits missing from an open length header are taken as zero. */
  function LeastBytes(st: State): nat {
    var known := st.frameBytes + st.payloadBytes + st.remainingValues;
    match st.pending
    case None => known
    case Some(p) =>
      var digits := Max(0, p.bytes - p.read);
      known + digits + AnnouncedBytes(p.kind, p.value * Pow256(digits))
  }

  lemma {:induction false} ZeroDigits(value: nat, n: nat)
    ensures Accumulate(value, Zeros(n)) == value * Pow256(n)
    decreases n
  {
    if n > 0 {
      assert Zeros(n)[1..] == Zeros(n - 1);
      ZeroDigits(value * 256, n - 1);
      Regroup(value, Pow256(n - 1));
    }
  }

  lemma Regroup(a: nat, p: nat)
    ensures a * 256 * p == a * (256 * p)
  {
  }

  lemma {:induction false} DigitsAtLeast(value: nat, s: Buffer)
    ensures Accumulate(value, s) >= value * Pow256(|s|)
    decreases |s|
  {
    if s != [] {
      DigitsAtLeast(value * 256 + s[0], s[1..]);
      Regroup(value, Pow256(|s| - 1));
      assert (value * 256 + s[0]) * Pow256(|s| - 1) == value * 256 * Pow256(|s| - 1) + s[0] * Pow256(|s| - 1);
    }
  }

  lemma AnnouncedLength(values: nat, kind: Kind, n: nat, s: Buffer)
    requires Announced(values, kind, n, s)
    ensures |s| >= values + AnnouncedBytes(kind, n)
  {
    match kind
    case ArrayKind => FlatLength(values + n, s);
    case MapKind => FlatLength(values + 2 * n, s);
    case PayloadKind => OwedLength(values, n, false, s);
    case ExtensionKind => OwedLength(values, n + 1, true, s);
  }

  /** No completion of the current frame is shorter. */
  lemma CompletionLength(st: State, lim: Limits, t: Buffer)
    requires Inv(st, lim) && Rest(st, t)
    ensures st.frameBytes + |t| >= LeastBytes(st)
  {
    hide Announced, Owed, Accumulate, Pow256;
    match st.pending
    case None => OwedLength(st.remainingValues, st.payloadBytes, st.extensionTypePending, t);
    case Some(p) =>
      var digits := p.bytes - p.read;
      DigitsAtLeast(p.value, t[..digits]);
      AnnouncedLength(st.remainingValues, p.kind, Accumulate(p.value, t[..digits]), t[digits..]);
  }

  /** The payload and the values of a shortest completion. */
  function Filler(values: nat, payload: nat): Buffer { Zeros(payload) + Nils(values) }

  lemma FillerIsOwed(values: nat, payload: nat, typed: bool)
    ensures Owed(values, payload, typed, Filler(values, payload)) && |Filler(values, payload)| == payload + values
  {
    NilsAreFlat(values);
    assert Filler(values, payload)[payload..] == Nils(values);
  }

  lemma AnnouncedFiller(values: nat, kind: Kind, n: nat) returns (t: Buffer)
    ensures Announced(values, kind, n, t) && |t| == values + AnnouncedBytes(kind, n)
  {
    hide Owed, Flat, Filler;
    match kind
    case ArrayKind => NilsAreFlat(values + n); t := Nils(values + n);
    case MapKind => NilsAreFlat(values + 2 * n); t := Nils(values + 2 * n);
    case PayloadKind => FillerIsOwed(values, n, false); t := Filler(values, n);
    case ExtensionKind => FillerIsOwed(values, n + 1, true); t := Filler(values, n + 1);
  }

  /** There is a completion of that length. */
  lemma ShortestCompletion(st: State, lim: Limits) returns (t: Buffer)
    requires Inv(st, lim)
    ensures Rest(st, t) && st.frameBytes + |t| == LeastBytes(st)
  {
    hide Announced, Owed, Accumulate, Pow256, Filler;
    match st.pending
    case None =>
      FillerIsOwed(st.remainingValues, st.payloadBytes, st.extensionTypePending);
      t := Filler(st.remainingValues, st.payloadBytes);
    case Some(p) =>
      var digits := p.bytes - p.read;
      ZeroDigits(p.value, digits);
      var others := AnnouncedFiller(st.remainingValues, p.kind, p.value * Pow256(digits));
      t := Zeros(digits) + others;
      assert t[..digits] == Zeros(digits) && t[digits..] == others;
  }

  lemma FirstStepAccepted(st: State, lim: Limits, t: Buffer)
    requires t != [] && ScanBytes(st, lim, t).Some?
    ensures Step(st, lim, t[0]).Some?
  {
    hide Step, Closes;
    assert t == [t[0]] + t[1..];
    ScanConcat(st, lim, [t[0]], t[1..]);
    assert [t[0]][..0] == [];
  }

  /** The first byte of such bytes: it ends the frame, or the rest leads on to the clean state. */
  lemma OneByteMore(st: State, lim: Limits, t: Buffer) returns (next: State)
    requires Inv(st, lim) && !Clean(st)
    requires ScanBytes(st, lim, t).Some? && Clean(ScanBytes(st, lim, t).value.state)
    ensures t != [] && Bounded(st, lim, t[0]) == Some(next)
    ensures 0 < next.frameBytes <= lim.maxFrameBytes && next.frames == st.frames
    ensures if Ready(next) then st.frames < lim.maxFrames else
      Inv(next, lim) && !Clean(next) && ScanBytes(next, lim, t[1..]).Some?
      && Clean(ScanBytes(next, lim, t[1..]).value.state)
  {
    hide Inv, ScanBytes, Closes, Step, Bounded, Ready;
    NothingMoves(st, lim);
    FirstStepAccepted(st, lim, t);
    StepKeepsInv(st, lim, t[0]);
    ScanFirst(st, lim, t);
    next := StepIs(st, lim, t[0]);
  }

  lemma NothingMoves(st: State, lim: Limits)
    ensures ScanBytes(st, lim, []) == Some(Scanned(st, []))
  {
  }

  /** A step taken: counted, and on to the next frame when this one is complete. */
  lemma StepIs(st: State, lim: Limits, b: byte) returns (next: State)
    requires Step(st, lim, b).Some?
    ensures Bounded(st, lim, b) == Some(next)
    ensures 0 < next.frameBytes <= lim.maxFrameBytes && next.frames == st.frames
    ensures if Ready(next) then st.frames < lim.maxFrames else Step(st, lim, b) == Some(next)
  {
    hide Ready;
    next := Bounded(st, lim, b).value;
  }

  /** Bytes that lead from an open frame to a clean state start with a completion of that frame. */
  lemma {:induction false} ClosesLater(st: State, lim: Limits, t: Buffer) returns (k: nat)
    requires Inv(st, lim) && !Clean(st)
    requires ScanBytes(st, lim, t).Some? && Clean(ScanBytes(st, lim, t).value.state)
    ensures k <= |t| && Fits(st, lim, t[..k]) && st.frames < lim.maxFrames
    decreases |t|
  {
    hide Fits, Inv, ScanBytes, Bounded, Clean, Ready;
    var next := OneByteMore(st, lim, t);
    if Ready(next) {
      k := 1;
      assert t[..1][1..] == [];
      FitsWhenReady(next, lim);
      BoundedFits(st, lim, t[..1]);
    } else {
      k := ClosesLater(next, lim, t[1..]);
      assert t[..k + 1][1..] == t[1..][..k];
      BoundedFits(st, lim, t[..k + 1]);
      k := k + 1;
    }
  }

  lemma FitsWhenReady(st: State, lim: Limits)
    requires Ready(st) && st.frameBytes <= lim.maxFrameBytes
    ensures Fits(st, lim, [])
  {
    ReadyRest(st, []);
  }

  /** Decided by the scanner's own counters: the accepted prefix can still become an accepted input. */
  predicate Completable(st: State, lim: Limits) {
    Clean(st) || (st.frames < lim.maxFrames && LeastBytes(st) <= lim.maxFrameBytes)
  }

  /**
   An accepted prefix has an accepted completion if and only if no frame is open, or one
   more frame is allowed and the open frame can still end within the byte limit.
   */
  lemma ViablePrefix(lim: Limits, s: Buffer)
    requires ScanBytes(Fresh(0), lim, s).Some?
    ensures Completable(ScanBytes(Fresh(0), lim, s).value.state, lim) <==> exists t :: Accepts(lim, s + t)
  {
    var st := ScanBytes(Fresh(0), lim, s).value.state;
    ScanKeepsInv(Fresh(0), lim, s);
    if Completable(st, lim) {
      var t := Completes(lim, s);
      assert Accepts(lim, s + t);
    }
    if t :| Accepts(lim, s + t) {
      if !Clean(st) {
        ScanConcat(Fresh(0), lim, s, t);
        hide ScanBytes, Inv, LeastBytes;
        var k := ClosesLater(st, lim, t);
        CompletionLength(st, lim, t[..k]);
      }
    }
  }

  lemma Completes(lim: Limits, s: Buffer) returns (t: Buffer)
    requires ScanBytes(Fresh(0), lim, s).Some?
    requires Completable(ScanBytes(Fresh(0), lim, s).value.state, lim)
    ensures Accepts(lim, s + t)
  {
    hide Inv, LeastBytes;
    var st := ScanBytes(Fresh(0), lim, s).value.state;
    if Clean(st) {
      t := [];
      assert s + [] == s;
    } else {
      ScanKeepsInv(Fresh(0), lim, s);
      t := ShortestCompletion(st, lim);
      CompletionScans(st, lim, t);
      ScanConcat(Fresh(0), lim, s, t);
    }
  }

  /** Outside an open length header the byte limit is never the obstacle: the budget is reserved. */
  lemma ReservationIsEnough(lim: Limits, s: Buffer)
    requires lim.maxFrameBytes >= 1 && ScanBytes(Fresh(0), lim, s).Some?
    requires var st := ScanBytes(Fresh(0), lim, s).value.state;
      st.pending.None? && (Clean(st) || st.frames < lim.maxFrames)
    ensures exists t :: Accepts(lim, s + t)
  {
    hide ScanBytes;
    ReservationHolds(lim, s);
    ViablePrefix(lim, s);
  }

  /** A refused prefix is never the start of an accepted input. */
  lemma RejectionIsFinal(lim: Limits, s: Buffer, t: Buffer)
    requires ScanBytes(Fresh(0), lim, s).None?
    ensures !Accepts(lim, s + t)
    ensures !exists frames :: FramingOf(frames, lim, s + t)
  {
    ScanConcat(Fresh(0), lim, s, t);
    ExactRecognition(lim, s + t);
  }
}
