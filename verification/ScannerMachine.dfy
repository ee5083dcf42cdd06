/**
 The flat counter machine behind MessagePackFrameScanner, one byte at a time,
 and what its state means: which byte strings complete the current frame.
 */
module ScannerMachine {
  import opened Buffers
  import opened MessagePackGrammar

  /** The engine accepts only limits that are safe integers; zero and negative ones admit no frame. */
  type FrameLimit = x: int | x <= MAX_SAFE_INTEGER

  datatype Limits = Limits(maxFrameBytes: FrameLimit, maxFrames: nat)

  /** A length header of which `read` of `bytes` digits have been seen. */
  datatype PendingLength = PendingLength(kind: Kind, bytes: nat, read: nat, value: nat)

  datatype State = State(
    frameBytes: nat,
    remainingValues: nat,
    payloadBytes: nat,
    extensionTypePending: bool,
    pending: Option<PendingLength>,
    frames: nat)

  function Fresh(frames: nat): State { State(0, 1, 0, false, None, frames) }

  /** The frame has all its bytes. */
  predicate Ready(st: State) {
    st.pending.None? && st.payloadBytes == 0 && st.remainingValues == 0
  }

  /** What a complete length header of `kind` announces. */
  function Loaded(st: State, kind: Kind, n: nat): State {
    match kind
    case ArrayKind => st.(remainingValues := st.remainingValues + n)
    case MapKind => st.(remainingValues := st.remainingValues + 2 * n)
    case PayloadKind => st.(payloadBytes := n, extensionTypePending := false)
    case ExtensionKind => st.(payloadBytes := n + 1, extensionTypePending := true)
  }

  function OnToken(st: State, b: byte): Option<State>
    requires st.remainingValues > 0
  {
    var s := st.(remainingValues := st.remainingValues - 1);
    match FormatOf(b)
    case Reserved => None
    case Scalar => Some(s)
    case Children(n) => Some(Loaded(s, ArrayKind, n))
    case Fixed(n) => Some(s.(payloadBytes := n))
    case FixedExtension(n) => Some(Loaded(s, ExtensionKind, n))
    case Sized(kind, width) => Some(s.(pending := Some(PendingLength(kind, width, 0, 0))))
  }

  function OnLength(st: State, p: PendingLength, b: byte): State {
    var value := p.value * 256 + b;
    if p.read + 1 == p.bytes then Loaded(st.(pending := None), p.kind, value)
    else st.(pending := Some(p.(read := p.read + 1, value := value)))
  }

  function OnPayload(st: State, b: byte): Option<State>
    requires st.payloadBytes > 0
  {
    var s := st.(payloadBytes := st.payloadBytes - 1, extensionTypePending := false);
    if !st.extensionTypePending then Some(s) else
    match ExtensionChildren(b)
    case None => None
    case Some(c) => Some(s.(remainingValues := s.remainingValues + c))
  }

  /** One byte, without any limit. */
  function Advance(st: State, b: byte): Option<State> {
    var s := st.(frameBytes := st.frameBytes + 1);
    if s.payloadBytes > 0 then OnPayload(s, b)
    else if s.pending.Some? then Some(OnLength(s, s.pending.value, b))
    else if s.remainingValues == 0 then None
    else OnToken(s, b)
  }

  /** Every byte still owed is at least one byte of the frame's budget. */
  predicate WithinBudget(st: State, lim: Limits) {
    st.frameBytes + st.payloadBytes + st.remainingValues <= lim.maxFrameBytes
  }

  /** One byte under the limits: the budget is reserved whenever no length header is open. */
  function Bounded(st: State, lim: Limits, b: byte): Option<State> {
    if st.frameBytes + 1 > lim.maxFrameBytes then None else
    match Advance(st, b)
    case None => None
    case Some(s) => if s.pending.None? && !WithinBudget(s, lim) then None else Some(s)
  }

  function Step(st: State, lim: Limits, b: byte): Option<State> {
    match Bounded(st, lim, b)
    case None => None
    case Some(s) =>
      if !Ready(s) then Some(s)
      else if st.frames + 1 > lim.maxFrames then None
      else Some(Fresh(st.frames + 1))
  }

  /** The byte completed a frame. */
  predicate Closes(st: State, lim: Limits, b: byte) {
    Bounded(st, lim, b).Some? && Ready(Bounded(st, lim, b).value)
  }

  datatype Scanned = Scanned(state: State, boundaries: seq<nat>)

  /** The byte at index `at` after a scan of the bytes before it. */
  function Append(done: Scanned, lim: Limits, b: byte, at: nat): Option<Scanned> {
    match Step(done.state, lim, b)
    case None => None
    case Some(next) =>
      Some(Scanned(next, done.boundaries + if Closes(done.state, lim, b) then [at + 1] else []))
  }

  /** A whole buffer, byte after byte; None when any byte is refused. */
  function ScanBytes(st: State, lim: Limits, s: Buffer): (r: Option<Scanned>)
    decreases |s|
  {
    if s == [] then Some(Scanned(st, []))
    else
      var front := ScanBytes(st, lim, s[..|s| - 1]);
      if front.None? then None else Append(front.value, lim, s[|s| - 1], |s| - 1)
  }

  function Shift(boundaries: seq<nat>, offset: nat): (r: seq<nat>)
    ensures |r| == |boundaries|
  {
    seq(|boundaries|, i requires 0 <= i < |boundaries| => boundaries[i] + offset)
  }

  /** Nothing of a frame is held. */
  predicate Clean(st: State) {
    st.frameBytes == 0 && st.pending.None? && st.payloadBytes == 0
  }

  // ------------------------------------------------------------------ invariant

  /** The reservation invariant and the shape of every state the scanner reaches. */
  predicate Inv(st: State, lim: Limits) {
    && st.frames <= lim.maxFrames
    && (st.frameBytes == 0 ==> st == Fresh(st.frames))
    && (st.frameBytes > 0 ==> st.frameBytes <= lim.maxFrameBytes && !Ready(st))
    && (lim.maxFrameBytes >= 1 && st.pending.None? ==> WithinBudget(st, lim))
    && (st.extensionTypePending ==> st.payloadBytes > 0)
    && (st.pending.Some? ==>
          && st.payloadBytes == 0
          && st.pending.value.read < st.pending.value.bytes <= 4)
    && (st.pending.None? && st.payloadBytes == 0 ==> st.remainingValues >= 1)
  }

  lemma StepKeepsInv(st: State, lim: Limits, b: byte)
    requires Inv(st, lim) && Step(st, lim, b).Some?
    ensures Inv(Step(st, lim, b).value, lim)
  {
  }

  lemma {:induction false} ScanKeepsInv(st: State, lim: Limits, s: Buffer)
    requires Inv(st, lim) && ScanBytes(st, lim, s).Some?
    ensures Inv(ScanBytes(st, lim, s).value.state, lim)
    decreases |s|
  {
    if s != [] {
      ScanKeepsInv(st, lim, s[..|s| - 1]);
      StepKeepsInv(ScanBytes(st, lim, s[..|s| - 1]).value.state, lim, s[|s| - 1]);
    }
  }

  /**
   After any accepted bytes, outside an open length header, every byte owed is within
   the budget: payload bytes never overflow the frame or fill it before their end, and a
   token always has a value to account for and a byte to stand in.
   */
  lemma ReservationHolds(lim: Limits, s: Buffer)
    requires lim.maxFrameBytes >= 1 && ScanBytes(Fresh(0), lim, s).Some?
    ensures var st := ScanBytes(Fresh(0), lim, s).value.state;
      st.pending.None? ==>
        && WithinBudget(st, lim)
        && (st.payloadBytes > 0 ==> st.frameBytes + st.payloadBytes <= lim.maxFrameBytes)
        && (st.payloadBytes == 0 ==> st.remainingValues >= 1 && st.frameBytes + 1 <= lim.maxFrameBytes)
  {
    ScanKeepsInv(Fresh(0), lim, s);
  }

  // --------------------------------------------------------- chunk independence

  /** The result of a scan that went on, as `second`, after `first` had taken `offset` bytes. */
  function Continue(first: Scanned, offset: nat, second: Option<Scanned>): Option<Scanned> {
    match second
    case None => None
    case Some(r) => Some(Scanned(r.state, first.boundaries + Shift(r.boundaries, offset)))
  }

  lemma AppendContinued(first: Scanned, offset: nat, second: Scanned, lim: Limits, b: byte, at: nat)
    ensures Append(Continue(first, offset, Some(second)).value, lim, b, offset + at)
         == Continue(first, offset, Append(second, lim, b, at))
  {
    if Append(second, lim, b, at).Some? {
      var ends := if Closes(second.state, lim, b) then [at + 1] else [];
      assert Shift(second.boundaries + ends, offset) == Shift(second.boundaries, offset) + Shift(ends, offset);
      assert Shift(ends, offset) == if Closes(second.state, lim, b) then [offset + at + 1] else [];
      assert first.boundaries + Shift(second.boundaries + ends, offset)
          == (first.boundaries + Shift(second.boundaries, offset)) + Shift(ends, offset);
    }
  }

  lemma ContinueNothing(first: Scanned, offset: nat)
    ensures Continue(first, offset, Some(Scanned(first.state, []))) == Some(first)
  {
    assert first.boundaries + Shift([], offset) == first.boundaries;
  }

  /** Scanning a ++ b is scanning a and then b, with the boundaries of b shifted by |a|. */
  lemma {:induction false} ScanConcat(st: State, lim: Limits, a: Buffer, b: Buffer)
    ensures ScanBytes(st, lim, a + b) ==
      match ScanBytes(st, lim, a)
      case None => None
      case Some(first) => Continue(first, |a|, ScanBytes(first.state, lim, b))
    decreases |b|
  {
    hide Append, Shift;
    if b == [] {
      assert a + b == a;
      if ScanBytes(st, lim, a).Some? { ContinueNothing(ScanBytes(st, lim, a).value, |a|); }
    } else {
      var front, last := b[..|b| - 1], b[|b| - 1];
      ScanConcat(st, lim, a, front);
      assert (a + b)[..|a + b| - 1] == a + front && (a + b)[|a + b| - 1] == last;
      if ScanBytes(st, lim, a).Some? {
        var first := ScanBytes(st, lim, a).value;
        if ScanBytes(first.state, lim, front).Some? {
          AppendContinued(first, |a|, ScanBytes(first.state, lim, front).value, lim, last, |front|);
        }
      }
    }
  }

  // ------------------------------------------------------- meaning of the state

  /** `s` is `payload` bytes (led by an extension type when `typed`) and then `values` values. */
  ghost predicate Owed(values: nat, payload: nat, typed: bool, s: Buffer) {
    if payload == 0 then Flat(values, s)
    else
      && |s| >= payload
      && if !typed then Flat(values, s[payload..])
         else
           && ExtensionChildren(s[0]).Some?
           && Flat(values + ExtensionChildren(s[0]).value, s[payload..])
  }

  /** `s` is what a length header of `kind` announcing `n` still owes, and then `values` values. */
  ghost predicate Announced(values: nat, kind: Kind, n: nat, s: Buffer) {
    match kind
    case ArrayKind => Flat(values + n, s)
    case MapKind => Flat(values + 2 * n, s)
    case PayloadKind => Owed(values, n, false, s)
    case ExtensionKind => Owed(values, n + 1, true, s)
  }

  /** `s` is the other digits of a length header, then what the header announces. */
  ghost predicate Header(values: nat, p: PendingLength, s: Buffer) {
    && p.read < p.bytes
    && var need := p.bytes - p.read;
    && |s| >= need
    && Announced(values, p.kind, Accumulate(p.value, s[..need]), s[need..])
  }

  /** `s` is exactly what the current frame still lacks. */
  ghost predicate Rest(st: State, s: Buffer) {
    if st.pending.Some? then Header(st.remainingValues, st.pending.value, s)
    else Owed(st.remainingValues, st.payloadBytes, st.extensionTypePending, s)
  }

  lemma OwedLength(values: nat, payload: nat, typed: bool, s: Buffer)
    requires Owed(values, payload, typed, s)
    ensures |s| >= payload + values
  {
    if payload == 0 {
      FlatLength(values, s);
    } else if typed {
      FlatLength(values + ExtensionChildren(s[0]).value, s[payload..]);
    } else {
      FlatLength(values, s[payload..]);
    }
  }

  lemma SizedToken(values: nat, kind: Kind, width: nat, s: Buffer)
    requires s != [] && FormatOf(s[0]) == Sized(kind, width)
    ensures Flat(values + 1, s) <==> Header(values, PendingLength(kind, width, 0, 0), s[1..])
  {
    var t := s[1..];
    if |t| >= width {
      var n := BigEndian(s[1..1 + width]);
      assert t[..width] == s[1..1 + width] && t[width..] == s[1 + width..];
      AnnouncedToken(values, kind, width, n, s);
    }
  }

  lemma HeadOfSized(kind: Kind, width: nat, n: nat, s: Buffer)
    requires s != [] && FormatOf(s[0]) == Sized(kind, width)
    requires |s| >= 1 + width && BigEndian(s[1..1 + width]) == n
    ensures HeadOf(s) ==
      match kind
      case ArrayKind => Some(Head(1 + width, n))
      case MapKind => Some(Head(1 + width, 2 * n))
      case PayloadKind => PayloadHead(s, 1 + width, n)
      case ExtensionKind => ExtensionHead(s, 1 + width, n)
  {
    hide FormatOf, BigEndian, PayloadHead, ExtensionHead;
  }

  lemma AnnouncedToken(values: nat, kind: Kind, width: nat, n: nat, s: Buffer)
    requires s != [] && FormatOf(s[0]) == Sized(kind, width)
    requires |s| >= 1 + width && BigEndian(s[1..1 + width]) == n
    ensures Flat(values + 1, s) <==> Announced(values, kind, n, s[1 + width..])
  {
    hide FormatOf, BigEndian, HeadOf;
    HeadOfSized(kind, width, n, s);
    var at, u := 1 + width, s[1 + width..];
    match kind
    case ArrayKind =>
    case MapKind =>
    case PayloadKind =>
      if |u| >= n { assert u[n..] == s[at + n..]; }
    case ExtensionKind =>
      if |u| >= n + 1 { assert u[n + 1..] == s[at + 1 + n..] && u[0] == s[at]; }
  }

  lemma HeadOfToken(s: Buffer)
    requires s != []
    ensures HeadOf(s) ==
      match FormatOf(s[0])
      case Reserved => None
      case Scalar => Some(Head(1, 0))
      case Children(n) => Some(Head(1, n))
      case Fixed(n) => PayloadHead(s, 1, n)
      case FixedExtension(n) => ExtensionHead(s, 1, n)
      case Sized(kind, width) => HeadOf(s)
  {
    hide FormatOf, PayloadHead, ExtensionHead, BigEndian;
  }

  lemma TokenRest(st: State, s: Buffer)
    requires st.pending.None? && st.payloadBytes == 0 && !st.extensionTypePending
    requires st.remainingValues > 0 && s != []
    ensures Rest(st, s) <==> OnToken(st, s[0]).Some? && Rest(OnToken(st, s[0]).value, s[1..])
  {
    hide FormatOf, HeadOf, Announced;
    HeadOfToken(s);
    var t := s[1..];
    match FormatOf(s[0])
    case Reserved =>
    case Scalar =>
    case Children(n) =>
    case Fixed(n) =>
      if |t| >= n { assert t[n..] == s[1 + n..]; }
    case FixedExtension(n) =>
      if |t| >= n + 1 { assert t[n + 1..] == s[1 + 1 + n..] && t[0] == s[1]; }
    case Sized(kind, width) =>
      SizedToken(st.remainingValues - 1, kind, width, s);
  }

  lemma LoadedRest(st: State, kind: Kind, n: nat, s: Buffer)
    requires st.pending.None? && st.payloadBytes == 0 && !st.extensionTypePending
    ensures Rest(Loaded(st, kind, n), s) <==> Announced(st.remainingValues, kind, n, s)
  {
    hide Flat;
  }

  lemma LengthRest(st: State, s: Buffer)
    requires st.pending.Some? && st.payloadBytes == 0 && !st.extensionTypePending
    requires st.pending.value.read < st.pending.value.bytes && s != []
    ensures Rest(st, s) <==> Rest(OnLength(st, st.pending.value, s[0]), s[1..])
  {
    hide Announced, Loaded, Owed;
    var p := st.pending.value;
    var need := p.bytes - p.read;
    if |s| >= need {
      var digits, others := s[..need], s[1..][..need - 1];
      assert digits[0] == s[0] && digits[1..] == others;
      assert s[need..] == s[1..][need - 1..];
      var value := p.value * 256 + s[0];
      assert Accumulate(p.value, digits) == Accumulate(value, others);
      if need == 1 {
        assert others == [];
        LoadedRest(st.(pending := None), p.kind, value, s[1..]);
      }
    }
  }

  lemma PayloadRest(st: State, s: Buffer)
    requires st.pending.None? && st.payloadBytes > 0 && s != []
    ensures Rest(st, s) <==> OnPayload(st, s[0]).Some? && Rest(OnPayload(st, s[0]).value, s[1..])
  {
    if |s| >= st.payloadBytes {
      assert s[st.payloadBytes..] == s[1..][st.payloadBytes - 1..];
    }
  }

  /** Reading one byte takes exactly that byte off what the frame lacks. */
  lemma AdvanceRest(st: State, lim: Limits, s: Buffer)
    requires Inv(st, lim) && s != []
    ensures Rest(st, s) <==> Advance(st, s[0]).Some? && Rest(Advance(st, s[0]).value, s[1..])
  {
    var t := st.(frameBytes := st.frameBytes + 1);
    if t.payloadBytes > 0 {
      PayloadRest(t, s);
    } else if t.pending.Some? {
      LengthRest(t, s);
    } else {
      TokenRest(t, s);
    }
  }

  /** `s` completes the current frame within the byte budget. */
  ghost predicate Fits(st: State, lim: Limits, s: Buffer) {
    Rest(st, s) && st.frameBytes + |s| <= lim.maxFrameBytes
  }

  /** The limit checks refuse a byte exactly when no completion with that byte fits. */
  lemma BoundedFits(st: State, lim: Limits, s: Buffer)
    requires Inv(st, lim) && s != []
    ensures Fits(st, lim, s) <==> Bounded(st, lim, s[0]).Some? && Fits(Bounded(st, lim, s[0]).value, lim, s[1..])
  {
    AdvanceRest(st, lim, s);
    if Fits(st, lim, s) {
      var next := Advance(st, s[0]).value;
      if next.pending.None? {
        OwedLength(next.remainingValues, next.payloadBytes, next.extensionTypePending, s[1..]);
      }
    }
  }

  lemma FreshRest(frames: nat, s: Buffer)
    ensures Rest(Fresh(frames), s) <==> IsValue(s)
  {
    OneValueIsFlat(s);
  }

  lemma ReadyRest(st: State, s: Buffer)
    requires Ready(st)
    ensures Rest(st, s) <==> s == []
  {
  }

  lemma NothingLacksOnlyWhenReady(st: State, lim: Limits)
    requires Inv(st, lim)
    ensures !Rest(st, [])
  {
  }
}
