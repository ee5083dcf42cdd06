/**
 The life of a plaintext key buffer a key service yields: it is either delivered and wiped
 by the plugin's finally block, or arrives after the caller gave up and is disposed of.
 */
module KmsKeys {
  import opened Buffers

  datatype Phase = NotInvoked | Listening | GaveUp | Delivered | Finished | Failed
  datatype Provider = Silent | Yielded | Rejected

  /** `lateDisposals` and `finalWipes` count what is done to the yielded key, `live` says whether it can be read. */
  datatype Call = Call(
    hasSignal: bool,
    phase: Phase,
    provider: Provider,
    live: bool,
    lateDisposals: nat,
    finalWipes: nat)

  /** callProvider and abortable up to their first wait; the provider may abort the signal while it is invoked. */
  function Begun(hasSignal: bool, aborted: bool, abortedByInvoke: bool): Call {
    var phase :=
      if hasSignal && aborted then NotInvoked
      else if hasSignal && abortedByInvoke then GaveUp
      else Listening;
    Call(hasSignal, phase, Silent, false, 0, 0)
  }

  datatype Event = Aborts | Yields | Rejects | Finishes

  /** A provider settles once, and only when it was invoked; the finally block runs once, after delivery. */
  predicate Enabled(c: Call, e: Event) {
    match e
    case Aborts => c.hasSignal
    case Yields => c.provider.Silent? && !c.phase.NotInvoked?
    case Rejects => c.provider.Silent? && !c.phase.NotInvoked?
    case Finishes => c.phase.Delivered?
  }

  function Next(c: Call, e: Event): Call {
    match e
    case Aborts => if c.phase.Listening? then c.(phase := GaveUp) else c
    case Yields =>
      var y := c.(provider := Yielded);
      if c.phase.GaveUp? then y.(lateDisposals := y.lateDisposals + 1)
      else y.(phase := Delivered, live := true)
    case Rejects =>
      var r := c.(provider := Rejected);
      if c.phase.GaveUp? then r else r.(phase := Failed)
    case Finishes => c.(phase := Finished, live := false, finalWipes := c.finalWipes + 1)
  }

  predicate Legal(c: Call, events: seq<Event>)
    decreases |events|
  {
    events == [] || (Enabled(c, events[0]) && Legal(Next(c, events[0]), events[1..]))
  }

  function Run(c: Call, events: seq<Event>): Call
    decreases |events|
  {
    if events == [] then c else Run(Next(c, events[0]), events[1..])
  }

  predicate Inv(c: Call) {
    && (c.phase.Listening? || c.phase.NotInvoked? ==> c.provider.Silent?)
    && (c.phase.Delivered? || c.phase.Finished? ==> c.provider.Yielded?)
    && (c.phase.Failed? ==> c.provider.Rejected?)
    && (c.live <==> c.phase.Delivered?)
    && c.lateDisposals == (if c.phase.GaveUp? && c.provider.Yielded? then 1 else 0)
    && c.finalWipes == (if c.phase.Finished? then 1 else 0)
  }

  lemma {:induction false} RunKeepsInv(c: Call, events: seq<Event>)
    requires Inv(c) && Legal(c, events)
    ensures Inv(Run(c, events))
    decreases |events|
  {
    if events != [] { RunKeepsInv(Next(c, events[0]), events[1..]); }
  }

  /**
   Whatever the order of abort and answer: a yielded key is in use by the plugin that
   will wipe it, or has been wiped exactly once, by exactly one of the two ways.
   */
  lemma EveryKeyIsWipedOnce(hasSignal: bool, aborted: bool, abortedByInvoke: bool, events: seq<Event>)
    requires Legal(Begun(hasSignal, aborted, abortedByInvoke), events)
    ensures var c := Run(Begun(hasSignal, aborted, abortedByInvoke), events);
      && (c.live ==> c.provider.Yielded? && Enabled(c, Finishes) && c.lateDisposals + c.finalWipes == 0)
      && (c.provider.Yielded? && !c.live ==> c.lateDisposals + c.finalWipes == 1)
      && (!c.provider.Yielded? ==> c.lateDisposals + c.finalWipes == 0)
      && (c.lateDisposals == 1 ==> c.phase.GaveUp?)
  {
    RunKeepsInv(Begun(hasSignal, aborted, abortedByInvoke), events);
  }

  /** A caller that gave up is never handed a key. */
  lemma {:induction false} GivenUpStaysGivenUp(c: Call, events: seq<Event>)
    requires Inv(c) && c.phase.GaveUp? && Legal(c, events)
    ensures Run(c, events).phase.GaveUp? && !Run(c, events).live
    decreases |events|
  {
    if events != [] { GivenUpStaysGivenUp(Next(c, events[0]), events[1..]); }
  }

  predicate HandedOver(c: Call) { c.phase.Delivered? || c.phase.Finished? }

  /** The first answer of this kind comes before any abort. */
  ghost predicate InTime(events: seq<Event>, answer: Event) {
    exists i :: 0 <= i < |events| && events[i] == answer && forall j | 0 <= j < i :: !events[j].Aborts?
  }

  lemma InTimeFirst(events: seq<Event>, answer: Event)
    requires events != [] && !answer.Aborts?
    ensures InTime(events, answer) <==> events[0] == answer || (!events[0].Aborts? && InTime(events[1..], answer))
  {
    var rest := events[1..];
    if InTime(events, answer) {
      var i :| 0 <= i < |events| && events[i] == answer && forall j | 0 <= j < i :: !events[j].Aborts?;
      if i > 0 {
        assert rest[i - 1] == answer;
        forall j | 0 <= j < i - 1 ensures !rest[j].Aborts? { assert rest[j] == events[j + 1]; }
      }
    }
    if !events[0].Aborts? && InTime(rest, answer) {
      var i :| 0 <= i < |rest| && rest[i] == answer && forall j | 0 <= j < i :: !rest[j].Aborts?;
      assert events[i + 1] == answer;
      forall j | 0 <= j < i + 1 ensures !events[j].Aborts? { if j > 0 { assert events[j] == rest[j - 1]; } }
    }
  }

  /** An answered call, and one that ended otherwise, stay so. */
  lemma {:induction false} AnsweredStays(c: Call, events: seq<Event>)
    requires Inv(c) && Legal(c, events) && !c.phase.Listening?
    ensures var d := Run(c, events);
      && (HandedOver(d) <==> HandedOver(c)) && (d.phase.Failed? <==> c.phase.Failed?)
      && (d.phase.Finished? <==> c.phase.Finished? || (c.phase.Delivered? && Finishes in events))
    decreases |events|
  {
    if events != [] {
      assert events == [events[0]] + events[1..];
      AnsweredStays(Next(c, events[0]), events[1..]);
    }
  }

  lemma {:induction false} ListeningEnds(c: Call, events: seq<Event>)
    requires Inv(c) && Legal(c, events) && c.phase.Listening?
    ensures var d := Run(c, events);
      && (HandedOver(d) <==> InTime(events, Yields)) && (d.phase.Failed? <==> InTime(events, Rejects))
    decreases |events|
  {
    if events != [] {
      InTimeFirst(events, Yields);
      InTimeFirst(events, Rejects);
      if events[0].Aborts? {
        AnsweredStays(Next(c, events[0]), events[1..]);
      } else {
        OneAnswer(c, events[0], events[1..]);
        AnsweredStays(Next(c, events[0]), events[1..]);
      }
    }
  }

  /** A provider that has answered does not answer again. */
  lemma {:induction false} OneAnswer(c: Call, e: Event, rest: seq<Event>)
    requires (e.Yields? || e.Rejects?) && Legal(Next(c, e), rest)
    ensures Yields !in rest && Rejects !in rest
  {
    Answered(Next(c, e), rest);
  }

  lemma {:induction false} Answered(c: Call, events: seq<Event>)
    requires !c.provider.Silent? && Legal(c, events)
    ensures Yields !in events && Rejects !in events
    decreases |events|
  {
    if events != [] {
      assert events == [events[0]] + events[1..];
      Answered(Next(c, events[0]), events[1..]);
    }
  }

  /**
   The caller gets the key exactly when the provider yields it before any abort, the signal
   not being aborted at the call or by the provider's invocation, and an error likewise; the
   key it got is wiped when the caller finishes.
   */
  lemma AnswersInTime(hasSignal: bool, aborted: bool, abortedByInvoke: bool, events: seq<Event>)
    requires Legal(Begun(hasSignal, aborted, abortedByInvoke), events)
    ensures var c := Run(Begun(hasSignal, aborted, abortedByInvoke), events);
      && (HandedOver(c) <==> !(hasSignal && (aborted || abortedByInvoke)) && InTime(events, Yields))
      && (c.phase.Failed? <==> !(hasSignal && (aborted || abortedByInvoke)) && InTime(events, Rejects))
  {
    var c := Begun(hasSignal, aborted, abortedByInvoke);
    if c.phase.Listening? { ListeningEnds(c, events); } else { AnsweredStays(c, events); }
  }

  // --------------------------------------------------------------------- the closures

  ghost predicate Wiped(a: array<byte>)
    reads a
  {
    forall i | 0 <= i < a.Length :: a[i] == 0
  }

  /** buffer.fill(0). */
  method Fill(a: array<byte>)
    modifies a
    ensures Wiped(a)
  {
    for i := 0 to a.Length
      invariant forall k | 0 <= k < i :: a[k] == 0
    {
      a[i] := 0;
    }
  }

  /** The variables of one abortable call. */
  class Abortable {
    const hasSignal: bool
    var phase: Phase
    ghost var provider: Provider
    ghost var live: bool
    ghost var lateDisposals: nat
    ghost var finalWipes: nat

    ghost function Snapshot(): Call
      reads this
    {
      Call(hasSignal, phase, provider, live, lateDisposals, finalWipes)
    }

    constructor (signal: bool, aborted: bool, abortedByInvoke: bool)
      ensures Snapshot() == Begun(signal, aborted, abortedByInvoke)
    {
      hasSignal := signal;
      phase := if signal && aborted then NotInvoked else if signal && abortedByInvoke then GaveUp else Listening;
      provider, live, lateDisposals, finalWipes := Silent, false, 0, 0;
    }

    method OnAbort()
      modifies this
      ensures Snapshot() == Next(old(Snapshot()), Aborts)
    {
      if phase.Listening? { phase := GaveUp; }
    }

    /** A late key is wiped, one in time handed over untouched. */
    method OnValue(key: array<byte>) returns (delivered: bool)
      requires Inv(Snapshot()) && Enabled(Snapshot(), Yields)
      modifies this, key
      ensures Snapshot() == Next(old(Snapshot()), Yields)
      ensures delivered == old(phase).Listening?
      ensures if delivered then key[..] == old(key[..]) else Wiped(key)
    {
      provider := Yielded;
      delivered := phase.Listening?;
      if delivered {
        phase, live := Delivered, true;
      } else {
        Fill(key);
        lateDisposals := lateDisposals + 1;
      }
    }

    method OnError()
      requires Inv(Snapshot()) && Enabled(Snapshot(), Rejects)
      modifies this
      ensures Snapshot() == Next(old(Snapshot()), Rejects)
    {
      provider := Rejected;
      if !phase.GaveUp? { phase := Failed; }
    }

    /** The finally block of process and reverse. */
    method Finish(key: array<byte>)
      requires Enabled(Snapshot(), Finishes)
      modifies this, key
      ensures Snapshot() == Next(old(Snapshot()), Finishes) && Wiped(key)
    {
      Fill(key);
      phase, live, finalWipes := Finished, false, finalWipes + 1;
    }
  }
}
