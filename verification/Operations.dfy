/**
 Waiting for an operation under a signal: the race among result, abort and deadline.
 The clock is a parameter; the error classes of a refused wait are not distinguished
 beyond "the operation failed" and "the wait was stopped".
 */
module Operations {
  import opened Buffers

  /** An abort signal with the deadline registered for it. */
  datatype Signal = Signal(aborted: bool, deadline: Option<nat>)

  predicate PastDeadline(s: Signal, now: nat) { s.deadline.Some? && now >= s.deadline.value }

  /** When throwIfAborted throws. */
  predicate Stopped(s: Signal, now: nat) { s.aborted || PastDeadline(s, now) }

  datatype Outcome<+T> = Resolved(value: T) | Refused | Interrupted

  datatype Happening<+T> =
    | Fulfils(value: T, now: nat)
    | Rejects(now: nat)
    | Aborts(now: nat)
    | TimerFires(now: nat)

  /** One waiting caller: whether it still listens for the abort and has a timer pending. */
  datatype Wait<+T> = Wait(signal: Signal, listening: bool, timerPending: bool, outcome: Option<Outcome<T>>)

  function Ended<T>(w: Wait<T>, o: Outcome<T>): Wait<T> {
    w.(listening := false, timerPending := false, outcome := Some(o))
  }

  function Begun<T>(signal: Signal, now: nat): Wait<T> {
    var w := Wait(signal, true, signal.deadline.Some?, None);
    if Stopped(signal, now) then Ended(w, Interrupted) else w
  }

  function React<T>(w: Wait<T>, e: Happening<T>): Wait<T> {
    match e
    case Fulfils(value, now) =>
      if w.outcome.Some? then w
      else if Stopped(w.signal, now) then Ended(w, Interrupted)
      else Ended(w, Resolved(value))
    case Rejects(_) => if w.outcome.Some? then w else Ended(w, Refused)
    case Aborts(_) =>
      var w' := w.(signal := w.signal.(aborted := true));
      if w.listening then Ended(w', Interrupted) else w'
    case TimerFires(_) => if w.timerPending then Ended(w, Interrupted) else w
  }

  function Race<T>(signal: Signal, start: nat, events: seq<Happening<T>>): Wait<T> {
    if events == [] then Begun(signal, start)
    else React(Race(signal, start, events[..|events| - 1]), events[|events| - 1])
  }

  // What can happen: the clock does not go back, a promise settles once, a timer is not early.

  predicate Settles<T>(e: Happening<T>) { e.Fulfils? || e.Rejects? }

  predicate Orderly<T>(signal: Signal, start: nat, events: seq<Happening<T>>) {
    && (forall i | 0 <= i < |events| :: events[i].now >= start)
    && (forall i, j | 0 <= i < j < |events| :: events[i].now <= events[j].now)
    && (forall i, j | 0 <= i < j < |events| :: !(Settles(events[i]) && Settles(events[j])))
    && (forall i | 0 <= i < |events| && events[i].TimerFires? :: PastDeadline(signal, events[i].now))
  }

  /** The operation fulfilled with `value` before any abort and before the deadline. */
  ghost predicate InTime<T>(signal: Signal, start: nat, events: seq<Happening<T>>, value: T) {
    && !Stopped(signal, start)
    && exists i: nat | i < |events| :: InTimeAt(signal, events, i, value)
  }

  ghost predicate InTimeAt<T>(signal: Signal, events: seq<Happening<T>>, i: nat, value: T)
    requires i < |events|
  {
    && events[i].Fulfils? && events[i].value == value
    && !PastDeadline(signal, events[i].now)
    && forall j | 0 <= j < i :: !events[j].Aborts?
  }

  /** The operation rejected before any abort, and no timer had fired. */
  ghost predicate Failed<T>(signal: Signal, start: nat, events: seq<Happening<T>>) {
    && !Stopped(signal, start)
    && exists i: nat | i < |events| :: FailedAt(signal, events, i)
  }

  ghost predicate FailedAt<T>(signal: Signal, events: seq<Happening<T>>, i: nat)
    requires i < |events|
  {
    && events[i].Rejects?
    && forall j | 0 <= j < i :: !events[j].Aborts? && !events[j].TimerFires?
  }

  lemma {:induction false} SignalHistory<T>(signal: Signal, start: nat, events: seq<Happening<T>>)
    ensures Race(signal, start, events).signal
         == Signal(signal.aborted || exists i | 0 <= i < |events| :: events[i].Aborts?, signal.deadline)
  {
    if events != [] {
      var front := events[..|events| - 1];
      SignalHistory(signal, start, front);
      assert forall i | 0 <= i < |front| :: front[i] == events[i];
      if i :| 0 <= i < |events| && events[i].Aborts? && i < |front| {
        assert front[i].Aborts?;
      }
    }
  }

  /** What a race may hear next: nothing from the past, no second answer, no early timer. */
  lemma OrderlySnoc<T>(signal: Signal, start: nat, events: seq<Happening<T>>, e: Happening<T>)
    requires Orderly(signal, start, events)
    requires e.now >= start && forall f | f in events :: f.now <= e.now && !(Settles(e) && Settles(f))
    requires e.TimerFires? ==> PastDeadline(signal, e.now)
    ensures Orderly(signal, start, events + [e])
  {
    var all := events + [e];
    forall i, j | 0 <= i < j < |all| ensures all[i].now <= all[j].now && !(Settles(all[i]) && Settles(all[j])) {
      assert all[i] == events[i] && all[i] in events;
      if j < |events| { assert all[j] == events[j]; }
    }
    assert forall i | 0 <= i < |all| :: i == |events| || all[i] == events[i];
  }

  lemma RaceSnoc<T>(signal: Signal, start: nat, events: seq<Happening<T>>, e: Happening<T>)
    ensures Race(signal, start, events + [e]) == React(Race(signal, start, events), e)
    ensures React(Race(signal, start, events), e).signal
         == Race(signal, start, events).signal.(aborted := Race(signal, start, events).signal.aborted || e.Aborts?)
  {
    assert (events + [e])[..|events + [e]| - 1] == events;
  }

  /** A wait that has ended holds neither listener nor timer; one that has not holds both. */
  lemma {:induction false} NothingLeaks<T>(signal: Signal, start: nat, events: seq<Happening<T>>)
    ensures var w := Race(signal, start, events);
      && (w.outcome.Some? ==> !w.listening && !w.timerPending)
      && (w.outcome.None? ==> w.listening && w.timerPending == signal.deadline.Some? && !w.signal.aborted)
  {
    SignalHistory(signal, start, events);
    if events != [] {
      var front := events[..|events| - 1];
      SignalHistory(signal, start, front);
      NothingLeaks(signal, start, front);
    }
  }

  /** A wait ends at most once: what comes later never changes its outcome. */
  lemma {:induction false} EndsOnce<T>(signal: Signal, start: nat, events: seq<Happening<T>>, more: seq<Happening<T>>)
    requires Race(signal, start, events).outcome.Some?
    ensures Race(signal, start, events + more).outcome == Race(signal, start, events).outcome
    decreases |more|
  {
    if more == [] {
      assert events + more == events;
    } else {
      var front := more[..|more| - 1];
      assert (events + more)[..|events + more| - 1] == events + front;
      EndsOnce(signal, start, events, front);
      NothingLeaks(signal, start, events + front);
    }
  }

  /** Whatever happens first ends a wait. */
  lemma {:induction false} FirstDecides<T>(signal: Signal, start: nat, events: seq<Happening<T>>)
    requires Orderly(signal, start, events) && events != []
    ensures Race(signal, start, events).outcome == React(Begun(signal, start), events[0]).outcome
    ensures Race(signal, start, events).outcome.Some?
  {
    assert events[..1] + events[1..] == events;
    assert events[..1][..0] == [];
    assert Race(signal, start, events[..1]) == React(Begun(signal, start), events[0]);
    assert events[0].TimerFires? ==> PastDeadline(signal, events[0].now);
    EndsOnce(signal, start, events[..1], events[1..]);
  }

  lemma NothingBefore<T>(signal: Signal, start: nat, events: seq<Happening<T>>, i: nat)
    requires Orderly(signal, start, events) && i < |events| && Settles(events[i])
    requires forall j | 0 <= j < i :: !events[j].Aborts?
    requires !PastDeadline(signal, events[i].now) || forall j | 0 <= j < i :: !events[j].TimerFires?
    ensures i == 0
  {
    assert events[0].now <= events[i].now;
    assert Settles(events[0]);
  }

  /**
   A wait resolves with a value exactly when the operation fulfilled with it before the
   abort and before the deadline, fails exactly when the operation rejected before the
   abort and the timer, and is interrupted in every other case that ends it.
   */
  lemma OutcomeIsExact<T>(signal: Signal, start: nat, events: seq<Happening<T>>)
    requires Orderly(signal, start, events)
    ensures var o := Race(signal, start, events).outcome;
      && (forall value :: o == Some(Resolved(value)) <==> InTime(signal, start, events, value))
      && (o == Some(Refused) <==> Failed(signal, start, events))
      && (o == None <==> events == [] && !Stopped(signal, start))
  {
    var o := Race(signal, start, events).outcome;
    if events != [] {
      FirstDecides(signal, start, events);
      forall value ensures o == Some(Resolved(value)) <==> InTime(signal, start, events, value) {
        if InTime(signal, start, events, value) {
          var i: nat :| i < |events| && InTimeAt(signal, events, i, value);
          NothingBefore(signal, start, events, i);
        } else if o == Some(Resolved(value)) {
          assert InTimeAt(signal, events, 0, value);
        }
      }
      if Failed(signal, start, events) {
        var i: nat :| i < |events| && FailedAt(signal, events, i);
        NothingBefore(signal, start, events, i);
      } else if o == Some(Refused) {
        assert FailedAt(signal, events, 0);
      }
    }
  }

  lemma StopTimes(signal: Signal, now: nat)
    ensures PastDeadline(signal, now) <==> signal.deadline.Some? && signal.deadline.value <= now
    ensures Stopped(signal, now) <==> signal.aborted || (signal.deadline.Some? && signal.deadline.value <= now)
  {
  }

  /**
   The same in times: the signal was not aborted and its deadline lay ahead when the wait
   began, and the operation fulfilled before the deadline, or rejected before the timer, with
   no abort before that.
   */
  lemma OutcomeInTimes<T>(signal: Signal, start: nat, events: seq<Happening<T>>)
    requires Orderly(signal, start, events)
    ensures var o := Race(signal, start, events).outcome;
      var ahead := !signal.aborted && (signal.deadline.Some? ==> start < signal.deadline.value);
      && (o.None? <==> ahead && events == [])
      && (o == Some(Refused) <==> ahead && exists i ::
            && 0 <= i < |events| && events[i].Rejects?
            && forall j | 0 <= j < i :: !events[j].Aborts? && !events[j].TimerFires?)
      && forall value :: o == Some(Resolved(value)) <==> ahead && exists i ::
            && 0 <= i < |events| && events[i].Fulfils? && events[i].value == value
            && (signal.deadline.Some? ==> events[i].now < signal.deadline.value)
            && forall j | 0 <= j < i :: !events[j].Aborts?
  {
    OutcomeIsExact(signal, start, events);
    hide Race, Orderly;
    forall value
      ensures InTime(signal, start, events, value) <==>
        !signal.aborted && (signal.deadline.Some? ==> start < signal.deadline.value)
        && exists i ::
             && 0 <= i < |events| && events[i].Fulfils? && events[i].value == value
             && (signal.deadline.Some? ==> events[i].now < signal.deadline.value)
             && forall j | 0 <= j < i :: !events[j].Aborts?
    {
      if i :| 0 <= i < |events| && events[i].Fulfils? && events[i].value == value
              && (signal.deadline.Some? ==> events[i].now < signal.deadline.value)
              && forall j | 0 <= j < i :: !events[j].Aborts? {
        assert InTimeAt(signal, events, i, value);
      }
    }
    if i :| 0 <= i < |events| && events[i].Rejects?
            && forall j | 0 <= j < i :: !events[j].Aborts? && !events[j].TimerFires? {
      assert FailedAt(signal, events, i);
    }
  }

  /** After an interruption the signal still stops: a caller that looks again sees the same. */
  lemma InterruptedStaysStopped<T>(signal: Signal, start: nat, events: seq<Happening<T>>, now: nat)
    requires Orderly(signal, start, events) && Race(signal, start, events).outcome == Some(Interrupted)
    requires now >= start && forall e | e in events :: now >= e.now
    ensures Stopped(Race(signal, start, events).signal, now)
  {
    SignalHistory(signal, start, events);
    if events != [] {
      FirstDecides(signal, start, events);
      assert events[0] in events;
    }
  }

  // ---------------------------------------------------------------------- closures

  /** The closure variables of awaitOperation and its callbacks. */
  class AwaitOperation<T> {
    var signal: Signal
    var settled: bool
    var listening: bool
    var timer: bool
    var outcome: Option<Outcome<T>>

    ghost predicate Valid()
      reads this
    {
      && settled == outcome.Some?
      && (settled ==> !listening && !timer)
      && (!settled ==> listening && timer == signal.deadline.Some?)
    }

    ghost function Snapshot(): Wait<T>
      reads this
    {
      Wait(signal, listening, timer, outcome)
    }

    constructor (s: Signal, now: nat)
      ensures Valid() && Snapshot() == Begun(s, now)
    {
      signal, settled, outcome := s, false, None;
      listening := true;
      timer := s.deadline.Some?;
      new;
      if Stopped(s, now) { Settle(Interrupted); }
    }

    /** Both the closure fail and the settling half of the result callback. */
    method Settle(o: Outcome<T>)
      requires Valid()
      modifies this
      ensures Valid() && signal == old(signal)
      ensures Snapshot() == if old(settled) then old(Snapshot()) else Ended(old(Snapshot()), o)
    {
      if settled { return; }
      settled := true;
      listening, timer := false, false;
      outcome := Some(o);
    }

    method OnFulfilled(result: T, now: nat)
      requires Valid()
      modifies this
      ensures Valid() && Snapshot() == React(old(Snapshot()), Fulfils(result, now))
    {
      if settled { return; }
      if Stopped(signal, now) {
        Settle(Interrupted);
      } else {
        Settle(Resolved(result));
      }
    }

    method OnRejected(now: nat)
      requires Valid()
      modifies this
      ensures Valid() && Snapshot() == React(old(Snapshot()), Rejects(now))
    {
      Settle(Refused);
    }

    method OnAbort(now: nat)
      requires Valid()
      modifies this
      ensures Valid() && Snapshot() == React(old(Snapshot()), Aborts(now))
    {
      signal := signal.(aborted := true);
      if listening { Settle(Interrupted); }
    }

    method OnTimer(now: nat)
      requires Valid()
      modifies this
      ensures Valid() && Snapshot() == React(old(Snapshot()), TimerFires(now))
    {
      if timer { Settle(Interrupted); }
    }
  }
}
