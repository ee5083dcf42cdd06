/**
 A request whose signal has stopped comes to its end: whatever happens, at most two more
 turns of its own code are owed, none of them waits for a plugin, and one is always due.
 */
module RequestCompletion {
  import opened Buffers
  import opened Operations
  import opened RequestLoops
  import opened RequestProtocol
  import D = DataEngine
  import R = Retry

  /** The turns a request whose signal has stopped still has to take. */
  function Owed(r: Request): nat {
    match r.phase
    case Done(_) => 0
    case Ready(_, _) => 1
    case Pausing(_, _, _) => 2
    case Awaiting(_, _, _, race) =>
      var outcome := WaitOf(race).outcome;
      if outcome.None? || outcome == Some(Resolved(true)) then 2 else 1
  }

  /** The turns of a request's own code, and the timer that ends an open wait. */
  predicate Pays(r: Request, e: Event) {
    e.Attempt? || e.Resumes? || e.PauseEnds?
    || (e.DeadlineFires? && r.phase.Awaiting? && WaitOf(r.phase.race).outcome.None?)
  }

  /** The turn that is due; an attempt finds the signal stopped before it calls anything. */
  function Due(r: Request, id: Id): Event {
    match r.phase
    case Done(_) => Tick(0)
    case Ready(_, _) => Attempt(id, Throws, 0, false)
    case Pausing(_, _, _) => PauseEnds(id)
    case Awaiting(_, _, _, race) => if WaitOf(race).outcome.None? then DeadlineFires(id) else Resumes(id)
  }

  /** Under a stopped signal an open wait ends without a value, and an ended one stays. */
  lemma HearingEnds(r: Request, now: nat, e: Happening<bool>)
    requires r.phase.Awaiting? && WaitOf(r.phase.race).signal == r.signal && Stopped(r.signal, now) && e.now == now
    requires e.TimerFires? ==> PastDeadline(r.signal, now)
    ensures var x := r.phase.race; var before := WaitOf(x).outcome;
      var after := WaitOf(x.(heard := x.heard + [e])).outcome;
      if before.Some? then after == before else after.Some? && !after.value.Resolved?
  {
    hide Race, PastDeadline;
    var x := r.phase.race;
    NothingLeaks(x.signal, x.start, x.heard);
    RaceSnoc(x.signal, x.start, x.heard, e);
    SameDeadlines(x, r.signal, now);
  }

  lemma SameDeadlines(x: Waiting, signal: Signal, now: nat)
    requires WaitOf(x).signal == signal
    ensures signal.deadline == x.signal.deadline
    ensures PastDeadline(signal, now) ==> signal.deadline.Some?
  {
    SignalHistory(x.signal, x.start, x.heard);
  }

  lemma OutcomeMade(r: Request, now: nat, e: Event)
    requires e.Resumes? && Made(r, now, e).Some? && Stopped(r.signal, now)
    requires r.phase.Awaiting? ==> WaitOf(r.phase.race).signal == r.signal
    ensures var round := Made(r, now, e).value;
      && r.phase.Awaiting? && WaitOf(r.phase.race).outcome == Some(round.awaited)
      && !round.stoppedBefore && round.stoppedAfter
  {
    hide Stopped;
  }

  /** A round made under a stopped signal leads to the end, but for a usable value and the end of a pause. */
  lemma MadeEnds(r: Request, now: nat, e: Event)
    requires !r.phase.Done? && ValidStep(r, r.phase.step) && RoundsFit(r) && Stopped(r.signal, now)
    requires Made(r, now, e).Some? && !e.PauseEnds? && (e.Attempt? ==> r.phase.Ready?)
    requires r.phase.Awaiting? ==> WaitOf(r.phase.race).signal == r.signal
    ensures var round := Made(r, now, e).value;
      var end := R.Looped(r.steps[r.phase.step], r.retry, r.rounds + [round]);
      end.Over? && (end.result == R.Succeeded(true) ==> e.Resumes? && round.awaited == Resolved(true))
  {
    hide Stopped, WaitOf, R.RoundOf, R.Looped, R.ValidOptions, R.Pause;
    if e.Resumes? { OutcomeMade(r, now, e); }
    LoopGoesOn(r, Made(r, now, e).value);
  }

  /** A round that is made pays. */
  lemma MadePays(r: Request, now: nat, r': Request, e: Event)
    requires !r.phase.Done? && ValidStep(r, r.phase.step) && RoundsFit(r) && Stopped(r.signal, now)
    requires Made(r, now, e).Some? && Follows(r, r', Made(r, now, e).value) && (e.Attempt? ==> r.phase.Ready?)
    requires r.phase.Awaiting? ==> WaitOf(r.phase.race).signal == r.signal
    ensures Owed(r') < Owed(r)
  {
    if e.PauseEnds? {
      hide Stopped, R.Looped, R.ValidOptions, R.Pause;
      LoopGoesOn(r, r.phase.failed);
    } else {
      MadeEnds(r, now, e);
      if e.Resumes? { OutcomeMade(r, now, e); }
      hide Made, Stopped, WaitOf, R.Looped, R.Turn, R.ValidOptions, R.Pause;
    }
  }

  /** What an event that makes no round leaves of a request under a stopped signal. */
  lemma OthersPay(r: Request, now: nat, r': Request, e: Event)
    requires !r.phase.Done? && Stopped(r.signal, now) && Continues(r, now, r', e)
    requires !e.Quit? && !e.Attempt? && Made(r, now, e).None?
    requires e.DeadlineFires? ==> r.phase.Awaiting? && PastDeadline(r.signal, now)
    requires e.Resumes? ==> r.phase.Awaiting? && WaitOf(r.phase.race).outcome.Some?
    requires e.PauseEnds? ==> r.phase.Pausing?
    requires r.phase.Awaiting? ==> WaitOf(r.phase.race).signal == r.signal
    ensures Owed(r') <= Owed(r) && (Pays(r, e) ==> Owed(r') < Owed(r))
  {
    hide Stopped, PastDeadline, WaitOf, Follows, R.ValidOptions;
    if r.phase.Awaiting? {
      var heard := Heard(r, now, e);
      if heard == [] {
        assert r.phase.race.heard + heard == r.phase.race.heard;
      } else {
        HearingEnds(r, now, heard[0]);
        assert heard == [heard[0]];
      }
    }
  }

  /** One event of a stopped request, by what it does to it. */
  lemma EventPays(r: Request, now: nat, r': Request, e: Event)
    requires Stopped(r.signal, now) && RoundsFit(r) && Continues(r, now, r', e)
    requires e.Attempt? ==> r.phase.Ready?
    requires e.DeadlineFires? ==> r.phase.Awaiting? && PastDeadline(r.signal, now)
    requires e.Resumes? ==> r.phase.Awaiting? && WaitOf(r.phase.race).outcome.Some?
    requires e.PauseEnds? ==> r.phase.Pausing?
    requires r.phase.Awaiting? ==> WaitOf(r.phase.race).signal == r.signal
    ensures Owed(r') <= Owed(r) && (Pays(r, e) ==> Owed(r') < Owed(r))
  {
    hide Stopped, PastDeadline, WaitOf, RoundsFit, Follows, Heard, R.ValidOptions, R.RoundOf;
    if r.phase.Done? {
    } else if e.Quit? || (e.Attempt? && !ValidStep(r, r.phase.step)) {
    } else if Made(r, now, e).Some? {
      MadePays(r, now, r', e);
    } else {
      OthersPay(r, now, r', e);
    }
  }

  lemma RaceOfWait(w: World, limits: D.CheckedLimits, id: Id)
    requires Inv(w, limits) && id in w.requests && !w.requests[id].phase.Done?
    ensures var r := w.requests[id];
      && r.phase.step < |r.steps| && (!r.phase.Ready? ==> ValidStep(r, r.phase.step))
      && (r.phase.Awaiting? ==> WaitOf(r.phase.race).signal == r.signal)
  {
    hide Running, Orderly, WaitOf, Answered, D.HistoryOf, D.Outstanding;
    RunningRequest(w, limits, id);
  }

  lemma NextPays(w: World, limits: D.CheckedLimits, e: Event, id: Id)
    requires Inv(w, limits) && LoopFits(w, id) && Enabled(w, e)
    requires id in w.requests && Stopped(w.requests[id].signal, w.now)
    ensures id in Next(w, e).requests && Stopped(Next(w, e).requests[id].signal, Next(w, e).now)
    ensures var r, r' := w.requests[id], Next(w, e).requests[id];
      Owed(r') <= Owed(r) && (Concerns(e, id) && Pays(r, e) ==> Owed(r') < Owed(r))
  {
    hide Inv, Next, Owed, WaitOf, Continues, Stopped, PastDeadline, RoundsFit, R.ValidOptions,
      D.HistoryOf, D.Outstanding;
    NextGoesOn(w, limits, e, id);
    StopStays(w, limits, e, id);
    if Concerns(e, id) {
      if !w.requests[id].phase.Done? { RaceOfWait(w, limits, id); }
      if e.Begin? { BeginLoop(w, limits, id, e.steps, e.signal); }
      EventPays(w.requests[id], w.now, Next(w, e).requests[id], e);
    }
  }

  /** An open wait under a stopped signal is past its deadline: an abort would have ended it. */
  lemma OpenIsPastDeadline(r: Request, now: nat)
    requires r.phase.Awaiting? && WaitOf(r.phase.race).signal == r.signal && Stopped(r.signal, now)
    requires WaitOf(r.phase.race).outcome.None?
    ensures PastDeadline(r.signal, now)
  {
    NothingLeaks(r.phase.race.signal, r.phase.race.start, r.phase.race.heard);
  }

  lemma TurnIsDue(w: World, limits: D.CheckedLimits, id: Id)
    requires Inv(w, limits) && id in w.requests && !w.requests[id].phase.Done?
    requires Stopped(w.requests[id].signal, w.now)
    ensures var e := Due(w.requests[id], id);
      Concerns(e, id) && Enabled(w, e) && Pays(w.requests[id], e) && Next(w, e).calls == w.calls
  {
    hide Inv, Next, WaitOf, Stopped, PastDeadline, R.ValidOptions, D.HistoryOf;
    RaceOfWait(w, limits, id);
    var r := w.requests[id];
    if r.phase.Awaiting? && WaitOf(r.phase.race).outcome.None? { OpenIsPastDeadline(r, w.now); }
    var e := Due(r, id);
    if Next(w, e).calls != w.calls { OnlyAttemptsCall(w, e); }
  }

  /** The turns that are due, one after the other. */
  lemma {:induction false} TurnsComplete(w: World, limits: D.CheckedLimits, id: Id) returns (more: seq<Event>)
    requires Inv(w, limits) && LoopFits(w, id)
    requires id in w.requests && Stopped(w.requests[id].signal, w.now)
    ensures |more| <= Owed(w.requests[id]) && Legal(w, more)
    ensures forall e | e in more :: Concerns(e, id) && (e.Attempt? || e.Resumes? || e.PauseEnds? || e.DeadlineFires?)
    ensures id in Run(w, more).requests && Run(w, more).requests[id].phase.Done? && Run(w, more).calls == w.calls
    decreases Owed(w.requests[id])
  {
    hide Inv, Enabled, Next, LoopFits, Stopped, WaitOf, R.ValidOptions;
    more := [];
    if !w.requests[id].phase.Done? {
      var e := Due(w.requests[id], id);
      TurnIsDue(w, limits, id);
      NextPays(w, limits, e, id);
      NextKeepsInv(w, limits, e);
      NextKeepsLoop(w, limits, e, id);
      var rest := TurnsComplete(Next(w, e), limits, id);
      more := [e] + rest;
      assert more[0] == e && more[1..] == rest;
    }
  }

  /**
   In every reachable world a request whose signal has stopped is done within two turns of
   its own code, which call no plugin and wait for none.
   */
  lemma StopCompletes(limits: D.CheckedLimits, events: seq<Event>, id: Id) returns (more: seq<Event>)
    requires Legal(Fresh(limits), events)
    requires var w := Run(Fresh(limits), events); id in w.requests && Stopped(w.requests[id].signal, w.now)
    ensures var w := Run(Fresh(limits), events);
      && |more| <= Owed(w.requests[id]) <= 2 && Legal(w, more)
      && (forall e | e in more :: Concerns(e, id) && (e.Attempt? || e.Resumes? || e.PauseEnds? || e.DeadlineFires?))
      && id in Run(w, more).requests && Run(w, more).requests[id].phase.Done? && Run(w, more).calls == w.calls
  {
    Reachable(limits, events, id);
    hide Inv, LoopFits, Stopped, WaitOf;
    more := TurnsComplete(Run(Fresh(limits), events), limits, id);
  }

  lemma Reachable(limits: D.CheckedLimits, events: seq<Event>, id: Id)
    requires Legal(Fresh(limits), events)
    ensures Inv(Run(Fresh(limits), events), limits) && LoopFits(Run(Fresh(limits), events), id)
  {
    FreshKeepsInv(limits);
    assert LoopFits(Fresh(limits), id);
    hide Inv, LoopFits, Next, Enabled;
    RunKeepsInv(Fresh(limits), limits, events);
    RunKeepsLoop(Fresh(limits), limits, events, id);
  }

  /**
   And no other order keeps it from its end: no event adds to the turns owed, each turn pays
   one, and as long as the request is not done a turn is due.
   */
  lemma StopProgresses(limits: D.CheckedLimits, events: seq<Event>, e: Event, id: Id)
    requires Legal(Fresh(limits), events) && Enabled(Run(Fresh(limits), events), e)
    requires var w := Run(Fresh(limits), events); id in w.requests && Stopped(w.requests[id].signal, w.now)
    ensures var w := Run(Fresh(limits), events); var r := w.requests[id];
      && id in Next(w, e).requests && Stopped(Next(w, e).requests[id].signal, Next(w, e).now)
      && Owed(Next(w, e).requests[id]) <= Owed(r)
      && (Concerns(e, id) && Pays(r, e) ==> Owed(Next(w, e).requests[id]) < Owed(r))
      && (!r.phase.Done? ==> Enabled(w, Due(r, id)) && Concerns(Due(r, id), id) && Pays(r, Due(r, id)))
  {
    Reachable(limits, events, id);
    hide Inv, LoopFits, Next, Stopped, Owed, Pays, Due, Concerns, Enabled;
    var w := Run(Fresh(limits), events);
    NextPays(w, limits, e, id);
    if !w.requests[id].phase.Done? { TurnIsDue(w, limits, id); }
  }
}
