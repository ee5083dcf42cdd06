/**
 Every step of every request is one run of the retry loop: the rounds a request goes
 through, interrupted by whatever else happens, are rounds of the loop of core.ts, and a
 request leaves a step only as that loop does.
 */
module RequestLoops {
  import opened Buffers
  import opened Operations
  import opened RequestProtocol
  import D = DataEngine
  import R = Retry

  /** Where the retry loop of the step under way stands, by the rounds it has behind it. */
  function LoopOf(r: Request): R.Loop<bool>
    requires !r.phase.Done? && ValidStep(r, r.phase.step)
  {
    R.Looped(r.steps[r.phase.step], r.retry, r.rounds)
  }

  /** The round that is over but for its pause stands between two attempts. */
  ghost predicate PauseFits(r: Request)
    requires r.phase.Pausing? && ValidStep(r, r.phase.step)
  {
    var o, a, round := r.steps[r.phase.step], r.phase.attempt, r.phase.failed;
    && a >= 1 && LoopOf(r) == R.Going(a - 1)
    && R.Pause(o, r.retry, a - 1) > 0 && R.Sound(round)
    && R.Turn(o, r.retry, a - 1, round) == R.Going(a)
    && R.Turn(o, r.retry, a - 1, round.(pauseAborted := true)) == R.Over(R.Halted)
  }

  /** The rounds of the step under way are those of a retry loop that has come to the attempt at hand. */
  ghost predicate RoundsFit(r: Request) {
    && (forall x | x in r.rounds :: R.Sound(x))
    && (!r.phase.Done? && !ValidStep(r, r.phase.step) ==> r.rounds == [])
    && (!r.phase.Done? && ValidStep(r, r.phase.step) ==>
          if r.phase.Pausing? then PauseFits(r) else LoopOf(r) == R.Going(r.phase.attempt))
  }

  /** One call of the plugin for every round behind, and one for the round under way once it has called. */
  ghost predicate CallsFit(w: World, id: Id) {
    && (id !in w.requests ==> forall step :: w.calls[(id, step)] == 0)
    && (id in w.requests && !w.requests[id].phase.Done? ==>
          var r := w.requests[id];
          && w.calls[(id, r.phase.step)] == |r.rounds| + (if r.phase.Ready? then 0 else 1)
          && forall step | step > r.phase.step :: w.calls[(id, step)] == 0)
  }

  ghost predicate LoopFits(w: World, id: Id) {
    CallsFit(w, id) && (id in w.requests ==> RoundsFit(w.requests[id]))
  }

  // ------------------------------------------------------------ what an event does to a request

  /**
   The round of the retry loop an event completes, or all of it but its pause: what the
   wait came to and what the catch block sees of the signal, the stop seen before the call,
   the error of a call that throws, or the end of the pause.
   */
  function Made(r: Request, now: nat, e: Event): Option<R.Round<bool>> {
    match e
    case Resumes(_) =>
      if r.phase.Awaiting? && WaitOf(r.phase.race).outcome.Some?
      then Some(R.RoundOf(r.phase.race.signal, r.phase.race.start, r.phase.race.heard, now)) else None
    case Attempt(_, call, took, aborted) =>
      if Stopped(r.signal, now) then Some(R.Round(true, Interrupted, true, false))
      else if call.Throws? then Some(R.Round(false, Refused, Stopped(Aborted(r, aborted).signal, now + took), false))
      else None
    case Abort(_) => if r.phase.Pausing? then Some(r.phase.failed.(pauseAborted := true)) else None
    case PauseEnds(_) => if r.phase.Pausing? then Some(r.phase.failed) else None
    case _ => None
  }

  /**
   The request goes where the retry loop goes with this round: to its pause or its next
   attempt, and when the loop is over to the next step or its end. It goes on only when the
   loop succeeded with a usable value, and ends well only when no stop is seen after that.
   */
  ghost predicate Follows(r: Request, r': Request, round: R.Round<bool>)
    requires !r.phase.Done? && ValidStep(r, r.phase.step)
  {
    var step, o, all := r.phase.step, r.steps[r.phase.step], r.rounds + [round];
    match R.Looped(o, r.retry, all)
    case Going(n) =>
      if !r.phase.Pausing? && n > 0 && R.Pause(o, r.retry, n - 1) > 0
      then r'.phase == Pausing(step, n, round) && r'.rounds == r.rounds
      else r'.phase == Ready(step, n) && r'.rounds == all
    case Over(result) =>
      if result == R.Succeeded(true) && step + 1 < |r.steps|
      then r'.phase == Ready(step + 1, 0) && r'.rounds == []
      else r'.phase == Done(result == R.Succeeded(true) && !round.stoppedAfter) && r'.rounds == all
  }

  /** What the wait of a request hears of an event. */
  function Heard(r: Request, now: nat, e: Event): seq<Happening<bool>>
    requires r.phase.Awaiting?
  {
    match e
    case PromiseSettles(_, promise, how) =>
      if promise != r.phase.promise then []
      else if how.Fulfilled? then [Fulfils(how.usable, now)]
      else [Rejects(now)]
    case Abort(_) => [Aborts(now)]
    case DeadlineFires(_) => [TimerFires(now)]
    case _ => []
  }

  /** Whether the event aborts the signal: a plugin that is not called aborts nothing. */
  predicate Aborting(r: Request, now: nat, e: Event) {
    e.Abort?
    || (e.Attempt? && e.abortedMeanwhile && !r.phase.Done? && ValidStep(r, r.phase.step) && !Stopped(r.signal, now))
  }

  /** What an event of a request makes of it, by the retry loop and the race of its wait. */
  ghost predicate Continues(r: Request, now: nat, r': Request, e: Event) {
    && SameSteps(r, r') && r'.signal == Aborted(r, Aborting(r, now, e)).signal
    && if r.phase.Done? then r'.phase == r.phase && r'.rounds == r.rounds
       else if e.Quit? || (e.Attempt? && !ValidStep(r, r.phase.step)) then
         r'.phase == Done(false) && r'.rounds == r.rounds
       else if Made(r, now, e).Some? then ValidStep(r, r.phase.step) && Follows(r, r', Made(r, now, e).value)
       else
         && r'.rounds == r.rounds
         && if e.Attempt? then
              r'.phase == Awaiting(r.phase.step, r.phase.attempt, e.call.promise, Waiting(r'.signal, now + e.took, []))
            else if r.phase.Awaiting? then
              r'.phase == r.phase.(race := r.phase.race.(heard := r.phase.race.heard + Heard(r, now, e)))
            else r'.phase == r.phase
  }

  /** After an event a request is as the event makes it; other requests stay as they are. */
  ghost predicate GoesOn(w: World, e: Event, id: Id)
    requires Enabled(w, e)
  {
    id in w.requests ==>
      && id in Next(w, e).requests
      && if Concerns(e, id) then Continues(w.requests[id], w.now, Next(w, e).requests[id], e)
         else Next(w, e).requests[id] == w.requests[id]
  }

  // ------------------------------------------------------------------ the loop of a step goes on

  lemma LoopGoesOn(r: Request, round: R.Round<bool>)
    requires !r.phase.Done? && ValidStep(r, r.phase.step) && LoopOf(r).Going?
    ensures R.Looped(r.steps[r.phase.step], r.retry, r.rounds + [round])
         == R.Turn(r.steps[r.phase.step], r.retry, LoopOf(r).attempt, round)
  {
    R.LoopedSnoc(r.steps[r.phase.step], r.retry, r.rounds, round);
  }

  /** The phase under way of a request, seen from its loop. */
  ghost predicate InLoop(r: Request, step: nat, attempt: nat) {
    && !r.phase.Done? && !r.phase.Pausing? && r.phase.step == step
    && ValidStep(r, step) && LoopOf(r) == R.Going(attempt)
  }

  lemma FailureFollows(w: World, id: Id, step: nat, attempt: nat, awaited: Outcome<bool>)
    requires id in w.requests && InLoop(w.requests[id], step, attempt) && !awaited.Resolved?
    ensures var w', r := AfterFailure(w, id, step, attempt, awaited), w.requests[id];
      && id in w'.requests && SameSteps(r, w'.requests[id]) && w'.requests[id].signal == r.signal
      && Follows(r, w'.requests[id], Caught(w, id, awaited))
  {
    hide Finish, Stopped, R.Looped, R.ValidOptions, R.Pause;
    LoopGoesOn(w.requests[id], Caught(w, id, awaited));
    EndIs(w, id, Caught(w, id, awaited), false);
  }

  lemma SuccessFollows(w: World, id: Id, step: nat, attempt: nat, usable: bool)
    requires id in w.requests && InLoop(w.requests[id], step, attempt)
    ensures var w', r := AfterSuccess(w, id, step, usable), w.requests[id];
      && id in w'.requests && SameSteps(r, w'.requests[id]) && w'.requests[id].signal == r.signal
      && Follows(r, w'.requests[id], Caught(w, id, Resolved(usable)))
  {
    hide Finish, Stopped, R.Looped, R.ValidOptions, R.Pause;
    var round := Caught(w, id, Resolved(usable));
    LoopGoesOn(w.requests[id], round);
    EndIs(w, id, round, false);
    EndIs(w, id, round, !Stopped(w.requests[id].signal, w.now));
  }

  /** What the loop makes of a round does not depend on the signal. */
  lemma FollowsAlike(r: Request, r1: Request, r': Request, round: R.Round<bool>)
    requires !r.phase.Done? && ValidStep(r, r.phase.step) && r1 == r.(signal := r1.signal)
    requires Follows(r1, r', round)
    ensures Follows(r, r', round)
  {
    hide R.Looped, R.Pause, R.ValidOptions;
  }

  lemma StoppedTurn(r: Request, round: R.Round<bool>)
    requires !r.phase.Done? && ValidStep(r, r.phase.step) && LoopOf(r).Going? && round.stoppedBefore
    ensures R.Turn(r.steps[r.phase.step], r.retry, LoopOf(r).attempt, round) == R.Over(R.Halted)
  {
  }

  lemma AttemptContinues(w: World, id: Id, call: Call, took: nat, aborted: bool)
    requires Enabled(w, Attempt(id, call, took, aborted)) && LoopFits(w, id)
    ensures GoesOn(w, Attempt(id, call, took, aborted), id)
  {
    hide Finish, Logged, AfterCall, Called, Aborted, Follows, Stopped, R.Looped, R.ValidOptions, R.Pause, D.HistoryOf;
    SameUnlessAborted(w.requests[id]);
    var p := w.requests[id].phase;
    if !ValidStep(w.requests[id], p.step) {
      FinishIs(w, id, false);
    } else if Stopped(w.requests[id].signal, w.now) {
      StoppedFollows(w, id);
    } else if call.Returns? {
      ReturnWaits(w, id, took, aborted, call.promise);
    } else {
      ThrowFollows(w, id, took, aborted);
    }
  }

  lemma SameUnlessAborted(r: Request)
    ensures Aborted(r, false) == r
  {
  }

  /** A call that returns a promise begins a wait. */
  lemma ReturnWaits(w: World, id: Id, took: nat, aborted: bool, promise: D.Work)
    requires id in w.requests && w.requests[id].phase.Ready? && ValidStep(w.requests[id], w.requests[id].phase.step)
    ensures var r, p := w.requests[id], w.requests[id].phase;
      var w' := AfterCall(Called(w, id, p.step, took, aborted), id, p.step, p.attempt, Returns(promise));
      var signal := Aborted(r, aborted).signal;
      && id in w'.requests
      && w'.requests[id] == r.(signal := signal,
           phase := Awaiting(p.step, p.attempt, promise, Waiting(signal, w.now + took, [])))
  {
    hide R.ValidOptions, D.Next;
  }

  /** The error of a call that throws is caught. */
  lemma ThrowFollows(w: World, id: Id, took: nat, aborted: bool)
    requires id in w.requests && w.requests[id].phase.Ready? && LoopFits(w, id)
    requires ValidStep(w.requests[id], w.requests[id].phase.step)
    ensures var r, p := w.requests[id], w.requests[id].phase;
      var w' := AfterCall(Called(w, id, p.step, took, aborted), id, p.step, p.attempt, Throws);
      var signal := Aborted(r, aborted).signal;
      && id in w'.requests && SameSteps(r, w'.requests[id]) && w'.requests[id].signal == signal
      && Follows(r, w'.requests[id], R.Round(false, Refused, Stopped(signal, w.now + took), false))
  {
    hide AfterFailure, Follows, Stopped, R.Looped, R.ValidOptions, R.Pause;
    var r, p := w.requests[id], w.requests[id].phase;
    var called := Called(w, id, p.step, took, aborted);
    FailureFollows(called, id, p.step, p.attempt, Refused);
    FollowsAlike(r, called.requests[id], AfterFailure(called, id, p.step, p.attempt, Refused).requests[id],
                 Caught(called, id, Refused));
  }

  /** A stop seen before the call. */
  lemma StoppedFollows(w: World, id: Id)
    requires id in w.requests && w.requests[id].phase.Ready? && LoopFits(w, id)
    requires ValidStep(w.requests[id], w.requests[id].phase.step)
    ensures var r, round := w.requests[id], R.Round(true, Interrupted, true, false);
      var w' := Finish(Logged(w, id, round), id, false);
      && id in w'.requests && SameSteps(r, w'.requests[id]) && w'.requests[id].signal == r.signal
      && Follows(r, w'.requests[id], round)
  {
    hide Finish, R.Looped, R.Turn, R.ValidOptions, R.Pause;
    var r, round := w.requests[id], R.Round(true, Interrupted, true, false);
    StoppedTurn(r, round);
    LoopGoesOn(r, round);
    EndIs(w, id, round, false);
  }

  /** The round a wait makes, as the code after it finds it. */
  lemma WaitEnds(w: World, limits: D.CheckedLimits, id: Id) returns (o: Outcome<bool>)
    requires Inv(w, limits) && Enabled(w, Resumes(id))
    ensures WaitOf(w.requests[id].phase.race).outcome == Some(o)
    ensures Made(w.requests[id], w.now, Resumes(id)) == Some(Caught(w, id, o)) && R.Sound(Caught(w, id, o))
  {
    hide Inv, Running, Orderly, Stopped, Answered, D.HistoryOf;
    RunningRequest(w, limits, id);
    var x := w.requests[id].phase.race;
    o := WaitOf(x).outcome.value;
    R.RoundsAreSound(x.signal, x.start, x.heard, w.now);
  }

  lemma ResumeContinues(w: World, limits: D.CheckedLimits, id: Id)
    requires Inv(w, limits) && Enabled(w, Resumes(id)) && LoopFits(w, id)
    ensures GoesOn(w, Resumes(id), id)
  {
    hide Inv, AfterFailure, AfterSuccess, Follows, Made, Caught, WaitOf, R.Looped, R.Turn, R.ValidOptions, R.Pause;
    var p := w.requests[id].phase;
    var o := WaitEnds(w, limits, id);
    if o.Resolved? {
      SuccessFollows(w, id, p.step, p.attempt, o.value);
    } else {
      FailureFollows(w, id, p.step, p.attempt, o);
    }
  }

  /** An abort, during a pause or not, and the end of a pause. */
  lemma PauseContinues(w: World, e: Event)
    requires (e.Abort? || e.PauseEnds?) && Enabled(w, e) && LoopFits(w, e.id)
    ensures GoesOn(w, e, e.id)
  {
    hide Finish, R.Looped, R.Turn, R.ValidOptions, R.Pause, D.HistoryOf;
    var id, r := e.id, w.requests[e.id];
    if r.phase.Pausing? {
      var round := r.phase.failed.(pauseAborted := true);
      LoopGoesOn(r, if e.Abort? then round else r.phase.failed);
      EndIs(Ran(w, id, 0, true), id, round, false);
      LoggedIs(w, id, r.phase.failed);
    }
  }

  /** Answers, timers and giving up between waits leave the loop where it is. */
  lemma OtherContinues(w: World, e: Event)
    requires (e.PromiseSettles? || e.DeadlineFires? || e.Quit?) && Enabled(w, e) && e.id in w.requests
    ensures GoesOn(w, e, e.id)
  {
    hide Finish, Follows, R.ValidOptions, D.HistoryOf, D.Next, D.Outstanding;
    FinishIs(w, e.id, false);
    var r := w.requests[e.id];
    if r.phase.Awaiting? { assert r.phase.race.heard + [] == r.phase.race.heard; }
  }

  // ---------------------------------------------------------------------- the invariant

  /** Where a round leads from a fitting request, the rounds fit again. */
  lemma FollowsFits(r: Request, r': Request, round: R.Round<bool>)
    requires RoundsFit(r) && !r.phase.Done? && ValidStep(r, r.phase.step) && SameSteps(r, r')
    requires R.Sound(round) && (!r.phase.Pausing? ==> !round.pauseAborted) && Follows(r, r', round)
    ensures RoundsFit(r')
  {
    hide R.Looped, R.ValidOptions, R.Pause;
    LoopGoesOn(r, round);
    NoRoundsYet(r');
  }

  lemma NoRoundsYet(r: Request)
    ensures !r.phase.Done? && ValidStep(r, r.phase.step) && r.rounds == [] ==> LoopOf(r) == R.Going(0)
  {
  }

  lemma RoundsStayFit(r: Request, now: nat, r': Request, e: Event)
    requires RoundsFit(r) && Continues(r, now, r', e) && (e.Attempt? ==> r.phase.Ready?)
    requires Made(r, now, e).Some? ==> R.Sound(Made(r, now, e).value)
    ensures RoundsFit(r')
  {
    hide Follows, Stopped, WaitOf, Heard, R.Looped, R.Turn, R.ValidOptions, R.Pause;
    if !r.phase.Done? && !e.Quit? && ValidStep(r, r.phase.step) && Made(r, now, e).Some? {
      FollowsFits(r, r', Made(r, now, e).value);
    }
  }

  /** The plugin is called once by an attempt that gets that far, and by nothing else. */
  lemma CallsMove(w: World, e: Event, id: Id)
    requires Enabled(w, e) && Concerns(e, id) && id in w.requests && !e.Begin?
    ensures var r := w.requests[id];
      Next(w, e).calls == if e.Attempt? && ValidStep(r, r.phase.step) && !Stopped(r.signal, w.now)
        then w.calls + multiset{(id, r.phase.step)} else w.calls
  {
    if e.Attempt? {
      hide AfterCall, Finish, Logged, Stopped, D.HistoryOf, R.ValidOptions;
      var p := w.requests[id].phase;
      FinishIs(w, id, false);
      EndIs(w, id, R.Round(true, Interrupted, true, false), false);
      if ValidStep(w.requests[id], p.step) {
        CallIs(Called(w, id, p.step, e.took, e.abortedMeanwhile), id, p.step, p.attempt, e.call);
      }
    } else {
      hide Next, Enabled;
      OtherwiseIs(w, e, id);
    }
  }

  /** Rounds behind a request and under way: an event adds one exactly when it calls the plugin. */
  lemma RoundsBehind(r: Request, now: nat, r': Request, e: Event)
    requires Continues(r, now, r', e) && !r.phase.Done? && (e.Attempt? ==> r.phase.Ready?) && RoundsFit(r)
    ensures r'.phase.Done? || (r'.phase == Ready(r.phase.step + 1, 0) && r'.rounds == [])
      || (&& r'.phase.step == r.phase.step
          && |r'.rounds| + (if r'.phase.Ready? then 0 else 1) == |r.rounds| + (if r.phase.Ready? then 0 else 1)
               + (if e.Attempt? && ValidStep(r, r.phase.step) && !Stopped(r.signal, now) then 1 else 0))
  {
    hide Stopped, WaitOf, Heard, RoundsFit, Follows, R.RoundOf, R.Looped, R.ValidOptions;
    if e.Quit? || (e.Attempt? && !ValidStep(r, r.phase.step)) {
    } else if Made(r, now, e).Some? {
      FollowsBehind(r, r', Made(r, now, e).value);
      if e.Attempt? && Stopped(r.signal, now) { StoppedGoesNowhere(r); }
    }
  }

  lemma FollowsBehind(r: Request, r': Request, round: R.Round<bool>)
    requires !r.phase.Done? && ValidStep(r, r.phase.step) && Follows(r, r', round)
    ensures r'.phase.Done? || (r'.phase == Ready(r.phase.step + 1, 0) && r'.rounds == [])
      || (&& R.Looped(r.steps[r.phase.step], r.retry, r.rounds + [round]).Going?
          && r'.phase.step == r.phase.step && |r'.rounds| + (if r'.phase.Ready? then 0 else 1) == |r.rounds| + 1)
  {
    hide R.Looped, R.ValidOptions, R.Pause;
  }

  lemma StoppedGoesNowhere(r: Request)
    requires RoundsFit(r) && r.phase.Ready? && ValidStep(r, r.phase.step)
    ensures R.Looped(r.steps[r.phase.step], r.retry, r.rounds + [R.Round(true, Interrupted, true, false)]).Over?
  {
    hide R.Looped, R.Turn, R.ValidOptions, R.Pause;
    StoppedTurn(r, R.Round(true, Interrupted, true, false));
    LoopGoesOn(r, R.Round(true, Interrupted, true, false));
  }

  lemma CallsStayFit(w: World, e: Event, id: Id)
    requires Enabled(w, e) && Concerns(e, id) && id in w.requests && !e.Begin?
    requires LoopFits(w, id) && GoesOn(w, e, id)
    ensures CallsFit(Next(w, e), id)
  {
    CallsMove(w, e, id);
    var r := w.requests[id];
    assert e.Attempt? ==> r.phase.Ready?;
    hide Next, Enabled, RoundsFit, Continues, Stopped, R.ValidOptions;
    if !r.phase.Done? {
      RoundsBehind(r, w.now, Next(w, e).requests[id], e);
    } else {
      DoneStays(r, w.now, Next(w, e).requests[id], e);
    }
  }

  lemma DoneStays(r: Request, now: nat, r': Request, e: Event)
    requires Continues(r, now, r', e) && r.phase.Done?
    ensures r'.phase == r.phase
  {
  }

  lemma MadeIsSound(w: World, limits: D.CheckedLimits, e: Event, id: Id)
    requires Inv(w, limits) && Enabled(w, e) && Concerns(e, id) && id in w.requests && RoundsFit(w.requests[id])
    ensures var made := Made(w.requests[id], w.now, e); made.Some? ==> R.Sound(made.value)
  {
    hide Inv, WaitOf, Stopped, R.Looped, R.ValidOptions, R.Pause, D.HistoryOf;
    if e.Resumes? { var o := WaitEnds(w, limits, id); }
  }

  lemma BeginLoop(w: World, limits: D.CheckedLimits, id: Id, steps: seq<R.RetryOptions>, signal: Signal)
    requires Inv(w, limits) && Enabled(w, Begin(id, steps, signal)) && LoopFits(w, id)
    ensures LoopFits(Next(w, Begin(id, steps, signal)), id) && id !in w.requests
  {
    assert Known(w, D.HistoryOf(w.trace), id);
    hide Inv, D.HistoryOf, D.Next, D.CanStart, R.ValidOptions;
  }

  /**
   A request begins exactly when its signal is neither aborted nor past its deadline and a
   slot is free: with its steps, the engine's retry limits, and nothing called yet.
   */
  lemma BeginsExactly(w: World, limits: D.CheckedLimits, id: Id, steps: seq<R.RetryOptions>, signal: Signal)
    requires Inv(w, limits) && Enabled(w, Begin(id, steps, signal))
    ensures var w' := Next(w, Begin(id, steps, signal)); var l := w.engine.limits;
      && id !in w.requests && w'.calls == w.calls && w'.now == w.now
      && (id in w'.requests <==>
            && !signal.aborted && (signal.deadline.Some? ==> w.now < signal.deadline.value)
            && |w.engine.active| < l.maxConcurrentOperations)
      && (id in w'.requests ==>
            var r := w'.requests[id];
            && r.steps == steps && r.signal == signal && r.phase == Ready(0, 0) && r.rounds == []
            && r.retry.maxRetryAttempts == l.maxRetryAttempts && r.retry.maxRetryDelayMs == l.maxRetryDelayMs)
  {
    assert Known(w, D.HistoryOf(w.trace), id);
    StopTimes(signal, w.now);
    hide Inv, Stopped, D.HistoryOf, R.ValidOptions;
  }

  lemma NextGoesOn(w: World, limits: D.CheckedLimits, e: Event, id: Id)
    requires Inv(w, limits) && Enabled(w, e) && LoopFits(w, id)
    ensures GoesOn(w, e, id)
  {
    hide Inv, Next, LoopFits, Continues;
    if !Concerns(e, id) {
      OthersUntouched(w, e, id);
    } else if id in w.requests {
      match e
      case Begin(_, steps, signal) => BeginLoop(w, limits, id, steps, signal);
      case Attempt(_, call, took, aborted) => AttemptContinues(w, id, call, took, aborted);
      case Resumes(_) => ResumeContinues(w, limits, id);
      case Abort(_) => PauseContinues(w, e);
      case PauseEnds(_) => PauseContinues(w, e);
      case PromiseSettles(_, _, _) => OtherContinues(w, e);
      case DeadlineFires(_) => OtherContinues(w, e);
      case Quit(_) => OtherContinues(w, e);
    }
  }

  lemma NextKeepsLoop(w: World, limits: D.CheckedLimits, e: Event, id: Id)
    requires Inv(w, limits) && Enabled(w, e) && LoopFits(w, id)
    ensures LoopFits(Next(w, e), id)
  {
    hide Inv, Next, RoundsFit, CallsFit, Continues;
    NextGoesOn(w, limits, e, id);
    if !Concerns(e, id) {
      ElsewhereFits(w, e, id);
    } else if e.Begin? {
      BeginLoop(w, limits, id, e.steps, e.signal);
    } else {
      Present(w, e);
      var r := w.requests[id];
      assert e.Attempt? ==> r.phase.Ready?;
      hide Enabled;
      CallsStayFit(w, e, id);
      MadeIsSound(w, limits, e, id);
      RoundsStayFit(r, w.now, Next(w, e).requests[id], e);
    }
  }

  lemma Present(w: World, e: Event)
    requires Enabled(w, e) && !e.Tick? && !e.Configure? && !e.Begin?
    ensures e.id in w.requests
  {
  }

  lemma ElsewhereFits(w: World, e: Event, id: Id)
    requires Enabled(w, e) && LoopFits(w, id) && !Concerns(e, id)
    ensures LoopFits(Next(w, e), id)
  {
    hide Next, Enabled, RoundsFit;
    OthersUntouched(w, e, id);
  }

  lemma {:induction false} RunKeepsLoop(w: World, limits: D.CheckedLimits, events: seq<Event>, id: Id)
    requires Inv(w, limits) && Legal(w, events) && LoopFits(w, id)
    ensures LoopFits(Run(w, events), id)
    decreases |events|
  {
    hide Inv, Enabled, Next, LoopFits;
    if events != [] {
      NextKeepsLoop(w, limits, events[0], id);
      NextKeepsInv(w, limits, events[0]);
      RunKeepsLoop(Next(w, events[0]), limits, events[1..], id);
    }
  }

  /**
   Over all runs, a request in a step stands where the retry loop stands after its rounds,
   with one plugin call a round and one for the attempt under way; and every further event
   makes of it what the loop makes of the round the event completes.
   */
  lemma StepsAreRetryLoops(limits: D.CheckedLimits, events: seq<Event>, e: Event, id: Id)
    requires Legal(Fresh(limits), events) && Enabled(Run(Fresh(limits), events), e)
    ensures LoopFits(Run(Fresh(limits), events), id) && GoesOn(Run(Fresh(limits), events), e, id)
  {
    var start := Fresh(limits);
    FreshKeepsInv(limits);
    assert LoopFits(start, id);
    hide Inv, Next, Enabled, LoopFits, GoesOn;
    RunKeepsInv(start, limits, events);
    RunKeepsLoop(start, limits, events, id);
    NextGoesOn(Run(start, events), limits, e, id);
  }
}
