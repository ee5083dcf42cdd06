/**
 Requests of a controller over one engine, interleaved in every way: each goes through
 its steps with retries, each wait is the race of Operations, and a request is released
 while a plugin of it may still be at work. What a wait has come to and the code after it
 are separate events, with anything in between.
 */
module RequestProtocol {
  import opened Buffers
  import opened Operations
  import D = DataEngine
  import R = Retry

  type Id = D.Id
  type Work = D.Work

  /** A wait in progress or ended: the signal and the time it began with, and what it has heard since. */
  datatype Waiting = Waiting(signal: Signal, start: nat, heard: seq<Happening<bool>>)

  function WaitOf(x: Waiting): Wait<bool> { Race(x.signal, x.start, x.heard) }

  /** Step and attempt count from zero; the value awaited tells whether the plugin's output is usable. */
  datatype Phase =
    | Ready(step: nat, attempt: nat)
    | Awaiting(step: nat, attempt: nat, promise: Work, race: Waiting)
    | Pausing(step: nat, attempt: nat, failed: R.Round<bool>)
    | Done(ok: bool)

  /**
   `steps` are the retry options of each step, one a plugin and then the audit record;
   `rounds` are the rounds of the retry loop of the step under way that are over.
   */
  datatype Request = Request(
    steps: seq<R.RetryOptions>,
    retry: R.RetryLimits,
    signal: Signal,
    phase: Phase,
    rounds: seq<R.Round<bool>>)

  predicate ValidStep(r: Request, step: nat) { step < |r.steps| && R.ValidOptions(r.steps[step], r.retry) }

  /** The attempts a step may make: none when its options are refused. */
  function Attempts(r: Request, step: nat): nat
    requires step < |r.steps|
  {
    if ValidStep(r, step) then r.steps[step].attempts else 0
  }

  predicate SameSteps(r: Request, r': Request) { r'.steps == r.steps && r'.retry == r.retry }

  /**
   `trace` is the sequence of everything asked of the engine so far, `calls` counts the
   plugin calls of each request and step.
   */
  datatype World = World(
    engine: D.Engine,
    requests: map<Id, Request>,
    now: nat,
    trace: seq<D.Event>,
    calls: multiset<(Id, nat)>)

  function Fresh(limits: D.CheckedLimits): World { World(D.Created(limits), map[], 0, [], multiset{}) }

  datatype Call = Throws | Returns(promise: Work)
  datatype Settlement = Fulfilled(usable: bool) | Rejected

  datatype Event =
    | Begin(id: Id, steps: seq<R.RetryOptions>, signal: Signal)
    | Attempt(id: Id, call: Call, took: nat, abortedMeanwhile: bool)
    | PromiseSettles(id: Id, promise: Work, how: Settlement)
    | Abort(id: Id)
    | DeadlineFires(id: Id)
    | Resumes(id: Id)
    | PauseEnds(id: Id)
    | Quit(id: Id)
    | Tick(elapsed: nat)
    | Configure(change: D.Event)

  function Emit(w: World, v: D.Event): World { w.(engine := D.Next(w.engine, v), trace := w.trace + [v]) }

  function Put(w: World, id: Id, r: Request): World { w.(requests := w.requests[id := r]) }

  function MoveTo(w: World, id: Id, phase: Phase): World
    requires id in w.requests
  {
    Put(w, id, w.requests[id].(phase := phase))
  }

  /** A wait in progress hears of something; nobody else listens. */
  function Hear(r: Request, e: Happening<bool>): Request {
    if r.phase.Awaiting? then r.(phase := r.phase.(race := r.phase.race.(heard := r.phase.race.heard + [e]))) else r
  }

  /** endRequest or emitError, and the finally block after it. */
  function Finish(w: World, id: Id, ok: bool): World
    requires id in w.requests
  {
    Emit(Emit(MoveTo(w, id, Done(ok)), D.Release(id)), D.Release(id))
  }

  /** A round of the retry loop is over. */
  function Logged(w: World, id: Id, round: R.Round<bool>): World
    requires id in w.requests
  {
    Put(w, id, w.requests[id].(rounds := w.requests[id].rounds + [round]))
  }

  /** The attempt as the catch block finds it. */
  function Caught(w: World, id: Id, awaited: Outcome<bool>): R.Round<bool>
    requires id in w.requests
  {
    R.Round(false, awaited, Stopped(w.requests[id].signal, w.now), false)
  }

  /** The catch block of withRetry: it looks at the signal again before it retries. */
  function AfterFailure(w: World, id: Id, step: nat, attempt: nat, awaited: Outcome<bool>): World
    requires id in w.requests && ValidStep(w.requests[id], step)
  {
    var r, round := w.requests[id], Caught(w, id, awaited);
    if Stopped(r.signal, w.now) then Finish(Logged(w, id, round), id, false)
    else if attempt + 1 >= Attempts(r, step) then Finish(Logged(w, id, round), id, false)
    else if R.Pause(r.steps[step], r.retry, attempt) > 0 then MoveTo(w, id, Pausing(step, attempt + 1, round))
    else MoveTo(Logged(w, id, round), id, Ready(step, attempt + 1))
  }

  /** The output check of the controller; the last step is the audit record, after which it looks at the signal. */
  function AfterSuccess(w: World, id: Id, step: nat, usable: bool): World
    requires id in w.requests
  {
    var logged := Logged(w, id, Caught(w, id, Resolved(usable)));
    if !usable then Finish(logged, id, false)
    else if step + 1 < |w.requests[id].steps| then
      Put(w, id, w.requests[id].(phase := Ready(step + 1, 0), rounds := []))
    else Finish(logged, id, !Stopped(w.requests[id].signal, w.now))
  }

  /** startRequest takes a slot or throws. */
  function Admitted(w: World, id: Id, r: Request): World {
    var ok := D.CanStart(w.engine);
    var asked := Emit(w, D.Start(id, ok));
    if ok then asked.(requests := asked.requests[id := r]) else asked
  }

  /** The plugin is called, runs for a while, and the signal may be aborted by the time it returns. */
  function Called(w: World, id: Id, step: nat, took: nat, abortedMeanwhile: bool): World
    requires id in w.requests
  {
    Ran(w, id, took, abortedMeanwhile).(calls := w.calls + multiset{(id, step)})
  }

  /** Time passes, and the signal may be aborted. */
  function Ran(w: World, id: Id, took: nat, abortedMeanwhile: bool): World
    requires id in w.requests
  {
    Put(w, id, Aborted(w.requests[id], abortedMeanwhile)).(now := w.now + took)
  }

  /** A new request retries within the limits its engine has when it begins. */
  function NewRequest(e: D.Engine, steps: seq<R.RetryOptions>, signal: Signal): Request {
    assert e.limits.maxRetryDelayMs in D.Values(e.limits);
    Request(steps, R.RetryLimits(e.limits.maxRetryAttempts, e.limits.maxRetryDelayMs), signal, Ready(0, 0), [])
  }

  function Aborted(r: Request, yes: bool): Request { r.(signal := r.signal.(aborted := r.signal.aborted || yes)) }

  function AfterCall(w: World, id: Id, step: nat, attempt: nat, call: Call): World
    requires id in w.requests && ValidStep(w.requests[id], step)
  {
    match call
    case Throws => AfterFailure(w, id, step, attempt, Refused)
    case Returns(promise) =>
      MoveTo(Emit(w, D.Track(id, promise)), id,
             Awaiting(step, attempt, promise, Waiting(w.requests[id].signal, w.now, [])))
  }

  /** The code after the await: its value is used, its error is caught. */
  function AfterWait(w: World, id: Id, step: nat, attempt: nat, o: Outcome<bool>): World
    requires id in w.requests && ValidStep(w.requests[id], step)
  {
    match o
    case Resolved(usable) => AfterSuccess(w, id, step, usable)
    case Refused => AfterFailure(w, id, step, attempt, o)
    case Interrupted => AfterFailure(w, id, step, attempt, o)
  }

  /** withRetry refuses invalid options first, then looks at the signal, then calls the plugin. */
  function Attempted(w: World, id: Id, call: Call, took: nat, abortedMeanwhile: bool): World
    requires id in w.requests && w.requests[id].phase.Ready? && w.requests[id].phase.step < |w.requests[id].steps|
  {
    var r := w.requests[id];
    var p := r.phase;
    if !ValidStep(r, p.step) then Finish(w, id, false)
    else if Stopped(r.signal, w.now) then Finish(Logged(w, id, R.Round(true, Interrupted, true, false)), id, false)
    else AfterCall(Called(w, id, p.step, took, abortedMeanwhile), id, p.step, p.attempt, call)
  }

  function Said(how: Settlement, now: nat): Happening<bool> {
    match how
    case Fulfilled(usable) => Fulfils(usable, now)
    case Rejected => Rejects(now)
  }

  /** The request after a promise of it settled: its wait hears of it, if it still waits for that one. */
  function AfterAnswer(r: Request, promise: Work, how: Settlement, now: nat): Request {
    if r.phase.Awaiting? && r.phase.promise == promise then Hear(r, Said(how, now)) else r
  }

  /** The request exists; that its step does too, with valid options once called, holds by the invariant below. */
  predicate InPhase(w: World, id: Id) {
    && id in w.requests
    && var r := w.requests[id];
    && (!r.phase.Done? ==> r.phase.step < |r.steps|)
    && (r.phase.Awaiting? || r.phase.Pausing? ==> ValidStep(r, r.phase.step))
  }

  /** Ids and promises are new, promises settle once, deadlines are not early. */
  predicate Enabled(w: World, e: Event) {
    var h := D.HistoryOf(w.trace);
    match e
    case Begin(id, steps, _) => id !in h.started && steps != []
    case Attempt(id, call, _, _) =>
      InPhase(w, id) && w.requests[id].phase.Ready? && (call.Returns? ==> (id, call.promise) !in h.tracked)
    case PromiseSettles(id, promise, _) => InPhase(w, id) && D.Outstanding(h, id, promise)
    case Abort(id) => InPhase(w, id)
    case DeadlineFires(id) =>
      InPhase(w, id) && w.requests[id].phase.Awaiting? && PastDeadline(w.requests[id].signal, w.now)
    case Resumes(id) =>
      InPhase(w, id) && w.requests[id].phase.Awaiting? && WaitOf(w.requests[id].phase.race).outcome.Some?
    case PauseEnds(id) => InPhase(w, id) && w.requests[id].phase.Pausing?
    case Quit(id) => InPhase(w, id) && w.requests[id].phase.Ready?
    case Tick(_) => true
    case Configure(v) => (v.SetLimits? || v.Use?) && v.ok == D.Outcome(w.engine, v)
  }

  function Next(w: World, e: Event): World
    requires Enabled(w, e)
  {
    match e
    case Begin(id, steps, signal) =>
      if Stopped(signal, w.now) then w else Admitted(w, id, NewRequest(w.engine, steps, signal))
    case Attempt(id, call, took, abortedMeanwhile) => Attempted(w, id, call, took, abortedMeanwhile)
    case PromiseSettles(id, promise, how) =>
      var told := Emit(w, D.Settle(id, promise));
      Put(told, id, AfterAnswer(w.requests[id], promise, how, w.now))
    case Abort(id) =>
      var r := w.requests[id];
      if r.phase.Pausing? then Finish(Logged(Ran(w, id, 0, true), id, r.phase.failed.(pauseAborted := true)), id, false)
      else Put(w, id, Hear(Aborted(r, true), Aborts(w.now)))
    case DeadlineFires(id) => Put(w, id, Hear(w.requests[id], TimerFires(w.now)))
    case Resumes(id) =>
      var p := w.requests[id].phase;
      AfterWait(w, id, p.step, p.attempt, WaitOf(p.race).outcome.value)
    case PauseEnds(id) =>
      var p := w.requests[id].phase;
      MoveTo(Logged(w, id, p.failed), id, Ready(p.step, p.attempt))
    case Quit(id) => Finish(w, id, false)
    case Tick(d) => w.(now := w.now + d)
    case Configure(v) => Emit(w, v)
  }

  // Runs

  ghost predicate Legal(w: World, events: seq<Event>)
    decreases |events|
  {
    events == [] || (Enabled(w, events[0]) && Legal(Next(w, events[0]), events[1..]))
  }

  ghost function Run(w: World, events: seq<Event>): World
    requires Legal(w, events)
    decreases |events|
  {
    if events == [] then w else Run(Next(w, events[0]), events[1..])
  }

  // -------------------------------------------------------------------- invariant

  ghost predicate EngineAgrees(w: World, limits: D.CheckedLimits) {
    D.Legal(D.Created(limits), w.trace) && w.engine == D.Run(D.Created(limits), w.trace)
  }

  /** The wait of a request is a possible race up to now, under the request's own signal. */
  ghost predicate RaceFits(r: Request, now: nat)
    requires r.phase.Awaiting?
  {
    var x := r.phase.race;
    && x.start <= now && (forall e | e in x.heard :: e.now <= now)
    && Orderly(x.signal, x.start, x.heard)
    && WaitOf(x).signal == r.signal
  }

  ghost predicate Answered(x: Waiting) { exists e | e in x.heard :: Settles(e) }

  /** What each phase says about the request's background work. */
  ghost predicate Agrees(r: Request, h: D.History, id: Id, now: nat) {
    && id in h.started
    && (id in h.released <==> r.phase.Done?)
    && (!r.phase.Done? ==>
          r.phase.step < |r.steps| && (r.phase.attempt == 0 || r.phase.attempt < Attempts(r, r.phase.step)))
    && (r.phase.Awaiting? || r.phase.Pausing? ==> r.phase.attempt < Attempts(r, r.phase.step))
    && (r.phase.Ready? || r.phase.Pausing? ==> Idle(h, id))
    && (r.phase.Awaiting? ==> RaceFits(r, now))
    && (r.phase.Awaiting? ==> forall p :: D.Outstanding(h, id, p) <==> p == r.phase.promise && !Answered(r.phase.race))
    && (r.phase.Done? ==> AtMostOne(h, id))
  }

  ghost predicate Idle(h: D.History, id: Id) { forall p :: !D.Outstanding(h, id, p) }

  ghost predicate AtMostOne(h: D.History, id: Id) {
    forall p, q :: D.Outstanding(h, id, p) && D.Outstanding(h, id, q) ==> p == q
  }

  ghost predicate Known(w: World, h: D.History, id: Id) {
    && (id in w.requests <==> id in h.started)
    && (id in w.requests ==> Agrees(w.requests[id], h, id, w.now))
  }

  /** Every request but this one. */
  ghost predicate OthersKnown(w: World, h: D.History, id: Id) { forall i | i != id :: Known(w, h, i) }

  ghost predicate Inv(w: World, limits: D.CheckedLimits) {
    && EngineAgrees(w, limits)
    && forall id :: Known(w, D.HistoryOf(w.trace), id)
  }

  /** In the middle of a step on one request. */
  ghost predicate Running(w: World, limits: D.CheckedLimits, id: Id) {
    var h := D.HistoryOf(w.trace);
    && EngineAgrees(w, limits) && OthersKnown(w, h, id)
    && id in w.requests && id in h.started && id !in h.released
  }

  /** Nothing of the request is outstanding. */
  ghost predicate Quiet(w: World, limits: D.CheckedLimits, id: Id) {
    Running(w, limits, id) && Idle(D.HistoryOf(w.trace), id)
  }

  lemma EmitKeepsEngine(w: World, limits: D.CheckedLimits, v: D.Event)
    requires EngineAgrees(w, limits) && D.Possible(w.engine, D.HistoryOf(w.trace), v)
    ensures EngineAgrees(Emit(w, v), limits)
    ensures D.HistoryOf(Emit(w, v).trace) == D.Happened(D.HistoryOf(w.trace), v)
  {
    hide D.Possible, D.Next, D.Happened;
    var t := w.trace + [v];
    assert t[..|t| - 1] == w.trace && t[|t| - 1] == v;
  }

  /** Two histories with the same bookkeeping of one request. */
  ghost predicate SameFor(h: D.History, h': D.History, id: Id) {
    && (id in h'.started <==> id in h.started) && (id in h'.released <==> id in h.released)
    && forall p :: D.Outstanding(h', id, p) <==> D.Outstanding(h, id, p)
  }

  lemma StillAgrees(r: Request, h: D.History, h': D.History, id: Id, now: nat, later: nat)
    requires Agrees(r, h, id, now) && SameFor(h, h', id) && now <= later
    ensures Agrees(r, h', id, later)
  {
    hide D.Outstanding, Orderly, WaitOf, Answered;
  }

  /** The other requests stay known while nothing of theirs happens. */
  lemma OthersStayKnown(w: World, h: D.History, w': World, h': D.History, id: Id)
    requires OthersKnown(w, h, id) && w.now <= w'.now
    requires forall i | i != id :: SameFor(h, h', i)
    requires forall i | i != id :: (i in w'.requests <==> i in w.requests)
    requires forall i | i != id && i in w.requests :: w'.requests[i] == w.requests[i]
    ensures OthersKnown(w', h', id)
  {
    hide Agrees;
    forall i | i != id ensures Known(w', h', i) {
      assert Known(w, h, i);
      assert SameFor(h, h', i);
      if i in w.requests { StillAgrees(w.requests[i], h, h', i, w.now, w'.now); }
      assert i in h'.started <==> i in h.started by { StartedAlike(h, h', i); }
    }
  }

  lemma StartedAlike(h: D.History, h': D.History, id: Id)
    requires SameFor(h, h', id)
    ensures id in h'.started <==> id in h.started
  {
  }

  lemma SameHistory(h: D.History)
    ensures forall i :: SameFor(h, h, i)
  {
  }

  lemma AllKnown(w: World, h: D.History, id: Id)
    requires OthersKnown(w, h, id) && Known(w, h, id)
    ensures forall i :: Known(w, h, i)
  {
    hide Known;
  }

  /** A request is replaced, and time may pass. */
  lemma PutKeepsInv(w: World, limits: D.CheckedLimits, id: Id, r: Request)
    requires EngineAgrees(w, limits) && OthersKnown(w, D.HistoryOf(w.trace), id) && id in w.requests
    requires Agrees(r, D.HistoryOf(w.trace), id, w.now)
    ensures Inv(Put(w, id, r), limits)
  {
    hide EngineAgrees;
    var h, w' := D.HistoryOf(w.trace), Put(w, id, r);
    StartedIfAgrees(r, h, id, w.now);
    hide Agrees;
    SameHistory(h);
    hide SameFor;
    OthersStayKnown(w, h, w', h, id);
    AllKnown(w', h, id);
    EngineOnly(w, w', limits);
  }

  lemma EngineOnly(w: World, w': World, limits: D.CheckedLimits)
    requires EngineAgrees(w, limits) && w'.engine == w.engine && w'.trace == w.trace
    ensures EngineAgrees(w', limits)
  {
  }

  lemma StartedIfAgrees(r: Request, h: D.History, id: Id, now: nat)
    requires Agrees(r, h, id, now)
    ensures id in h.started
  {
  }

  lemma FinishKeepsInv(w: World, limits: D.CheckedLimits, id: Id, ok: bool)
    requires EngineAgrees(w, limits) && OthersKnown(w, D.HistoryOf(w.trace), id)
    requires id in w.requests && id in D.HistoryOf(w.trace).started
    requires AtMostOne(D.HistoryOf(w.trace), id)
    ensures Inv(Finish(w, id, ok), limits)
  {
    var h, moved := D.HistoryOf(w.trace), MoveTo(w, id, Done(ok));
    var once := Emit(moved, D.Release(id));
    var w' := Emit(once, D.Release(id));
    EmitKeepsEngine(moved, limits, D.Release(id));
    EmitKeepsEngine(once, limits, D.Release(id));
    hide D.Next, D.HistoryOf, EngineAgrees, RaceFits, Answered;
    var h' := D.HistoryOf(w'.trace);
    assert h' == h.(released := h.released + {id});
    ReleasedAlike(h, h', id);
    OthersStayKnown(w, h, w', h', id);
    AllKnown(w', h', id);
  }

  lemma ReleasedAlike(h: D.History, h': D.History, id: Id)
    requires h' == h.(released := h.released + {id})
    ensures forall i | i != id :: SameFor(h, h', i)
    ensures AtMostOne(h, id) ==> AtMostOne(h', id)
  {
    forall i, p ensures D.Outstanding(h', i, p) <==> D.Outstanding(h, i, p) { }
  }

  lemma IdleIsAtMostOne(h: D.History, id: Id)
    requires Idle(h, id)
    ensures AtMostOne(h, id)
  {
  }

  lemma PutTwice(w: World, id: Id, r: Request, r': Request)
    ensures Put(Put(w, id, r), id, r') == Put(w, id, r')
  {
    assert w.requests[id := r][id := r'] == w.requests[id := r'];
  }

  lemma LoggedStaysRunning(w: World, limits: D.CheckedLimits, id: Id, round: R.Round<bool>)
    requires Running(w, limits, id)
    ensures Running(Logged(w, id, round), limits, id)
  {
    hide EngineAgrees, Known;
    var h := D.HistoryOf(w.trace);
    SameHistory(h);
    hide SameFor;
    OthersStayKnown(w, h, Logged(w, id, round), h, id);
    EngineOnly(w, Logged(w, id, round), limits);
  }

  /** The last round of a loop is over, and the request finishes. */
  lemma EndKeepsInv(w: World, limits: D.CheckedLimits, id: Id, round: R.Round<bool>, ok: bool)
    requires Running(w, limits, id) && AtMostOne(D.HistoryOf(w.trace), id)
    ensures Inv(Finish(Logged(w, id, round), id, ok), limits)
  {
    LoggedStaysRunning(w, limits, id, round);
    hide EngineAgrees, OthersKnown, AtMostOne;
    FinishKeepsInv(Logged(w, id, round), limits, id, ok);
  }

  /** The catch block: where it retries nothing is outstanding, and where it stops at most one promise is. */
  lemma FailureKeepsInv(w: World, limits: D.CheckedLimits, id: Id, step: nat, attempt: nat, awaited: Outcome<bool>)
    requires Running(w, limits, id) && AtMostOne(D.HistoryOf(w.trace), id)
    requires Stopped(w.requests[id].signal, w.now) || Idle(D.HistoryOf(w.trace), id)
    requires ValidStep(w.requests[id], step)
    ensures Inv(AfterFailure(w, id, step, attempt, awaited), limits)
  {
    hide EngineAgrees, OthersKnown, AtMostOne, Idle, R.ValidOptions, R.Pause;
    var r, round := w.requests[id], Caught(w, id, awaited);
    if Stopped(r.signal, w.now) {
      EndKeepsInv(w, limits, id, round, false);
    } else if attempt + 1 >= Attempts(r, step) {
      EndKeepsInv(w, limits, id, round, false);
    } else if R.Pause(r.steps[step], r.retry, attempt) > 0 {
      PutKeepsInv(w, limits, id, r.(phase := Pausing(step, attempt + 1, round)));
    } else {
      var logged := r.(rounds := r.rounds + [round]);
      PutTwice(w, id, logged, logged.(phase := Ready(step, attempt + 1)));
      PutKeepsInv(w, limits, id, logged.(phase := Ready(step, attempt + 1)));
    }
  }

  lemma SuccessKeepsInv(w: World, limits: D.CheckedLimits, id: Id, step: nat, usable: bool)
    requires Quiet(w, limits, id)
    ensures Inv(AfterSuccess(w, id, step, usable), limits)
  {
    IdleIsAtMostOne(D.HistoryOf(w.trace), id);
    hide EngineAgrees, OthersKnown, AtMostOne, Idle;
    var round := Caught(w, id, Resolved(usable));
    if !usable {
      EndKeepsInv(w, limits, id, round, false);
    } else if step + 1 < |w.requests[id].steps| {
      PutKeepsInv(w, limits, id, w.requests[id].(phase := Ready(step + 1, 0), rounds := []));
    } else {
      EndKeepsInv(w, limits, id, round, !Stopped(w.requests[id].signal, w.now));
    }
  }

  // The race of a wait

  lemma RaceBegins(r: Request, now: nat)
    requires r.phase.Awaiting? && r.phase.race == Waiting(r.signal, now, [])
    ensures RaceFits(r, now) && !Answered(r.phase.race)
  {
  }

  /** A wait that hears of an abort, of its timer, or of the first answer stays a possible race. */
  lemma RaceHears(r: Request, now: nat, e: Happening<bool>)
    requires r.phase.Awaiting? && RaceFits(r, now) && e.now == now
    requires Settles(e) ==> !Answered(r.phase.race)
    requires e.TimerFires? ==> PastDeadline(r.signal, now)
    ensures var r' := Hear(Aborted(r, e.Aborts?), e);
      RaceFits(r', now) && (Answered(r'.phase.race) <==> Answered(r.phase.race) || Settles(e))
  {
    hide Orderly, Race, React, Settles, PastDeadline;
    var x, r' := r.phase.race, Hear(Aborted(r, e.Aborts?), e);
    var y := r'.phase.race;
    assert y.heard == x.heard + [e];
    RaceSnoc(x.signal, x.start, x.heard, e);
    assert r.signal.deadline == x.signal.deadline by { SignalHistory(x.signal, x.start, x.heard); }
    assert PastDeadline(r.signal, now) == PastDeadline(x.signal, now) by { SameDeadline(r.signal, x.signal, now); }
    OrderlySnoc(x.signal, x.start, x.heard, e);
    AnsweredSnoc(x, e);
  }

  lemma SameDeadline(a: Signal, b: Signal, now: nat)
    requires a.deadline == b.deadline
    ensures PastDeadline(a, now) == PastDeadline(b, now)
  {
  }

  lemma AnsweredSnoc(x: Waiting, e: Happening<bool>)
    ensures Answered(x.(heard := x.heard + [e])) <==> Answered(x) || Settles(e)
  {
    hide Settles;
    var y := x.(heard := x.heard + [e]);
    assert e in y.heard;
    if f :| f in x.heard && Settles(f) { assert f in y.heard; }
  }

  /** What a wait came to: an answer, or an interruption after which the signal still stops. */
  lemma RaceEnds(r: Request, now: nat)
    requires r.phase.Awaiting? && RaceFits(r, now) && WaitOf(r.phase.race).outcome.Some?
    ensures if WaitOf(r.phase.race).outcome.value.Interrupted? then Stopped(r.signal, now) else Answered(r.phase.race)
  {
    var x := r.phase.race;
    var o := WaitOf(x).outcome.value;
    if o.Interrupted? {
      InterruptedStaysStopped(x.signal, x.start, x.heard, now);
    } else {
      OutcomeIsExact(x.signal, x.start, x.heard);
      if o.Resolved? {
        var i: nat :| i < |x.heard| && InTimeAt(x.signal, x.heard, i, o.value);
        assert x.heard[i] in x.heard;
      } else {
        var i: nat :| i < |x.heard| && FailedAt(x.signal, x.heard, i);
        assert x.heard[i] in x.heard;
      }
    }
  }

  lemma ActiveUntilReleased(w: World, limits: D.CheckedLimits, id: Id)
    requires EngineAgrees(w, limits)
    requires id in D.HistoryOf(w.trace).started && id !in D.HistoryOf(w.trace).released
    ensures id in w.engine.active
  {
    D.CapacityIsExact(limits, w.trace);
    assert D.Holds(D.HistoryOf(w.trace), id);
  }

  lemma TrackedIsUnsettled(w: World, limits: D.CheckedLimits, id: Id, promise: Work)
    requires EngineAgrees(w, limits) && (id, promise) !in D.HistoryOf(w.trace).tracked
    ensures (id, promise) !in D.HistoryOf(w.trace).settled
  {
    D.SettledWereTracked(w.trace, D.Created(limits));
  }

  /** The history after a promise is tracked. */
  lemma TrackedAlike(h: D.History, h': D.History, id: Id, p: Work)
    requires h' == h.(tracked := h.tracked + {(id, p)}) && (id, p) !in h.settled
    ensures forall i | i != id :: SameFor(h, h', i)
    ensures forall q :: D.Outstanding(h', id, q) <==> D.Outstanding(h, id, q) || q == p
  {
    forall i, q | i != id ensures D.Outstanding(h', i, q) <==> D.Outstanding(h, i, q) { }
  }

  /** The history after a promise settles. */
  lemma SettledAlike(h: D.History, h': D.History, id: Id, p: Work)
    requires h' == h.(settled := h.settled + {(id, p)})
    ensures forall i | i != id :: SameFor(h, h', i)
    ensures forall q :: D.Outstanding(h', id, q) <==> D.Outstanding(h, id, q) && q != p
  {
    forall i, q | i != id ensures D.Outstanding(h', i, q) <==> D.Outstanding(h, i, q) { }
  }

  lemma TrackKeepsInv(w: World, limits: D.CheckedLimits, id: Id, step: nat, attempt: nat, p: Work)
    requires Quiet(w, limits, id) && ValidStep(w.requests[id], step) && attempt < Attempts(w.requests[id], step)
    requires (id, p) !in D.HistoryOf(w.trace).tracked
    ensures Inv(AfterCall(w, id, step, attempt, Returns(p)), limits)
  {
    var h, w' := D.HistoryOf(w.trace), Emit(w, D.Track(id, p));
    ActiveUntilReleased(w, limits, id);
    TrackedIsUnsettled(w, limits, id, p);
    EmitKeepsEngine(w, limits, D.Track(id, p));
    hide D.Next, D.HistoryOf, EngineAgrees;
    var h' := D.HistoryOf(w'.trace);
    TrackedAlike(h, h', id, p);
    var r := w.requests[id].(phase := Awaiting(step, attempt, p, Waiting(w.requests[id].signal, w.now, [])));
    RaceBegins(r, w.now);
    hide RaceFits, Answered, D.Outstanding, SameFor, Known;
    OthersStayKnown(w, h, w', h', id);
    PutKeepsInv(w', limits, id, r);
  }

  lemma CallKeepsInv(w: World, limits: D.CheckedLimits, id: Id, step: nat, attempt: nat, call: Call)
    requires Quiet(w, limits, id) && ValidStep(w.requests[id], step) && attempt < Attempts(w.requests[id], step)
    requires call.Returns? ==> (id, call.promise) !in D.HistoryOf(w.trace).tracked
    ensures Inv(AfterCall(w, id, step, attempt, call), limits)
  {
    if call.Throws? {
      IdleIsAtMostOne(D.HistoryOf(w.trace), id);
      FailureKeepsInv(w, limits, id, step, attempt, Refused);
    } else {
      TrackKeepsInv(w, limits, id, step, attempt, call.promise);
    }
  }

  /** A known request that has not finished is in the middle of a step. */
  lemma RunningRequest(w: World, limits: D.CheckedLimits, id: Id)
    requires Inv(w, limits) && id in w.requests && !w.requests[id].phase.Done?
    ensures Running(w, limits, id) && Agrees(w.requests[id], D.HistoryOf(w.trace), id, w.now)
  {
    assert Known(w, D.HistoryOf(w.trace), id);
  }

  /** Calling the plugin and aborting the signal of an idle request concern only the clock, the count and the signal. */
  lemma CalledStaysQuiet(w: World, limits: D.CheckedLimits, id: Id, step: nat, took: nat, aborted: bool)
    requires Quiet(w, limits, id)
    ensures Quiet(Called(w, id, step, took, aborted), limits, id) && Quiet(Ran(w, id, took, aborted), limits, id)
  {
    hide EngineAgrees, Idle, Known;
    var h := D.HistoryOf(w.trace);
    SameHistory(h);
    hide SameFor;
    var called, ran := Called(w, id, step, took, aborted), Ran(w, id, took, aborted);
    OthersStayKnown(w, h, called, h, id);
    OthersStayKnown(w, h, ran, h, id);
    EngineOnly(w, called, limits);
    EngineOnly(w, ran, limits);
  }

  lemma AttemptKeepsInv(w: World, limits: D.CheckedLimits, id: Id, call: Call, took: nat, aborted: bool)
    requires Inv(w, limits) && Enabled(w, Attempt(id, call, took, aborted))
    ensures Inv(Next(w, Attempt(id, call, took, aborted)), limits)
  {
    RunningRequest(w, limits, id);
    hide EngineAgrees, OthersKnown, Inv, Idle, AtMostOne, Known, R.ValidOptions;
    var r := w.requests[id];
    var p := r.phase;
    IdleIsAtMostOne(D.HistoryOf(w.trace), id);
    if !ValidStep(r, p.step) {
      FinishKeepsInv(w, limits, id, false);
    } else if Stopped(r.signal, w.now) {
      EndKeepsInv(w, limits, id, R.Round(true, Interrupted, true, false), false);
    } else {
      CalledStaysQuiet(w, limits, id, p.step, took, aborted);
      ValidMeansAttempts(r, p.step);
      CallKeepsInv(Called(w, id, p.step, took, aborted), limits, id, p.step, p.attempt, call);
    }
  }

  lemma ValidMeansAttempts(r: Request, step: nat)
    requires ValidStep(r, step)
    ensures Attempts(r, step) >= 1
  {
  }

  lemma FewerOutstanding(h: D.History, h': D.History, id: Id, promise: Work)
    requires h' == h.(settled := h.settled + {(id, promise)}) && AtMostOne(h, id)
    ensures AtMostOne(h', id)
  {
    SettledAlike(h, h', id, promise);
    hide D.Outstanding;
  }

  /** A request that waits for the promise hears its answer, which is the first. */
  lemma AwaitedAnswerAgrees(r: Request, h: D.History, h': D.History, id: Id, how: Settlement, now: nat)
    requires Agrees(r, h, id, now) && r.phase.Awaiting? && !Answered(r.phase.race)
    requires h' == h.(settled := h.settled + {(id, r.phase.promise)})
    ensures Agrees(Hear(r, Said(how, now)), h', id, now)
  {
    var p, r' := r.phase.promise, Hear(r, Said(how, now));
    assert Aborted(r, false) == r;
    RaceHears(r, now, Said(how, now));
    hide RaceFits, Answered, Race;
    assert Answered(r'.phase.race);
    forall q ensures !D.Outstanding(h', id, q) {
      assert D.Outstanding(h, id, q) ==> q == p;
    }
  }

  lemma AnswerAgrees(r: Request, h: D.History, h': D.History, id: Id, promise: Work, how: Settlement, now: nat)
    requires Agrees(r, h, id, now) && D.Outstanding(h, id, promise)
    requires h' == h.(settled := h.settled + {(id, promise)})
    ensures Agrees(AfterAnswer(r, promise, how, now), h', id, now)
  {
    hide RaceFits, Answered, Hear;
    if r.phase.Awaiting? {
      assert promise == r.phase.promise && !Answered(r.phase.race);
      AwaitedAnswerAgrees(r, h, h', id, how, now);
    } else {
      assert r.phase.Done?;
      FewerOutstanding(h, h', id, promise);
    }
  }

  lemma SettleKeepsInv(w: World, limits: D.CheckedLimits, id: Id, promise: Work, how: Settlement)
    requires Inv(w, limits) && Enabled(w, PromiseSettles(id, promise, how))
    ensures Inv(Next(w, PromiseSettles(id, promise, how)), limits)
  {
    var h, r, told := D.HistoryOf(w.trace), w.requests[id], Emit(w, D.Settle(id, promise));
    assert Known(w, h, id);
    EmitKeepsEngine(w, limits, D.Settle(id, promise));
    hide D.Next, D.HistoryOf, EngineAgrees, Agrees;
    var h' := D.HistoryOf(told.trace);
    SettledAlike(h, h', id, promise);
    AnswerAgrees(r, h, h', id, promise, how, w.now);
    hide D.Outstanding, SameFor;
    OthersStayKnown(w, h, told, h', id);
    PutKeepsInv(told, limits, id, AfterAnswer(r, promise, how, w.now));
  }

  /** The code after a wait: a retry only finds the request idle. */
  lemma ResumeKeepsInv(w: World, limits: D.CheckedLimits, id: Id)
    requires Inv(w, limits) && Enabled(w, Resumes(id))
    ensures Inv(Next(w, Resumes(id)), limits)
  {
    RunningRequest(w, limits, id);
    var r := w.requests[id];
    RaceEnds(r, w.now);
    hide EngineAgrees, Inv, RaceFits, Answered, Known;
    var o := WaitOf(r.phase.race).outcome.value;
    hide WaitOf;
    if o.Resolved? {
      SuccessKeepsInv(w, limits, id, r.phase.step, o.value);
    } else {
      FailureKeepsInv(w, limits, id, r.phase.step, r.phase.attempt, o);
    }
  }

  lemma BeginKeepsInv(w: World, limits: D.CheckedLimits, id: Id, steps: seq<R.RetryOptions>, signal: Signal)
    requires Inv(w, limits) && Enabled(w, Begin(id, steps, signal))
    ensures Inv(Next(w, Begin(id, steps, signal)), limits)
  {
    if !Stopped(signal, w.now) {
      AdmissionKeepsInv(w, limits, id, NewRequest(w.engine, steps, signal));
    }
  }

  lemma AdmissionKeepsInv(w: World, limits: D.CheckedLimits, id: Id, r: Request)
    requires Inv(w, limits) && id !in D.HistoryOf(w.trace).started
    requires r.phase == Ready(0, 0) && r.steps != []
    ensures Inv(Admitted(w, id, r), limits)
  {
    var h, ok, w' := D.HistoryOf(w.trace), D.CanStart(w.engine), Admitted(w, id, r);
    assert Known(w, h, id);
    UnstartedHasNoWork(w, limits, id);
    EmitKeepsEngine(w, limits, D.Start(id, ok));
    hide D.Next, D.HistoryOf, D.CanStart;
    var h' := D.HistoryOf(w'.trace);
    StartedOnly(h, h', id);
    hide D.Outstanding, SameFor, RaceFits, Answered;
    EngineOnly(Emit(w, D.Start(id, ok)), w', limits);
    hide EngineAgrees;
    OthersStayKnown(w, h, w', h', id);
    AllKnown(w', h', id);
  }

  lemma StartedOnly(h: D.History, h': D.History, id: Id)
    requires h' == h.(started := h.started + {id}) || h' == h
    ensures forall i | i != id :: SameFor(h, h', i)
    ensures Idle(h, id) ==> Idle(h', id)
  {
    forall i, p ensures D.Outstanding(h', i, p) <==> D.Outstanding(h, i, p) { }
  }

  lemma UnstartedHasNoWork(w: World, limits: D.CheckedLimits, id: Id)
    requires EngineAgrees(w, limits) && id !in D.HistoryOf(w.trace).started
    ensures id !in D.HistoryOf(w.trace).released && Idle(D.HistoryOf(w.trace), id)
  {
    D.RunKeepsInv(limits, w.trace);
    var h := D.HistoryOf(w.trace);
    assert D.RequestAgrees(w.engine, h, id);
    forall p ensures !D.Outstanding(h, id, p) {
      assert p in D.WorkOf(w.engine, id) <==> D.Outstanding(h, id, p);
    }
  }

  lemma AbortAgrees(r: Request, h: D.History, id: Id, now: nat)
    requires Agrees(r, h, id, now)
    ensures Agrees(Hear(Aborted(r, true), Aborts(now)), h, id, now)
  {
    hide RaceFits, Answered, D.Outstanding;
    if r.phase.Awaiting? { RaceHears(r, now, Aborts(now)); }
  }

  lemma AbortKeepsInv(w: World, limits: D.CheckedLimits, id: Id)
    requires Inv(w, limits) && Enabled(w, Abort(id))
    ensures Inv(Next(w, Abort(id)), limits)
  {
    var h, r := D.HistoryOf(w.trace), w.requests[id];
    if r.phase.Pausing? {
      RunningRequest(w, limits, id);
      hide EngineAgrees, Inv, Idle, AtMostOne, Known;
      CalledStaysQuiet(w, limits, id, 0, 0, true);
      IdleIsAtMostOne(h, id);
      EndKeepsInv(Ran(w, id, 0, true), limits, id, r.phase.failed.(pauseAborted := true), false);
    } else {
      assert Known(w, h, id);
      hide EngineAgrees, Agrees, Known;
      AbortAgrees(r, h, id, w.now);
      PutKeepsInv(w, limits, id, Hear(Aborted(r, true), Aborts(w.now)));
    }
  }

  lemma TimeoutAgrees(r: Request, h: D.History, id: Id, now: nat)
    requires Agrees(r, h, id, now) && r.phase.Awaiting? && PastDeadline(r.signal, now)
    ensures Agrees(Hear(r, TimerFires(now)), h, id, now)
  {
    hide RaceFits, Answered, D.Outstanding, PastDeadline;
    assert Aborted(r, false) == r;
    RaceHears(r, now, TimerFires(now));
  }

  lemma DeadlineKeepsInv(w: World, limits: D.CheckedLimits, id: Id)
    requires Inv(w, limits) && Enabled(w, DeadlineFires(id))
    ensures Inv(Next(w, DeadlineFires(id)), limits)
  {
    RunningRequest(w, limits, id);
    hide EngineAgrees, Inv, Agrees, Known, D.HistoryOf;
    TimeoutAgrees(w.requests[id], D.HistoryOf(w.trace), id, w.now);
    PutKeepsInv(w, limits, id, Hear(w.requests[id], TimerFires(w.now)));
  }

  /** Leaving a pause or giving up between waits. */
  lemma LeaveKeepsInv(w: World, limits: D.CheckedLimits, e: Event)
    requires Inv(w, limits) && Enabled(w, e) && (e.PauseEnds? || e.Quit?)
    ensures Inv(Next(w, e), limits)
  {
    RunningRequest(w, limits, e.id);
    hide EngineAgrees, Inv, Known, Idle, AtMostOne;
    var r := w.requests[e.id];
    if e.PauseEnds? {
      var logged := r.(rounds := r.rounds + [r.phase.failed]);
      PutTwice(w, e.id, logged, logged.(phase := Ready(r.phase.step, r.phase.attempt)));
      PutKeepsInv(w, limits, e.id, logged.(phase := Ready(r.phase.step, r.phase.attempt)));
    } else {
      IdleIsAtMostOne(D.HistoryOf(w.trace), e.id);
      FinishKeepsInv(w, limits, e.id, false);
    }
  }

  lemma KnownSame(w: World, w': World, h: D.History, id: Id)
    requires Known(w, h, id) && w'.requests == w.requests && w'.now == w.now
    ensures Known(w', h, id)
  {
    hide Agrees;
  }

  lemma ConfigureIs(w: World, v: D.Event)
    requires Enabled(w, Configure(v))
    ensures Next(w, Configure(v)) == Emit(w, v)
    ensures (v.SetLimits? || v.Use?) && D.Possible(w.engine, D.HistoryOf(w.trace), v)
    ensures D.Happened(D.HistoryOf(w.trace), v) == D.HistoryOf(w.trace)
  {
    hide D.HistoryOf, D.Next;
  }

  lemma ConfigureKeepsInv(w: World, limits: D.CheckedLimits, v: D.Event)
    requires Inv(w, limits) && Enabled(w, Configure(v))
    ensures Inv(Next(w, Configure(v)), limits)
  {
    hide Known, EngineAgrees, D.HistoryOf, D.Happened, D.Possible, D.Next, Next, Enabled;
    var h, w' := D.HistoryOf(w.trace), Emit(w, v);
    ConfigureIs(w, v);
    EmitKeepsEngine(w, limits, v);
    forall id ensures Known(w', h, id) { KnownSame(w, w', h, id); }
  }

  lemma KnownLater(w: World, later: nat, h: D.History, id: Id)
    requires Known(w, h, id) && w.now <= later
    ensures Known(w.(now := later), h, id)
  {
    SameHistory(h);
    hide Agrees, SameFor;
    if id in w.requests { StillAgrees(w.requests[id], h, h, id, w.now, later); }
  }

  lemma TickKeepsInv(w: World, limits: D.CheckedLimits, elapsed: nat)
    requires Inv(w, limits)
    ensures Inv(Next(w, Tick(elapsed)), limits)
  {
    hide Known, EngineAgrees, D.HistoryOf;
    var h, w' := D.HistoryOf(w.trace), w.(now := w.now + elapsed);
    EngineOnly(w, w', limits);
    forall id ensures Known(w', h, id) { KnownLater(w, w.now + elapsed, h, id); }
    TickIs(w, elapsed);
    hide Next;
  }

  lemma TickIs(w: World, elapsed: nat)
    ensures Next(w, Tick(elapsed)) == w.(now := w.now + elapsed)
  {
  }

  lemma NextKeepsInv(w: World, limits: D.CheckedLimits, e: Event)
    requires Inv(w, limits) && Enabled(w, e)
    ensures Inv(Next(w, e), limits)
  {
    hide Inv, Next, Enabled;
    match e
    case Begin(id, steps, signal) => BeginKeepsInv(w, limits, id, steps, signal);
    case Attempt(id, call, took, aborted) => AttemptKeepsInv(w, limits, id, call, took, aborted);
    case PromiseSettles(id, promise, how) => SettleKeepsInv(w, limits, id, promise, how);
    case Abort(id) => AbortKeepsInv(w, limits, id);
    case DeadlineFires(id) => DeadlineKeepsInv(w, limits, id);
    case Resumes(id) => ResumeKeepsInv(w, limits, id);
    case PauseEnds(_) => LeaveKeepsInv(w, limits, e);
    case Quit(_) => LeaveKeepsInv(w, limits, e);
    case Tick(elapsed) => TickKeepsInv(w, limits, elapsed);
    case Configure(v) => ConfigureKeepsInv(w, limits, v);
  }

  lemma {:induction false} RunKeepsInv(w: World, limits: D.CheckedLimits, events: seq<Event>)
    requires Inv(w, limits) && Legal(w, events)
    ensures Inv(Run(w, events), limits)
    decreases |events|
  {
    hide Inv, Enabled, Next;
    if events != [] {
      NextKeepsInv(w, limits, events[0]);
      RunKeepsInv(Next(w, events[0]), limits, events[1..]);
    }
  }

  lemma FreshKeepsInv(limits: D.CheckedLimits)
    ensures Inv(Fresh(limits), limits)
  {
  }

  // ----------------------------------------------------------------- main results

  lemma OnlyAttemptsCall(w: World, e: Event)
    requires Enabled(w, e) && Next(w, e).calls != w.calls
    ensures e.Attempt? && !Stopped(w.requests[e.id].signal, w.now)
  {
    hide D.Next, D.HistoryOf, D.Outstanding, D.CanStart, D.Outcome, PastDeadline;
  }

  /**
   A plugin is called only while its request holds a slot and has nothing else running:
   attempt i + 1 starts after attempt i has settled, and never after abort or deadline.
   */
  lemma AttemptsNeverOverlap(limits: D.CheckedLimits, events: seq<Event>, e: Event)
    requires Legal(Fresh(limits), events) && Enabled(Run(Fresh(limits), events), e)
    requires Next(Run(Fresh(limits), events), e).calls != Run(Fresh(limits), events).calls
    ensures e.Attempt?
    ensures var w := Run(Fresh(limits), events); var r := w.requests[e.id];
      && r.phase.Ready? && e.id in w.engine.active
      && (forall p :: !D.Outstanding(D.HistoryOf(w.trace), e.id, p))
      && !r.signal.aborted && !PastDeadline(r.signal, w.now)
      && r.phase.attempt < Attempts(r, r.phase.step)
  {
    FreshKeepsInv(limits);
    RunKeepsInv(Fresh(limits), limits, events);
    var w := Run(Fresh(limits), events);
    OnlyAttemptsCall(w, e);
    hide Next;
    assert Known(w, D.HistoryOf(w.trace), e.id);
    ActiveUntilReleased(w, limits, e.id);
  }

  /** A slot is taken exactly while the request runs or a promise of it is unsettled. */
  lemma SlotsFollowWork(limits: D.CheckedLimits, events: seq<Event>, id: Id)
    requires Legal(Fresh(limits), events)
    ensures var w := Run(Fresh(limits), events);
      id in w.engine.active <==>
        id in w.requests && (!w.requests[id].phase.Done? || exists p :: D.Outstanding(D.HistoryOf(w.trace), id, p))
  {
    FreshKeepsInv(limits);
    RunKeepsInv(Fresh(limits), limits, events);
    var w := Run(Fresh(limits), events);
    assert Known(w, D.HistoryOf(w.trace), id);
    D.CapacityIsExact(limits, w.trace);
    assert id in w.engine.active <==> D.Holds(D.HistoryOf(w.trace), id);
  }

  lemma OnePromiseEach(w: World, limits: D.CheckedLimits, id: Id, p: Work, q: Work)
    requires Inv(w, limits)
    requires D.Outstanding(D.HistoryOf(w.trace), id, p) && D.Outstanding(D.HistoryOf(w.trace), id, q)
    ensures p == q && id in w.engine.active
  {
    var h := D.HistoryOf(w.trace);
    assert Known(w, h, id);
    if id !in h.started {
      UnstartedHasNoWork(w, limits, id);
    } else {
      D.CapacityIsExact(limits, w.trace);
      assert D.Holds(h, id);
    }
  }

  lemma {:induction false} FewerThan(work: set<(Id, Work)>, slots: set<Id>)
    requires forall x | x in work :: x.0 in slots
    requires forall x, y | x in work && y in work && x.0 == y.0 :: x == y
    ensures |work| <= |slots|
  {
    if x :| x in work {
      FewerThan(work - {x}, slots - {x.0});
    }
  }

  /** The unsettled promises of all requests together never outnumber the slots, nor these the limit. */
  lemma BackgroundWorkIsBounded(limits: D.CheckedLimits, events: seq<Event>, work: set<(Id, Work)>)
    requires Legal(Fresh(limits), events)
    requires forall x | x in work :: D.Outstanding(D.HistoryOf(Run(Fresh(limits), events).trace), x.0, x.1)
    ensures var e := Run(Fresh(limits), events).engine; |work| <= |e.active| <= e.limits.maxConcurrentOperations
  {
    FreshKeepsInv(limits);
    RunKeepsInv(Fresh(limits), limits, events);
    var w := Run(Fresh(limits), events);
    hide Inv;
    D.CapacityIsExact(limits, w.trace) by { assert EngineAgrees(w, limits) by { InvHasEngine(w, limits); } }
    hide D.Outstanding;
    forall x | x in work ensures x.0 in w.engine.active { OnePromiseEach(w, limits, x.0, x.1, x.1); }
    forall x, y | x in work && y in work && x.0 == y.0 ensures x == y { OnePromiseEach(w, limits, x.0, x.1, y.1); }
    FewerThan(work, w.engine.active);
  }

  lemma InvHasEngine(w: World, limits: D.CheckedLimits)
    requires Inv(w, limits)
    ensures EngineAgrees(w, limits)
  {
  }

  // --------------------------------------------------------------- bounded attempts

  /** The calls a request can still make in one of its steps. */
  function Remaining(r: Request, step: nat): nat
    requires step < |r.steps|
  {
    if r.phase.Done? || step < r.phase.step then 0
    else if step > r.phase.step then Attempts(r, step)
    else Max(0, Attempts(r, step) - r.phase.attempt - if r.phase.Awaiting? then 1 else 0)
  }

  predicate Concerns(e: Event, id: Id) { !e.Tick? && !e.Configure? && e.id == id }

  /** Nothing of any other request changes. */
  ghost predicate SameElsewhere(w: World, w': World, id: Id) {
    && (forall i | i != id :: i in w'.requests <==> i in w.requests)
    && (forall i | i != id && i in w.requests :: w'.requests[i] == w.requests[i])
    && (forall i, step | i != id :: w'.calls[(i, step)] == w.calls[(i, step)])
  }

  lemma FinishElsewhere(w: World, id: Id, ok: bool)
    requires id in w.requests
    ensures SameElsewhere(w, Finish(w, id, ok), id)
  {
  }

  /** Finishing with one more round logged. */
  lemma EndElsewhere(w: World, id: Id, round: R.Round<bool>, ok: bool)
    requires id in w.requests
    ensures SameElsewhere(w, Finish(Logged(w, id, round), id, ok), id)
  {
    hide Finish;
    FinishElsewhere(Logged(w, id, round), id, ok);
  }

  lemma FailureElsewhere(w: World, id: Id, step: nat, attempt: nat, awaited: Outcome<bool>)
    requires id in w.requests && ValidStep(w.requests[id], step)
    ensures SameElsewhere(w, AfterFailure(w, id, step, attempt, awaited), id)
  {
    hide Finish, Stopped, R.Pause, R.ValidOptions;
    EndElsewhere(w, id, Caught(w, id, awaited), false);
  }

  lemma SuccessElsewhere(w: World, id: Id, step: nat, usable: bool)
    requires id in w.requests
    ensures SameElsewhere(w, AfterSuccess(w, id, step, usable), id)
  {
    hide Finish, Stopped;
    EndElsewhere(w, id, Caught(w, id, Resolved(usable)), false);
    EndElsewhere(w, id, Caught(w, id, Resolved(usable)), true);
  }

  lemma CallElsewhere(w: World, id: Id, step: nat, attempt: nat, call: Call)
    requires id in w.requests && ValidStep(w.requests[id], step)
    ensures SameElsewhere(w, AfterCall(w, id, step, attempt, call), id)
  {
    hide AfterFailure, D.Next;
    if call.Throws? { FailureElsewhere(w, id, step, attempt, Refused); }
  }

  lemma CalledElsewhere(w: World, id: Id, step: nat, took: nat, aborted: bool)
    requires id in w.requests
    ensures SameElsewhere(w, Called(w, id, step, took, aborted), id)
    ensures id in Called(w, id, step, took, aborted).requests
    ensures SameSteps(w.requests[id], Called(w, id, step, took, aborted).requests[id])
  {
  }

  lemma ElsewhereTwice(a: World, b: World, c: World, id: Id)
    requires SameElsewhere(a, b, id) && SameElsewhere(b, c, id)
    ensures SameElsewhere(a, c, id)
  {
  }

  lemma AttemptElsewhere(w: World, id: Id, call: Call, took: nat, aborted: bool)
    requires Enabled(w, Attempt(id, call, took, aborted))
    ensures SameElsewhere(w, Next(w, Attempt(id, call, took, aborted)), id)
  {
    hide SameElsewhere, Finish, AfterCall, Called, Stopped, D.HistoryOf, R.ValidOptions;
    var r := w.requests[id];
    var p := r.phase;
    if !ValidStep(r, p.step) {
      FinishElsewhere(w, id, false);
    } else if Stopped(r.signal, w.now) {
      EndElsewhere(w, id, R.Round(true, Interrupted, true, false), false);
    } else {
      var called := Called(w, id, p.step, took, aborted);
      CalledElsewhere(w, id, p.step, took, aborted);
      CallElsewhere(called, id, p.step, p.attempt, call);
      ElsewhereTwice(w, called, AfterCall(called, id, p.step, p.attempt, call), id);
    }
  }

  lemma NextElsewhere(w: World, e: Event, id: Id)
    requires Enabled(w, e) && Concerns(e, id)
    ensures SameElsewhere(w, Next(w, e), id)
  {
    hide Finish, AfterFailure, AfterSuccess, Stopped, WaitOf, Hear, Aborted, AfterAnswer,
         D.Next, D.HistoryOf, D.CanStart, D.Outstanding;
    match e
    case Attempt(_, call, took, aborted) =>
      hide Next, Enabled;
      AttemptElsewhere(w, id, call, took, aborted);
    case Abort(_) =>
      var r := w.requests[id];
      if r.phase.Pausing? {
        EndElsewhere(Ran(w, id, 0, true), id, r.phase.failed.(pauseAborted := true), false);
      }
    case Resumes(_) =>
      var p := w.requests[id].phase;
      FailureElsewhere(w, id, p.step, p.attempt, WaitOf(p.race).outcome.value);
      SuccessElsewhere(w, id, p.step, true);
      SuccessElsewhere(w, id, p.step, false);
    case Quit(_) => FinishElsewhere(w, id, false);
    case Begin(_, _, _) =>
    case PromiseSettles(_, _, _) =>
    case DeadlineFires(_) =>
    case PauseEnds(_) =>
  }

  lemma OthersUntouched(w: World, e: Event, id: Id)
    requires Enabled(w, e) && !Concerns(e, id)
    ensures id in Next(w, e).requests <==> id in w.requests
    ensures id in w.requests ==> Next(w, e).requests[id] == w.requests[id]
    ensures forall step :: Next(w, e).calls[(id, step)] == w.calls[(id, step)]
  {
    if !e.Tick? && !e.Configure? {
      hide Next, Enabled;
      NextElsewhere(w, e, e.id);
    }
  }

  lemma FinishIs(w: World, id: Id, ok: bool)
    requires id in w.requests
    ensures id in Finish(w, id, ok).requests
    ensures Finish(w, id, ok).requests[id] == w.requests[id].(phase := Done(ok))
    ensures Finish(w, id, ok).calls == w.calls
  {
  }

  lemma EndIs(w: World, id: Id, round: R.Round<bool>, ok: bool)
    requires id in w.requests
    ensures var w', r := Finish(Logged(w, id, round), id, ok), w.requests[id];
      id in w'.requests && w'.requests[id] == r.(phase := Done(ok), rounds := r.rounds + [round]) && w'.calls == w.calls
  {
    hide Finish;
    FinishIs(Logged(w, id, round), id, ok);
  }

  /** What the code after a failed, a successful and any attempt leaves of its request. */
  lemma FailureIs(w: World, id: Id, step: nat, attempt: nat, awaited: Outcome<bool>)
    requires id in w.requests && ValidStep(w.requests[id], step)
    ensures var w', r := AfterFailure(w, id, step, attempt, awaited), w.requests[id];
      && id in w'.requests && w'.calls == w.calls
      && var r' := w'.requests[id];
      && SameSteps(r, r') && r'.signal == r.signal
      && (r'.phase.Done? || (!r'.phase.Awaiting? && r'.phase.step == step && r'.phase.attempt == attempt + 1))
  {
    hide Finish, Stopped, R.ValidOptions, R.Pause;
    EndIs(w, id, Caught(w, id, awaited), false);
  }

  lemma SuccessIs(w: World, id: Id, step: nat, usable: bool)
    requires id in w.requests
    ensures var w', r := AfterSuccess(w, id, step, usable), w.requests[id];
      && id in w'.requests && w'.calls == w.calls
      && var r' := w'.requests[id];
      && SameSteps(r, r') && r'.signal == r.signal && (r'.phase.Done? || r'.phase == Ready(step + 1, 0))
  {
    hide Finish, Stopped;
    EndIs(w, id, Caught(w, id, Resolved(usable)), false);
    EndIs(w, id, Caught(w, id, Resolved(usable)), true);
  }

  lemma CallIs(w: World, id: Id, step: nat, attempt: nat, call: Call)
    requires id in w.requests && ValidStep(w.requests[id], step)
    ensures var w', r := AfterCall(w, id, step, attempt, call), w.requests[id];
      && id in w'.requests && w'.calls == w.calls
      && var r' := w'.requests[id];
      && SameSteps(r, r') && r'.signal == r.signal
      && (r'.phase.Done? || (r'.phase.step == step
            && r'.phase.attempt == (if r'.phase.Awaiting? then attempt else attempt + 1)))
  {
    hide AfterFailure, D.Next;
    if call.Throws? { FailureIs(w, id, step, attempt, Refused); }
  }

  /** The calls made in a step and those still possible are never more than its attempts. */
  ghost predicate Spends(w: World, w': World, id: Id, step: nat)
    requires id in w.requests && step < |w.requests[id].steps|
  {
    && id in w'.requests && SameSteps(w.requests[id], w'.requests[id])
    && w'.calls[(id, step)] + Remaining(w'.requests[id], step) <= w.calls[(id, step)] + Remaining(w.requests[id], step)
  }

  /** What comes after a call uses up the attempt and calls nothing. */
  lemma CallSpends(w: World, id: Id, at: nat, attempt: nat, call: Call, step: nat)
    requires id in w.requests && at < |w.requests[id].steps| && step < |w.requests[id].steps|
    requires w.requests[id].phase == Ready(at, attempt)
    requires ValidStep(w.requests[id], at) && attempt < Attempts(w.requests[id], at)
    ensures var w' := AfterCall(w, id, at, attempt, call);
      && id in w'.requests && SameSteps(w.requests[id], w'.requests[id]) && w'.calls == w.calls
      && Remaining(w'.requests[id], step) + (if step == at then 1 else 0) <= Remaining(w.requests[id], step)
  {
    hide AfterCall, R.ValidOptions;
    CallIs(w, id, at, attempt, call);
  }

  lemma AttemptSpends(w: World, id: Id, call: Call, took: nat, aborted: bool, step: nat)
    requires Enabled(w, Attempt(id, call, took, aborted)) && step < |w.requests[id].steps|
    requires var p := w.requests[id].phase; p.attempt == 0 || p.attempt < Attempts(w.requests[id], p.step)
    ensures Spends(w, Next(w, Attempt(id, call, took, aborted)), id, step)
  {
    hide AfterCall, Finish, Logged, Stopped, D.HistoryOf, R.ValidOptions;
    var p := w.requests[id].phase;
    FinishIs(w, id, false);
    EndIs(w, id, R.Round(true, Interrupted, true, false), false);
    if ValidStep(w.requests[id], p.step) {
      ValidMeansAttempts(w.requests[id], p.step);
      CallSpends(Called(w, id, p.step, took, aborted), id, p.step, p.attempt, call, step);
    }
  }

  /** What any event but its beginning and its attempts leaves of a request. */
  lemma OtherwiseIs(w: World, e: Event, id: Id)
    requires Enabled(w, e) && Concerns(e, id) && !e.Attempt? && !e.Begin?
    ensures var w', r := Next(w, e), w.requests[id];
      && id in w'.requests && w'.calls == w.calls
      && var r' := w'.requests[id];
      && SameSteps(r, r') && r'.signal == r.signal.(aborted := r.signal.aborted || e.Abort?)
      && (r'.phase.Done? || (!r.phase.Done?
            && (r'.phase == Ready(r.phase.step + 1, 0)
                || (r'.phase.step == r.phase.step
                    && (if r'.phase.Awaiting? then r.phase.Awaiting? && r'.phase.attempt == r.phase.attempt
                        else r'.phase.attempt == r.phase.attempt + (if r.phase.Awaiting? then 1 else 0))))))
  {
    hide Finish, Logged, AfterFailure, AfterSuccess, WaitOf, Stopped, PastDeadline, R.ValidOptions;
    hide D.Next, D.HistoryOf, D.Outstanding;
    var r := w.requests[id];
    match e
    case Resumes(_) =>
      var o := WaitOf(r.phase.race).outcome.value;
      if o.Resolved? { SuccessIs(w, id, r.phase.step, o.value); }
      else { FailureIs(w, id, r.phase.step, r.phase.attempt, o); }
    case Abort(_) =>
      if r.phase.Pausing? { EndIs(Ran(w, id, 0, true), id, r.phase.failed.(pauseAborted := true), false); }
    case PauseEnds(_) => LoggedIs(w, id, r.phase.failed);
    case Quit(_) => FinishIs(w, id, false);
    case PromiseSettles(_, _, _) =>
    case DeadlineFires(_) =>
  }

  lemma LoggedIs(w: World, id: Id, round: R.Round<bool>)
    requires id in w.requests
    ensures var w', r := Logged(w, id, round), w.requests[id];
      id in w'.requests && w'.requests[id] == r.(rounds := r.rounds + [round]) && w'.calls == w.calls
  {
  }

  lemma OtherwiseSpendsNothing(w: World, e: Event, id: Id, step: nat)
    requires Enabled(w, e) && Concerns(e, id) && !e.Attempt? && !e.Begin? && step < |w.requests[id].steps|
    ensures Spends(w, Next(w, e), id, step) && Next(w, e).calls == w.calls
  {
    OtherwiseIs(w, e, id);
    hide Next, Enabled, R.ValidOptions;
  }

  lemma NextSpends(w: World, limits: D.CheckedLimits, e: Event, id: Id, step: nat)
    requires Inv(w, limits) && Enabled(w, e) && id in w.requests && step < |w.requests[id].steps|
    ensures Spends(w, Next(w, e), id, step)
  {
    assert Known(w, D.HistoryOf(w.trace), id);
    hide Inv, Next, Remaining;
    if !Concerns(e, id) {
      OthersUntouched(w, e, id);
    } else if e.Attempt? {
      AttemptSpends(w, id, e.call, e.took, e.abortedMeanwhile, step);
    } else {
      OtherwiseSpendsNothing(w, e, id, step);
    }
  }

  /** From any point on, a step is called at most as often as it has attempts left there. */
  lemma {:induction false} CallsFromHere(w: World, limits: D.CheckedLimits, events: seq<Event>, id: Id, step: nat)
    requires Inv(w, limits) && Legal(w, events) && id in w.requests && step < |w.requests[id].steps|
    ensures Spends(w, Run(w, events), id, step)
    decreases |events|
  {
    hide Inv, Enabled, Next, Remaining;
    if events != [] {
      NextSpends(w, limits, events[0], id, step);
      NextKeepsInv(w, limits, events[0]);
      CallsFromHere(Next(w, events[0]), limits, events[1..], id, step);
    }
  }

  lemma BeginSpendsNothing(w: World, e: Event, id: Id, step: nat)
    requires Enabled(w, e) && e.Begin? && e.id == id && w.calls[(id, step)] == 0
    ensures var w' := Next(w, e);
      && w'.calls[(id, step)] == 0
      && (id in w'.requests && id !in w.requests && step < |w'.requests[id].steps| ==>
            Remaining(w'.requests[id], step) == Attempts(w'.requests[id], step))
  {
    hide D.Next, D.HistoryOf, D.CanStart, Stopped;
  }

  /** However waits end, a step never calls its plugin more often than its attempts allow. */
  lemma {:induction false} AttemptsAreBounded(w: World, limits: D.CheckedLimits, events: seq<Event>, id: Id, step: nat)
    requires Inv(w, limits) && Legal(w, events) && id !in w.requests && w.calls[(id, step)] == 0
    ensures var w' := Run(w, events);
      && (id !in w'.requests ==> w'.calls[(id, step)] == 0)
      && (id in w'.requests && step < |w'.requests[id].steps| ==>
            w'.calls[(id, step)] + Remaining(w'.requests[id], step) <= Attempts(w'.requests[id], step))
    decreases |events|
  {
    hide Inv, Enabled, Next, Remaining;
    if events != [] {
      var e, w' := events[0], Next(w, events[0]);
      NextKeepsInv(w, limits, e);
      if Concerns(e, id) {
        NewIdsBegin(w, limits, e, id);
        BeginSpendsNothing(w, e, id, step);
      } else {
        OthersUntouched(w, e, id);
      }
      if id !in w'.requests {
        AttemptsAreBounded(w', limits, events[1..], id, step);
      } else if step < |w'.requests[id].steps| {
        CallsFromHere(w', limits, events[1..], id, step);
      } else {
        AttemptsStay(w', limits, events[1..], id);
      }
    }
  }

  lemma NewIdsBegin(w: World, limits: D.CheckedLimits, e: Event, id: Id)
    requires Inv(w, limits) && Enabled(w, e) && Concerns(e, id) && id !in w.requests
    ensures e.Begin?
  {
  }

  /** The steps of a request are fixed when it begins. */
  lemma {:induction false} AttemptsStay(w: World, limits: D.CheckedLimits, events: seq<Event>, id: Id)
    requires Inv(w, limits) && Legal(w, events) && id in w.requests
    ensures id in Run(w, events).requests && SameSteps(w.requests[id], Run(w, events).requests[id])
    decreases |events|
  {
    hide Inv, Enabled, Next;
    if events != [] {
      NextKeepsInv(w, limits, events[0]);
      StepsStay(w, limits, events[0], id);
      AttemptsStay(Next(w, events[0]), limits, events[1..], id);
    }
  }

  lemma StepsStay(w: World, limits: D.CheckedLimits, e: Event, id: Id)
    requires Inv(w, limits) && Enabled(w, e) && id in w.requests
    ensures id in Next(w, e).requests && SameSteps(w.requests[id], Next(w, e).requests[id])
  {
    assert Known(w, D.HistoryOf(w.trace), id);
    hide Inv, Next;
    if !Concerns(e, id) {
      OthersUntouched(w, e, id);
    } else if w.requests[id].steps != [] {
      NextSpends(w, limits, e, id, 0);
    } else {
      assert w.requests[id].phase.Done?;
      DoneKeepsSteps(w, e, id);
    }
  }

  lemma DoneKeepsSteps(w: World, e: Event, id: Id)
    requires Enabled(w, e) && Concerns(e, id) && !e.Begin? && w.requests[id].phase.Done?
    ensures id in Next(w, e).requests && SameSteps(w.requests[id], Next(w, e).requests[id])
  {
    OtherwiseIs(w, e, id);
    hide Next, Enabled;
  }

  /** Once stopped, always stopped: no plugin of that request is called any more. */
  lemma {:induction false} NoCallAfterStop(w: World, limits: D.CheckedLimits, events: seq<Event>, id: Id, step: nat)
    requires Inv(w, limits) && Legal(w, events) && id in w.requests && Stopped(w.requests[id].signal, w.now)
    ensures Run(w, events).calls[(id, step)] == w.calls[(id, step)]
    decreases |events|
  {
    hide Inv, Enabled, Next, Stopped;
    if events != [] {
      StopStays(w, limits, events[0], id);
      StoppedCallsNothing(w, limits, events[0], id, step);
      NextKeepsInv(w, limits, events[0]);
      NoCallAfterStop(Next(w, events[0]), limits, events[1..], id, step);
    }
  }

  lemma StoppedCallsNothing(w: World, limits: D.CheckedLimits, e: Event, id: Id, step: nat)
    requires Inv(w, limits) && Enabled(w, e) && id in w.requests && Stopped(w.requests[id].signal, w.now)
    ensures Next(w, e).calls[(id, step)] == w.calls[(id, step)]
  {
    hide Inv, Next;
    if Next(w, e).calls != w.calls {
      OnlyAttemptsCall(w, e);
      OthersUntouched(w, e, id);
    }
  }

  lemma TimeGoesOn(w: World, e: Event)
    requires Enabled(w, e)
    ensures Next(w, e).now >= w.now
  {
    hide D.Next, D.HistoryOf, D.Outstanding, D.CanStart, D.Outcome, Stopped;
  }

  lemma SignalStays(w: World, e: Event, id: Id)
    requires Enabled(w, e) && Concerns(e, id) && !e.Begin?
    ensures var w' := Next(w, e);
      && id in w'.requests && w'.requests[id].signal.deadline == w.requests[id].signal.deadline
      && (w.requests[id].signal.aborted ==> w'.requests[id].signal.aborted)
  {
    if e.Attempt? {
      hide AfterCall, Finish, Logged, Stopped, D.HistoryOf, R.ValidOptions;
      var p := w.requests[id].phase;
      FinishIs(w, id, false);
      EndIs(w, id, R.Round(true, Interrupted, true, false), false);
      if ValidStep(w.requests[id], p.step) {
        CallIs(Called(w, id, p.step, e.took, e.abortedMeanwhile), id, p.step, p.attempt, e.call);
      }
    } else {
      hide Next, Enabled;
      OtherwiseIs(w, e, id);
    }
  }

  lemma StopStays(w: World, limits: D.CheckedLimits, e: Event, id: Id)
    requires Inv(w, limits) && Enabled(w, e) && id in w.requests && Stopped(w.requests[id].signal, w.now)
    ensures id in Next(w, e).requests && Stopped(Next(w, e).requests[id].signal, Next(w, e).now)
  {
    assert Known(w, D.HistoryOf(w.trace), id);
    hide Inv, Next;
    TimeGoesOn(w, e);
    if Concerns(e, id) {
      SignalStays(w, e, id);
    } else {
      OthersUntouched(w, e, id);
    }
  }
}
