/**
 The request-capacity protocol of DataEngine. Request ids are random UUIDs in the
 source, here numbers that are never used twice; a tracked promise is a number.
 */
module DataEngine {
  import opened Buffers

  type Id = nat
  type Work = nat

  const MAX_PLUGINS: nat := 256

  /** Every limit of the engine; those the formats read are the EngineLimits of their own module. */
  datatype Limits = Limits(
    maxInputBytes: int,
    maxOutputBytes: int,
    maxFrameBytes: int,
    maxFrames: int,
    maxConcurrentOperations: int,
    operationTimeoutMs: int,
    maxRetryAttempts: int,
    maxRetryDelayMs: int,
    maxKmsEncryptedKeyBytes: int,
    maxKmsKeyIdBytes: int)

  const DEFAULT_LIMITS: Limits := Limits(
    64 * 1024 * 1024, 256 * 1024 * 1024, 8 * 1024 * 1024, 100_000, 32, 5 * 60_000, 5, 30_000, 64 * 1024, 512)

  const MAX_TIMER_MS: int := 0x7fff_ffff

  function Values(l: Limits): seq<int> {
    [l.maxInputBytes, l.maxOutputBytes, l.maxFrameBytes, l.maxFrames, l.maxConcurrentOperations, l.operationTimeoutMs,
     l.maxRetryAttempts, l.maxRetryDelayMs, l.maxKmsEncryptedKeyBytes, l.maxKmsKeyIdBytes]
  }

  /** When validateLimits does not throw. */
  predicate ValidLimits(l: Limits) {
    && (forall v | v in Values(l) :: 0 <= v <= MAX_SAFE_INTEGER)
    && l.maxInputBytes >= 1 && l.maxOutputBytes >= 1 && l.maxFrameBytes >= 1 && l.maxFrames >= 1
    && l.maxConcurrentOperations >= 1 && l.maxRetryAttempts >= 1
    && l.maxKmsEncryptedKeyBytes >= 1 && l.maxKmsKeyIdBytes >= 1
    && l.operationTimeoutMs <= MAX_TIMER_MS && l.maxKmsEncryptedKeyBytes <= 0xffff_ffff
  }

  type CheckedLimits = l: Limits | ValidLimits(l) witness DEFAULT_LIMITS

  datatype Engine = Engine(
    limits: CheckedLimits,
    plugins: seq<string>,
    active: set<Id>,
    pending: map<Id, set<Work>>,
    finished: set<Id>,
    pipelines: map<Id, seq<string>>)

  function Created(limits: CheckedLimits): Engine { Engine(limits, [], {}, map[], {}, map[]) }

  // Each request of an engine method, with the outcome the caller sees.
  datatype Event =
    | Start(id: Id, ok: bool)
    | Track(id: Id, work: Work)
    | Settle(id: Id, work: Work)
    | Release(id: Id)
    | SetLimits(next: Limits, ok: bool)
    | Use(plugin: string, ok: bool)

  predicate CanStart(e: Engine) { |e.active| < e.limits.maxConcurrentOperations }

  function WorkOf(e: Engine, id: Id): set<Work> { if id in e.pending then e.pending[id] else {} }

  function Released(e: Engine, id: Id): Engine {
    if WorkOf(e, id) != {} then e.(finished := e.finished + {id})
    else e.(active := e.active - {id}, finished := e.finished - {id}, pipelines := e.pipelines - {id})
  }

  /** A promise leaves the set of its request, and an emptied set leaves the map. */
  function Dropped(e: Engine, id: Id, work: Work): Engine {
    var left := WorkOf(e, id) - {work};
    if left != {} then e.(pending := e.pending[id := left]) else e.(pending := e.pending - {id})
  }

  function Settled(e: Engine, id: Id, work: Work): Engine {
    var idle := Dropped(e, id, work);
    if WorkOf(e, id) - {work} == {} && id in e.finished then Released(idle, id) else idle
  }

  function Next(e: Engine, v: Event): Engine {
    match v
    case Start(id, _) =>
      if CanStart(e) then e.(active := e.active + {id}, pipelines := e.pipelines[id := e.plugins]) else e
    case Track(id, work) => e.(pending := e.pending[id := WorkOf(e, id) + {work}])
    case Settle(id, work) => Settled(e, id, work)
    case Release(id) => Released(e, id)
    case SetLimits(next, _) => if e.active != {} || !ValidLimits(next) then e else e.(limits := next)
    case Use(plugin, _) =>
      if e.active != {} || |e.plugins| >= MAX_PLUGINS then e else e.(plugins := e.plugins + [plugin])
  }

  function Outcome(e: Engine, v: Event): bool {
    match v
    case Start(_, _) => CanStart(e)
    case SetLimits(next, _) => e.active == {} && ValidLimits(next)
    case Use(_, _) => e.active == {} && |e.plugins| < MAX_PLUGINS
    case Track(_, _) => true
    case Settle(_, _) => true
    case Release(_) => true
  }

  /** The chain emitAudit reports for a request. */
  function AuditChain(e: Engine, id: Id): seq<string> { if id in e.pipelines then e.pipelines[id] else e.plugins }

  // ---------------------------------------------------------------------- history

  /** What happened so far, independently of the engine's own bookkeeping. */
  datatype History = History(started: set<Id>, released: set<Id>, tracked: set<(Id, Work)>, settled: set<(Id, Work)>)

  function Happened(h: History, v: Event): History {
    match v
    case Start(id, ok) => if ok then h.(started := h.started + {id}) else h
    case Track(id, work) => h.(tracked := h.tracked + {(id, work)})
    case Settle(id, work) => h.(settled := h.settled + {(id, work)})
    case Release(id) => if id in h.started then h.(released := h.released + {id}) else h
    case SetLimits(_, _) => h
    case Use(_, _) => h
  }

  function Run(e: Engine, events: seq<Event>): Engine {
    if events == [] then e else Next(Run(e, events[..|events| - 1]), events[|events| - 1])
  }

  function HistoryOf(events: seq<Event>): History {
    if events == [] then History({}, {}, {}, {}) else Happened(HistoryOf(events[..|events| - 1]), events[|events| - 1])
  }

  predicate Outstanding(h: History, id: Id, work: Work) { (id, work) in h.tracked && (id, work) !in h.settled }

  /** Ids are new, tracked promises are new and on an active request, and a promise settles once. */
  predicate Possible(e: Engine, h: History, v: Event) {
    match v
    case Start(id, ok) => id !in h.started && ok == Outcome(e, v)
    case Track(id, work) => id in e.active && (id, work) !in h.tracked
    case Settle(id, work) => Outstanding(h, id, work)
    case Release(_) => true
    case SetLimits(_, ok) => ok == Outcome(e, v)
    case Use(_, ok) => ok == Outcome(e, v)
  }

  predicate Legal(e: Engine, events: seq<Event>) {
    events == [] || (
      var front := events[..|events| - 1];
      Legal(e, front) && Possible(Run(e, front), HistoryOf(front), events[|events| - 1]))
  }

  /** A request holds its slot until its first release and the settlement of its last tracked promise. */
  ghost predicate Holds(h: History, id: Id) {
    id in h.started && (id !in h.released || exists work :: Outstanding(h, id, work))
  }

  // -------------------------------------------------------------------- invariant

  /** The engine's pending work is the work outstanding in the history. */
  ghost predicate WorkAgrees(e: Engine, h: History) {
    && (forall id :: id in e.pending ==> e.pending[id] != {})
    && (forall id, work :: work in WorkOf(e, id) <==> Outstanding(h, id, work))
  }

  /** What the engine keeps for one request. */
  ghost predicate RequestAgrees(e: Engine, h: History, id: Id) {
    && (id in e.active <==> id in h.started && (id !in h.released || WorkOf(e, id) != {}))
    && (id in e.finished <==> id in h.released && WorkOf(e, id) != {})
    && (WorkOf(e, id) != {} ==> id in h.started)
    && (id in e.pipelines <==> id in e.active)
    && (id in e.pipelines ==> e.pipelines[id] == e.plugins)
  }

  ghost predicate Inv(e: Engine, h: History) {
    && |e.active| <= e.limits.maxConcurrentOperations
    && h.released <= h.started
    && WorkAgrees(e, h)
    && forall id :: RequestAgrees(e, h, id)
  }

  /** What a step leaves alone: every other request. */
  lemma OthersAgree(e: Engine, h: History, e': Engine, h': History, id: Id)
    requires forall i :: RequestAgrees(e, h, i)
    requires e'.plugins == e.plugins && RequestAgrees(e', h', id)
    requires forall i | i != id ::
      && WorkOf(e', i) == WorkOf(e, i)
      && (i in e'.active <==> i in e.active) && (i in e'.finished <==> i in e.finished)
      && (i in h'.started <==> i in h.started) && (i in h'.released <==> i in h.released)
      && (i in e'.pipelines <==> i in e.pipelines) && (i in e.pipelines ==> e'.pipelines[i] == e.pipelines[i])
    ensures forall i :: RequestAgrees(e', h', i)
  {
    forall i ensures RequestAgrees(e', h', i) {
      if i != id { assert RequestAgrees(e, h, i); }
    }
  }

  lemma WorkStillAgrees(e: Engine, h: History, e': Engine, h': History)
    requires WorkAgrees(e, h) && e'.pending == e.pending && h'.tracked == h.tracked && h'.settled == h.settled
    ensures WorkAgrees(e', h') && forall i :: WorkOf(e', i) == WorkOf(e, i)
  {
    forall id, work ensures work in WorkOf(e', id) <==> Outstanding(h', id, work) {
      assert work in WorkOf(e, id) <==> Outstanding(h, id, work);
    }
  }

  lemma StartKeepsInv(e: Engine, h: History, id: Id)
    requires Inv(e, h) && id !in h.started && CanStart(e)
    ensures Inv(Next(e, Start(id, true)), Happened(h, Start(id, true)))
  {
    var e', h' := Next(e, Start(id, true)), Happened(h, Start(id, true));
    WorkStillAgrees(e, h, e', h');
    hide WorkAgrees, WorkOf, Outstanding;
    assert RequestAgrees(e, h, id);
    OthersAgree(e, h, e', h', id);
  }

  lemma TrackKeepsInv(e: Engine, h: History, id: Id, work: Work)
    requires Inv(e, h) && Possible(e, h, Track(id, work))
    requires (id, work) !in h.settled
    ensures Inv(Next(e, Track(id, work)), Happened(h, Track(id, work)))
  {
    var e', h' := Next(e, Track(id, work)), Happened(h, Track(id, work));
    assert RequestAgrees(e, h, id);
    assert work in WorkOf(e', id);
    assert id in h.released ==> WorkOf(e, id) != {};
    OthersAgree(e, h, e', h', id);
    forall i, w ensures w in WorkOf(e', i) <==> Outstanding(h', i, w) {
      assert Outstanding(h', i, w) <==> Outstanding(h, i, w) || (i == id && w == work);
    }
  }

  lemma ReleaseAgrees(e: Engine, h: History, e': Engine, h': History, id: Id)
    requires forall i :: RequestAgrees(e, h, i)
    requires e' == Released(e, id) && h' == Happened(h, Release(id))
    requires forall i :: WorkOf(e', i) == WorkOf(e, i)
    ensures forall i :: RequestAgrees(e', h', i)
  {
    hide WorkOf;
    assert RequestAgrees(e, h, id);
    assert RequestAgrees(e', h', id);
    forall i | i != id ensures RequestAgrees(e', h', i) {
      assert RequestAgrees(e, h, i);
    }
  }

  lemma ReleaseKeepsInv(e: Engine, h: History, id: Id)
    requires Inv(e, h)
    ensures Inv(Released(e, id), Happened(h, Release(id)))
  {
    var e', h' := Released(e, id), Happened(h, Release(id));
    assert h'.released <= h'.started && e'.active <= e.active;
    SubsetSize(e'.active, e.active);
    WorkStillAgrees(e, h, e', h');
    ReleaseAgrees(e, h, e', h', id);
  }

  lemma {:induction false} SubsetSize(a: set<Id>, b: set<Id>)
    requires a <= b
    ensures |a| <= |b|
  {
    if x :| x in a {
      SubsetSize(a - {x}, b - {x});
    }
  }

  lemma SettleKeepsInv(e: Engine, h: History, id: Id, work: Work)
    requires Inv(e, h) && Outstanding(h, id, work)
    ensures Inv(Settled(e, id, work), Happened(h, Settle(id, work)))
  {
    var e', h' := Settled(e, id, work), Happened(h, Settle(id, work));
    assert RequestAgrees(e, h, id);
    assert work in WorkOf(e, id);
    assert WorkOf(e', id) == WorkOf(e, id) - {work};
    OthersAgree(e, h, e', h', id);
    forall i, w ensures w in WorkOf(e', i) <==> Outstanding(h', i, w) {
      assert Outstanding(h', i, w) <==> Outstanding(h, i, w) && !(i == id && w == work);
    }
    SubsetSize(e'.active, e.active);
  }

  /** Configuration calls change nothing while a request is active. */
  lemma ConfigureKeepsInv(e: Engine, h: History, v: Event)
    requires Inv(e, h) && (v.SetLimits? || v.Use?)
    ensures Inv(Next(e, v), h)
  {
    var e' := Next(e, v);
    WorkStillAgrees(e, h, e', h);
    hide WorkAgrees, WorkOf, Outstanding;
    if e.active == {} {
      forall id ensures RequestAgrees(e', h, id) {
        assert RequestAgrees(e, h, id);
      }
    }
  }

  lemma {:induction false} SettledWereTracked(events: seq<Event>, e: Engine)
    requires Legal(e, events)
    ensures HistoryOf(events).settled <= HistoryOf(events).tracked
  {
    if events != [] { SettledWereTracked(events[..|events| - 1], e); }
  }

  lemma {:induction false} RunKeepsInv(limits: CheckedLimits, events: seq<Event>)
    requires Legal(Created(limits), events)
    ensures Inv(Run(Created(limits), events), HistoryOf(events))
  {
    if events != [] {
      var front, v := events[..|events| - 1], events[|events| - 1];
      RunKeepsInv(limits, front);
      SettledWereTracked(front, Created(limits));
      hide Inv, Released, Settled;
      var e, h := Run(Created(limits), front), HistoryOf(front);
      match v
      case Start(id, ok) => if ok { StartKeepsInv(e, h, id); }
      case Track(id, work) => TrackKeepsInv(e, h, id, work);
      case Settle(id, work) => SettleKeepsInv(e, h, id, work);
      case Release(id) => ReleaseKeepsInv(e, h, id);
      case SetLimits(_, _) => ConfigureKeepsInv(e, h, v);
      case Use(_, _) => ConfigureKeepsInv(e, h, v);
    }
  }

  // ----------------------------------------------------------------- main results

  /**
   Over every interleaving, a request occupies a slot exactly until the later of its
   first release and the settlement of its last tracked promise; there are never more
   slots than the limit, and pipeline snapshots are kept for exactly the active requests.
   */
  lemma CapacityIsExact(limits: CheckedLimits, events: seq<Event>)
    requires Legal(Created(limits), events)
    ensures var e, h := Run(Created(limits), events), HistoryOf(events);
      && |e.active| <= e.limits.maxConcurrentOperations
      && (forall id :: id in e.active <==> Holds(h, id))
      && (forall id :: id in e.finished ==> id in e.active && WorkOf(e, id) != {})
      && (forall id :: id in e.pipelines <==> id in e.active)
  {
    RunKeepsInv(limits, events);
    var e, h := Run(Created(limits), events), HistoryOf(events);
    forall id
      ensures id in e.active <==> Holds(h, id)
      ensures id in e.finished ==> id in e.active && WorkOf(e, id) != {}
      ensures id in e.pipelines <==> id in e.active
    {
      assert RequestAgrees(e, h, id);
      if WorkOf(e, id) != {} {
        var work :| work in WorkOf(e, id);
        assert Outstanding(h, id, work);
      }
      if work :| Outstanding(h, id, work) {
        assert work in WorkOf(e, id);
      }
    }
  }

  /** The chain reported for an active request is the plugin list the engine executes. */
  lemma {:induction false} AuditReportsExecutedChain(limits: CheckedLimits, events: seq<Event>, id: Id)
    requires Legal(Created(limits), events) && id in Run(Created(limits), events).active
    ensures var e := Run(Created(limits), events); AuditChain(e, id) == e.plugins
  {
    RunKeepsInv(limits, events);
    assert RequestAgrees(Run(Created(limits), events), HistoryOf(events), id);
  }

  lemma ActiveFreezesConfiguration(e: Engine, v: Event)
    requires e.active != {}
    ensures Next(e, v).plugins == e.plugins && Next(e, v).limits == e.limits
  {
  }

  lemma OnlyStartActivates(e: Engine, h: History, v: Event, id: Id)
    requires Possible(e, h, v) && id in h.started && id in Next(e, v).active
    ensures id in e.active
  {
  }

  lemma {:induction false} StartedStays(before: seq<Event>, more: seq<Event>, id: Id)
    requires id in HistoryOf(before).started
    ensures id in HistoryOf(before + more).started
    decreases |more|
  {
    if more == [] {
      assert before + more == before;
    } else {
      assert (before + more)[..|before + more| - 1] == before + more[..|more| - 1];
      StartedStays(before, more[..|more| - 1], id);
    }
  }

  lemma {:induction false} ActiveWasStarted(limits: CheckedLimits, events: seq<Event>, id: Id)
    requires Legal(Created(limits), events) && id in Run(Created(limits), events).active
    ensures id in HistoryOf(events).started
  {
    RunKeepsInv(limits, events);
    assert RequestAgrees(Run(Created(limits), events), HistoryOf(events), id);
  }

  lemma {:induction false} LegalPrefix(e: Engine, before: seq<Event>, more: seq<Event>)
    requires Legal(e, before + more)
    ensures Legal(e, before)
    decreases |more|
  {
    hide Possible;
    if more == [] {
      assert before + more == before;
    } else {
      assert (before + more)[..|before + more| - 1] == before + more[..|more| - 1];
      LegalPrefix(e, before, more[..|more| - 1]);
    }
  }

  /** While a request is active its engine keeps one plugin list and one limit. */
  lemma {:induction false} ConfigurationStable(limits: CheckedLimits, before: seq<Event>, more: seq<Event>, id: Id)
    requires Legal(Created(limits), before + more)
    requires id in Run(Created(limits), before).active && id in Run(Created(limits), before + more).active
    ensures var e, e' := Run(Created(limits), before), Run(Created(limits), before + more);
      e'.plugins == e.plugins && e'.limits == e.limits
    decreases |more|
  {
    hide Next, Possible, Happened;
    if more == [] {
      assert before + more == before;
    } else {
      var all, front := before + more, more[..|more| - 1];
      assert all[..|all| - 1] == before + front;
      var e, v := Run(Created(limits), before + front), all[|all| - 1];
      LegalPrefix(Created(limits), before, more);
      ActiveWasStarted(limits, before, id);
      StartedStays(before, front, id);
      OnlyStartActivates(e, HistoryOf(before + front), v, id);
      ConfigurationStable(limits, before, front, id);
      ActiveFreezesConfiguration(e, v);
    }
  }

  /** The checks in the order of the source, the first loop over every value. */
  method ValidateLimits(l: Limits) returns (ok: bool)
    ensures ok == ValidLimits(l)
  {
    var values := Values(l);
    for i := 0 to |values|
      invariant forall k | 0 <= k < i :: 0 <= values[k] <= MAX_SAFE_INTEGER
    {
      assert values[i] in values;
      if values[i] < 0 || values[i] > MAX_SAFE_INTEGER { return false; }
    }
    if l.maxInputBytes < 1 || l.maxOutputBytes < 1 || l.maxFrameBytes < 1 || l.maxFrames < 1
       || l.maxConcurrentOperations < 1 || l.maxRetryAttempts < 1
       || l.maxKmsEncryptedKeyBytes < 1 || l.maxKmsKeyIdBytes < 1 { return false; }
    return l.operationTimeoutMs <= MAX_TIMER_MS && l.maxKmsEncryptedKeyBytes <= 0xffff_ffff;
  }

  // -------------------------------------------------------------------- the class

  /** The Set a tracked promise's callback captures. */
  class WorkSet {
    ghost const owner: Id
    var items: set<Work>

    constructor (ghost id: Id)
      ensures items == {} && owner == id
    {
      owner, items := id, {};
    }
  }

  class DataEngine {
    var limits: CheckedLimits
    var pluginView: seq<string>
    var activeRequests: set<Id>
    var pendingWork: map<Id, WorkSet>
    var finishedRequests: set<Id>
    var requestPipelines: map<Id, seq<string>>
    /** What the sets in pendingWork contain. */
    ghost var pending: map<Id, set<Work>>
    /** The set captured by the callback of each unsettled promise. */
    ghost var captured: map<(Id, Work), WorkSet>

    /** Requests do not share sets; exactly the unsettled promises have a callback to come, with the set in use. */
    ghost predicate Valid()
      reads this, pendingWork.Values
    {
      && pending.Keys == pendingWork.Keys
      && (forall id | id in pendingWork :: pendingWork[id].items == pending[id])
      && (forall id | id in pendingWork :: pendingWork[id].owner == id)
      && (forall id, work :: (id, work) in captured <==> id in pending && work in pending[id])
      && (forall id, work | (id, work) in captured :: captured[(id, work)] == pendingWork[id])
    }

    ghost function Snapshot(): Engine
      reads this
    {
      Engine(limits, pluginView, activeRequests, pending, finishedRequests, requestPipelines)
    }

    constructor (checked: CheckedLimits)
      ensures Valid() && Snapshot() == Created(checked)
    {
      limits, pluginView := checked, [];
      activeRequests, pendingWork, finishedRequests, requestPipelines := {}, map[], {}, map[];
      captured, pending := map[], map[];
    }

    method StartRequest(requestId: Id) returns (ok: bool)
      requires Valid()
      modifies this
      ensures Valid() && pendingWork == old(pendingWork)
      ensures ok == CanStart(old(Snapshot()))
      ensures Snapshot() == Next(old(Snapshot()), Start(requestId, ok))
    {
      if |activeRequests| >= limits.maxConcurrentOperations { return false; }
      activeRequests := activeRequests + {requestId};
      requestPipelines := requestPipelines[requestId := pluginView];
      return true;
    }

    /** Returns the set the promise's callback captures. */
    method TrackWork(requestId: Id, promise: Work) returns (work: WorkSet)
      requires Valid()
      modifies this, if requestId in pendingWork then {pendingWork[requestId]} else {}
      ensures Valid()
      ensures captured == old(captured)[(requestId, promise) := work]
      ensures fresh(pendingWork.Values - old(pendingWork.Values))
      ensures Snapshot() == Next(old(Snapshot()), Track(requestId, promise))
    {
      if requestId in pendingWork {
        work := pendingWork[requestId];
      } else {
        work := new WorkSet(requestId);
        pendingWork := pendingWork[requestId := work];
      }
      work.items := work.items + {promise};
      pending := pending[requestId := work.items];
      captured := captured[(requestId, promise) := work];
    }

    /** The promise leaves the set its callback captured, and an emptied set leaves the map. */
    method Drop(requestId: Id, work: WorkSet, promise: Work) returns (emptied: bool)
      requires Valid()
      requires (requestId, promise) in captured && captured[(requestId, promise)] == work
      modifies this`pendingWork, this`pending, this`captured, work
      ensures Valid()
      ensures captured == old(captured) - {(requestId, promise)}
      ensures emptied == (WorkOf(old(Snapshot()), requestId) - {promise} == {})
      ensures Snapshot() == Dropped(old(Snapshot()), requestId, promise)
    {
      assert (requestId, promise) in captured;
      work.items := work.items - {promise};
      captured := captured - {(requestId, promise)};
      emptied := work.items == {};
      if !emptied {
        pending := pending[requestId := work.items];
      } else {
        assert forall w | w in pending[requestId] && w != promise :: w in work.items;
        pendingWork, pending := pendingWork - {requestId}, pending - {requestId};
      }
    }

    /** The callback of a tracked promise, with the set it captured. */
    method OnSettled(requestId: Id, work: WorkSet, promise: Work)
      requires Valid()
      requires (requestId, promise) in captured && captured[(requestId, promise)] == work
      modifies this, work
      ensures Valid()
      ensures captured == old(captured) - {(requestId, promise)}
      ensures Snapshot() == Next(old(Snapshot()), Settle(requestId, promise))
    {
      hide Valid, Dropped, Released;
      var emptied := Drop(requestId, work, promise);
      if emptied {
        if requestId in finishedRequests { ReleaseRequest(requestId); }
      }
    }

    method ReleaseRequest(requestId: Id)
      requires Valid()
      modifies this
      ensures Valid() && pendingWork == old(pendingWork) && captured == old(captured)
      ensures Snapshot() == Next(old(Snapshot()), Release(requestId))
    {
      if requestId in pendingWork && pendingWork[requestId].items != {} {
        finishedRequests := finishedRequests + {requestId};
        return;
      }
      activeRequests := activeRequests - {requestId};
      finishedRequests := finishedRequests - {requestId};
      requestPipelines := requestPipelines - {requestId};
    }

    /** `next` is the limits in force with the given ones put over them. */
    method SetLimits(next: Limits) returns (ok: bool)
      requires Valid()
      modifies this
      ensures Valid() && pendingWork == old(pendingWork)
      ensures ok == Outcome(old(Snapshot()), Event.SetLimits(next, ok))
      ensures Snapshot() == Next(old(Snapshot()), Event.SetLimits(next, ok))
    {
      if |activeRequests| > 0 { return false; }
      var valid := ValidateLimits(next);
      if !valid { return false; }
      limits := next;
      return true;
    }

    method Use(plugin: string) returns (ok: bool)
      requires Valid()
      modifies this
      ensures Valid() && pendingWork == old(pendingWork)
      ensures ok == Outcome(old(Snapshot()), Event.Use(plugin, ok))
      ensures Snapshot() == Next(old(Snapshot()), Event.Use(plugin, ok))
    {
      if |activeRequests| > 0 { return false; }
      if |pluginView| >= MAX_PLUGINS { return false; }
      pluginView := pluginView + [plugin];
      return true;
    }

    method AuditedChain(requestId: Id) returns (chain: seq<string>)
      requires Valid()
      ensures chain == AuditChain(Snapshot(), requestId)
    {
      chain := if requestId in requestPipelines then requestPipelines[requestId] else pluginView;
    }
  }
}
