/**
 The worker pool's admission and close protocol: bounded admission, drain on
 close, idle waiters. A task is accepted and later settles, in any order.
 */
module WorkerPool {

  /** Where a close call stands. Destroying and Failing wait for the pool to be torn down. */
  datatype Closing =
    | Open
    | Destroying
    | Waiting(waiter: nat)
    | Resumed
    | ClosingPool
    | Failing
    | Closed(graceful: bool)
    | CloseFailed

  /** `accepted` and `settled` are the history of all tasks. */
  datatype Pool = Pool(
    maxInFlight: nat,
    accepting: bool,
    inFlight: nat,
    idleWaiters: set<nat>,
    fatal: bool,
    closing: Closing,
    accepted: set<nat>,
    settled: set<nat>)

  function Fresh(maxInFlight: nat): Pool { Pool(maxInFlight, true, 0, {}, false, Open, {}, {}) }

  datatype Event =
    | Submit(task: nat, inputFits: bool, timeoutValid: bool)
    | Settle(task: nat)
    | PoolError
    | Close(force: bool, waiter: nat)
    | IdleTimeout
    | Resume
    | PoolClosed(ok: bool)
    | Destroyed(ok: bool)

  /** The pool's error listener is removed when a close call ends. */
  predicate Listening(p: Pool) { !p.closing.Closed? && !p.closing.CloseFailed? }

  predicate Admits(p: Pool, e: Event)
    requires e.Submit?
  {
    !p.fatal && p.accepting && e.inputFits && p.inFlight < p.maxInFlight && e.timeoutValid
  }

  /** Which events can happen: tasks are new when submitted and settle once; waits end as they began. */
  predicate Enabled(p: Pool, e: Event) {
    match e
    case Submit(task, _, _) => task !in p.accepted
    case Settle(task) => task in p.accepted && task !in p.settled
    case PoolError => true
    case Close(_, _) => true
    case IdleTimeout => p.closing.Waiting?
    case Resume => p.closing.Resumed?
    case PoolClosed(_) => p.closing.ClosingPool?
    case Destroyed(_) => p.closing.Destroying? || p.closing.Failing?
  }

  function Next(p: Pool, e: Event): Pool {
    match e
    case Submit(task, _, _) =>
      if Admits(p, e) then p.(inFlight := p.inFlight + 1, accepted := p.accepted + {task}) else p
    case Settle(task) =>
      if p.inFlight == 0 then p else
      var q := p.(inFlight := p.inFlight - 1, settled := p.settled + {task});
      if q.inFlight > 0 || q.idleWaiters == {} then q
      else q.(idleWaiters := {}, closing := if p.closing.Waiting? then Resumed else p.closing)
    case PoolError => if Listening(p) && !p.fatal then p.(fatal := true, accepting := false) else p
    case Close(force, waiter) =>
      if !p.closing.Open? then p
      else if p.fatal || force then p.(accepting := false, closing := Destroying)
      else if p.inFlight > 0 then
        p.(accepting := false, closing := Waiting(waiter), idleWaiters := p.idleWaiters + {waiter})
      else p.(accepting := false, closing := ClosingPool)
    case IdleTimeout =>
      if p.closing.Waiting? then p.(closing := Failing, idleWaiters := p.idleWaiters - {p.closing.waiter}) else p
    case Resume => if p.closing.Resumed? then p.(closing := ClosingPool) else p
    case PoolClosed(ok) =>
      if !p.closing.ClosingPool? then p
      else if ok && !p.fatal then p.(closing := Closed(true)) else p.(closing := Failing)
    case Destroyed(ok) =>
      if p.closing.Failing? then p.(closing := CloseFailed)
      else if !p.closing.Destroying? then p
      else if ok then p.(closing := Closed(false)) else p.(closing := Failing)
  }

  function Run(p: Pool, events: seq<Event>): Pool {
    if events == [] then p else Next(Run(p, events[..|events| - 1]), events[|events| - 1])
  }

  predicate Legal(p: Pool, events: seq<Event>) {
    events == [] || (Legal(p, events[..|events| - 1]) && Enabled(Run(p, events[..|events| - 1]), events[|events| - 1]))
  }

  predicate Inv(p: Pool) {
    && p.settled <= p.accepted
    && p.inFlight == |p.accepted - p.settled| <= p.maxInFlight
    && p.idleWaiters == (if p.closing.Waiting? then {p.closing.waiter} else {})
    && (p.idleWaiters != {} ==> p.inFlight > 0)
    && (p.accepting <==> p.closing.Open? && !p.fatal)
    && (p.closing.Resumed? || p.closing.ClosingPool? || p.closing == Closed(true) ==> p.inFlight == 0)
    && (p.closing == Closed(true) ==> !p.fatal)
  }

  lemma SubmitKeepsInv(p: Pool, e: Event)
    requires Inv(p) && e.Submit? && Enabled(p, e)
    ensures Inv(Next(p, e))
  {
    var q := Next(p, e);
    if Admits(p, e) {
      assert q.accepted - q.settled == p.accepted - p.settled + {e.task};
    }
  }

  lemma SettleKeepsInv(p: Pool, task: nat)
    requires Inv(p) && Enabled(p, Settle(task))
    ensures Inv(Next(p, Settle(task)))
  {
    var left := p.accepted - p.settled;
    assert task in left;
    assert p.accepted - (p.settled + {task}) == left - {task};
    assert |left - {task}| == |left| - 1;
  }

  /** Errors and the steps of a close call leave the tasks alone. */
  lemma ControlKeepsInv(p: Pool, e: Event)
    requires Inv(p) && Enabled(p, e) && !e.Submit? && !e.Settle?
    ensures Inv(Next(p, e))
  {
    var q := Next(p, e);
    assert q.accepted - q.settled == p.accepted - p.settled;
  }

  lemma {:induction false} NextKeepsInv(p: Pool, e: Event)
    requires Inv(p) && Enabled(p, e)
    ensures Inv(Next(p, e))
  {
    hide Inv, Next, Enabled;
    if e.Submit? {
      SubmitKeepsInv(p, e);
    } else if e.Settle? {
      SettleKeepsInv(p, e.task);
    } else {
      ControlKeepsInv(p, e);
    }
  }

  lemma {:induction false} RunKeepsInv(p: Pool, events: seq<Event>)
    requires Inv(p) && Legal(p, events)
    ensures Inv(Run(p, events))
  {
    if events != [] {
      hide Inv, Next, Enabled;
      RunKeepsInv(p, events[..|events| - 1]);
      NextKeepsInv(Run(p, events[..|events| - 1]), events[|events| - 1]);
    }
  }

  /** Pool safety over all runs. */
  lemma {:induction false} PoolSafety(maxInFlight: nat, events: seq<Event>)
    requires Legal(Fresh(maxInFlight), events)
    ensures var p := Run(Fresh(maxInFlight), events);
      && p.inFlight == |p.accepted - p.settled| <= maxInFlight
      && (p.idleWaiters != {} ==> p.inFlight > 0 && p.closing.Waiting?)
      && (p.closing == Closed(true) ==> p.accepted == p.settled && !p.fatal)
  {
    var p := Run(Fresh(maxInFlight), events);
    RunKeepsInv(Fresh(maxInFlight), events);
    RunKeepsCapacity(Fresh(maxInFlight), events);
    if p.inFlight == 0 {
      assert p.accepted - p.settled == {};
      assert forall t | t in p.accepted :: t in p.settled;
    }
  }

  lemma {:induction false} RunKeepsCapacity(p: Pool, events: seq<Event>)
    ensures Run(p, events).maxInFlight == p.maxInFlight
  {
    if events != [] { RunKeepsCapacity(p, events[..|events| - 1]); }
  }

  lemma NextAcceptsNone(p: Pool, e: Event)
    requires Inv(p) && Enabled(p, e) && (!p.closing.Open? || p.fatal)
    ensures var q := Next(p, e);
      && q.accepted == p.accepted && (!q.closing.Open? || q.fatal)
      && (p.closing == Closed(true) ==> q.closing == Closed(true))
  {
  }

  /** Once a close call has begun, or a fatal error has struck, nothing is accepted any more. */
  lemma {:induction false} NoneAcceptedAfterClose(p: Pool, more: seq<Event>)
    requires Inv(p) && Legal(p, more) && (!p.closing.Open? || p.fatal)
    ensures var q := Run(p, more);
      && q.accepted == p.accepted && (!q.closing.Open? || q.fatal)
      && (p.closing == Closed(true) ==> q.closing == Closed(true))
  {
    if more != [] {
      var front := more[..|more| - 1];
      NoneAcceptedAfterClose(p, front);
      RunKeepsInv(p, front);
      NextAcceptsNone(Run(p, front), more[|more| - 1]);
      hide Inv, Next, Enabled;
    }
  }

  /** With nothing left to settle no close is waiting any more. */
  lemma {:induction false} DrainedCloseProceeds(p: Pool)
    requires Inv(p) && p.accepted == p.settled
    ensures !p.closing.Waiting? && p.idleWaiters == {}
  {
    assert p.accepted - p.settled == {};
  }

  /** A close call has been made exactly when the pool's own close is under way or over. */
  lemma {:induction false} ClosedByCalls(maxInFlight: nat, events: seq<Event>)
    requires Legal(Fresh(maxInFlight), events)
    ensures Run(Fresh(maxInFlight), events).closing.Open? <==> forall e | e in events :: !e.Close?
  {
    if events != [] {
      var front, last := events[..|events| - 1], events[|events| - 1];
      ClosedByCalls(maxInFlight, front);
      OpenUntilClose(Run(Fresh(maxInFlight), front), last);
      hide Next, Enabled;
      assert events == front + [last];
    }
  }

  lemma OpenUntilClose(p: Pool, e: Event)
    requires Enabled(p, e)
    ensures Next(p, e).closing.Open? <==> p.closing.Open? && !e.Close?
  {
  }

  /** What an event does to the tasks of a pool. */
  lemma TasksMove(p: Pool, e: Event)
    requires Inv(p) && Enabled(p, e)
    ensures Next(p, e).settled == if e.Settle? then p.settled + {e.task} else p.settled
    ensures Next(p, e).accepted ==
      if && e.Submit? && p.closing.Open? && !p.fatal && e.inputFits && e.timeoutValid
         && |p.accepted - p.settled| < p.maxInFlight
      then p.accepted + {e.task} else p.accepted
  {
    if e.Settle? { assert e.task in p.accepted - p.settled; }
  }

  /**
   Admission is exact: in every reachable pool a task is accepted exactly when no close has
   been called and no fatal error has struck, its input and timeout are valid, and fewer
   tasks than threads and queue hold are unsettled. Settling is all that makes room.
   */
  lemma AdmissionIsExact(maxInFlight: nat, events: seq<Event>, e: Event)
    requires Legal(Fresh(maxInFlight), events) && Enabled(Run(Fresh(maxInFlight), events), e)
    ensures var p, q := Run(Fresh(maxInFlight), events), Next(Run(Fresh(maxInFlight), events), e);
      var room := |p.accepted - p.settled| < maxInFlight;
      var closed := exists c | c in events :: c.Close?;
      && q.settled == (if e.Settle? then p.settled + {e.task} else p.settled)
      && q.accepted == (
        if e.Submit? && !closed && !p.fatal && e.inputFits && e.timeoutValid && room
        then p.accepted + {e.task} else p.accepted)
  {
    assert Inv(Fresh(maxInFlight));
    hide Inv, Next, Enabled, Run, Legal;
    RunKeepsInv(Fresh(maxInFlight), events);
    RunKeepsCapacity(Fresh(maxInFlight), events);
    ClosedByCalls(maxInFlight, events);
    TasksMove(Run(Fresh(maxInFlight), events), e);
  }

  /**
   How closing goes: the first call destroys a pool that is struck or forced, waits for
   unsettled tasks, and otherwise closes the pool at once; the pool's answers decide the rest.
   */
  lemma ClosingIsExact(p: Pool, e: Event)
    requires Inv(p) && Enabled(p, e) && !e.Submit? && !e.Settle?
    ensures var q := Next(p, e).closing;
      match e
      case Close(force, waiter) =>
        q == if !p.closing.Open? then p.closing
             else if p.fatal || force then Destroying
             else if p.accepted - p.settled != {} then Waiting(waiter)
             else ClosingPool
      case IdleTimeout => q == Failing
      case Resume => q == ClosingPool
      case PoolClosed(ok) => q == if ok && !p.fatal then Closed(true) else Failing
      case Destroyed(ok) => q == if p.closing == Failing then CloseFailed else if ok then Closed(false) else Failing
      case PoolError => q == p.closing
      case Submit(_, _, _) => true
      case Settle(_) => true
    ensures Next(p, e).fatal <==> p.fatal || (e.PoolError? && !p.closing.Closed? && !p.closing.CloseFailed?)
  {
    if p.accepted - p.settled == {} {
      assert p.inFlight == 0;
    }
  }

  // ------------------------------------------------------------- a waiting close completes

  function Settles(order: seq<nat>): seq<Event> { seq(|order|, i requires 0 <= i < |order| => Settle(order[i])) }

  function Members(order: seq<nat>): set<nat> { set t | t in order }

  predicate Distinct(order: seq<nat>) { forall i, j | 0 <= i < j < |order| :: order[i] != order[j] }

  lemma LastOf(order: seq<nat>)
    requires order != [] && Distinct(order)
    ensures var front, task := order[..|order| - 1], order[|order| - 1];
      && Distinct(front) && Members(order) == Members(front) + {task} && task !in Members(front)
      && Settles(order) == Settles(front) + [Settle(task)]
  {
    var n := |order| - 1;
    assert order == order[..n] + [order[n]];
  }

  lemma {:induction false} DistinctCounts(order: seq<nat>)
    requires Distinct(order)
    ensures |Members(order)| == |order|
  {
    if order != [] {
      hide Members, Distinct;
      LastOf(order);
      DistinctCounts(order[..|order| - 1]);
    }
  }

  /** Every set of tasks can be put in order. */
  lemma {:induction false} OrderOf(tasks: set<nat>) returns (order: seq<nat>)
    ensures Distinct(order) && Members(order) == tasks
  {
    if tasks == {} {
      order := [];
    } else {
      var task :| task in tasks;
      var front := OrderOf(tasks - {task});
      order := front + [task];
      assert task !in Members(front) && Members(order) == Members(front) + {task};
    }
  }

  /** One task settles under a waiting close: the last one wakes it. */
  lemma SettleDrains(p: Pool, task: nat)
    requires Inv(p) && p.closing.Waiting? && task in p.accepted - p.settled
    ensures var q := Next(p, Settle(task));
      && Inv(q) && q.accepted == p.accepted && q.settled == p.settled + {task} && q.fatal == p.fatal
      && q.closing == if q.accepted - q.settled == {} then Resumed else p.closing
  {
    SettleKeepsInv(p, task);
    var q := Next(p, Settle(task));
    assert q.inFlight == |q.accepted - q.settled|;
  }

  lemma RunSnoc(p: Pool, events: seq<Event>, e: Event)
    ensures Run(p, events + [e]) == Next(Run(p, events), e)
    ensures Legal(p, events + [e]) <==> Legal(p, events) && Enabled(Run(p, events), e)
  {
    hide Next, Enabled;
    assert (events + [e])[..|events|] == events;
  }

  lemma DrainNothing(p: Pool)
    requires Inv(p) && p.closing.Waiting?
    ensures Settles([]) == [] && p.settled + Members([]) == p.settled && p.accepted - p.settled != {}
  {
  }

  lemma StillOpen(accepted: set<nat>, settled: set<nat>, front: set<nat>, task: nat)
    requires front + {task} <= accepted - settled && task !in front
    ensures task in accepted - (settled + front) && accepted - (settled + front) != {}
    ensures settled + front + {task} == settled + (front + {task})
  {
  }

  /** Open tasks settling in any order under a waiting close. */
  lemma {:induction false} Drain(p: Pool, order: seq<nat>)
    requires Inv(p) && p.closing.Waiting? && Distinct(order) && Members(order) <= p.accepted - p.settled
    ensures var q := Run(p, Settles(order));
      && Legal(p, Settles(order)) && Inv(q)
      && q.accepted == p.accepted && q.settled == p.settled + Members(order) && q.fatal == p.fatal
      && q.closing == if q.accepted - q.settled == {} then Resumed else p.closing
  {
    hide Inv, Next, Distinct, Settles;
    if order == [] {
      DrainNothing(p);
    } else {
      hide Run, Legal, Members;
      var n := |order| - 1;
      var front, task := order[..n], order[n];
      LastOf(order);
      Drain(p, front);
      var mid := Run(p, Settles(front));
      StillOpen(p.accepted, p.settled, Members(front), task);
      SettleDrains(mid, task);
      RunSnoc(p, Settles(front), Settle(task));
    }
  }

  /**
   From every waiting close no fatal error has struck, the open tasks settling in any
   order, one resume and the pool's own close make it end gracefully: as many events as
   tasks are open, and two.
   */
  lemma {:induction false} CloseCompletes(p: Pool, order: seq<nat>)
    requires Inv(p) && p.closing.Waiting? && !p.fatal
    requires Distinct(order) && Members(order) == p.accepted - p.settled
    ensures var events := Settles(order) + [Resume] + [PoolClosed(true)];
      && Legal(p, events) && |events| == p.inFlight + 2
      && Run(p, events) == p.(inFlight := 0, idleWaiters := {}, closing := Closed(true), settled := p.accepted)
  {
    hide Run, Legal, Members, Distinct;
    DistinctCounts(order);
    Drain(p, order);
    var q := Run(p, Settles(order));
    assert q.settled == p.accepted;
    DrainedCloseProceeds(q);
    RunKeepsCapacity(p, Settles(order));
    RunSnoc(p, Settles(order), Resume);
    RunSnoc(p, Settles(order) + [Resume], PoolClosed(true));
  }

  // ------------------------------------------------------------------ the plugin

  /** WorkerPoolPlugin's own fields; each method is one synchronous stretch of its code. */
  class WorkerPoolPlugin {
    const maxInFlight: nat
    var accepting: bool
    var inFlight: nat
    var idleWaiters: set<nat>
    var fatalError: bool
    var closing: Closing
    ghost var accepted: set<nat>
    ghost var settled: set<nat>

    ghost function Snapshot(): Pool
      reads this
    {
      Pool(maxInFlight, accepting, inFlight, idleWaiters, fatalError, closing, accepted, settled)
    }

    constructor (maxThreads: nat, maxQueue: nat)
      ensures Snapshot() == Fresh(maxThreads + maxQueue)
    {
      maxInFlight := maxThreads + maxQueue;
      accepting, inFlight, idleWaiters, fatalError, closing := true, 0, {}, false, Open;
      accepted, settled := {}, {};
    }

    /** The admission part of run: true when the call enters the pool. */
    method Submit(task: nat, inputFits: bool, timeoutValid: bool) returns (admitted: bool)
      modifies this
      ensures Snapshot() == Next(old(Snapshot()), Event.Submit(task, inputFits, timeoutValid))
      ensures admitted == Admits(old(Snapshot()), Event.Submit(task, inputFits, timeoutValid))
      ensures admitted ==
        (!old(fatalError) && old(accepting) && inputFits && old(inFlight) < maxInFlight && timeoutValid)
    {
      if fatalError { return false; }
      if !accepting { return false; }
      if !inputFits { return false; }
      if inFlight >= maxInFlight { return false; }
      if !timeoutValid { return false; }
      inFlight := inFlight + 1;
      accepted := accepted + {task};
      return true;
    }

    /** The finally block of run. */
    method Settle(task: nat)
      requires Inv(Snapshot()) && Enabled(Snapshot(), Event.Settle(task))
      modifies this
      ensures Snapshot() == Next(old(Snapshot()), Event.Settle(task))
    {
      assert task in accepted - settled;
      inFlight := inFlight - 1;
      settled := settled + {task};
      if inFlight == 0 && idleWaiters != {} {
        if closing.Waiting? && closing.waiter in idleWaiters { closing := Resumed; }
        idleWaiters := {};
      }
    }

    method OnPoolError()
      modifies this
      ensures Snapshot() == Next(old(Snapshot()), PoolError)
    {
      if closing.Closed? || closing.CloseFailed? { return; }
      if fatalError { return; }
      fatalError := true;
      accepting := false;
    }

    /** The synchronous start of close; a second call gets the first one's promise. */
    method Close(force: bool, waiter: nat)
      modifies this
      ensures Snapshot() == Next(old(Snapshot()), Event.Close(force, waiter))
    {
      if !closing.Open? { return; }
      accepting := false;
      if fatalError {
        closing := Destroying;
      } else if force {
        closing := Destroying;
      } else if inFlight > 0 {
        idleWaiters := idleWaiters + {waiter};
        closing := Waiting(waiter);
      } else {
        closing := ClosingPool;
      }
    }

    method IdleTimeout()
      requires closing.Waiting?
      modifies this
      ensures Snapshot() == Next(old(Snapshot()), Event.IdleTimeout)
    {
      idleWaiters := idleWaiters - {closing.waiter};
      closing := Failing;
    }

    method Continue(e: Event)
      requires (e.Resume? || e.PoolClosed? || e.Destroyed?) && Enabled(Snapshot(), e)
      modifies this
      ensures Snapshot() == Next(old(Snapshot()), e)
    {
      match e
      case Resume => closing := ClosingPool;
      case PoolClosed(ok) => closing := if ok && !fatalError then Closed(true) else Failing;
      case Destroyed(ok) =>
        closing := if closing.Failing? then CloseFailed else if ok then Closed(false) else Failing;
      case _ =>
    }
  }
}
