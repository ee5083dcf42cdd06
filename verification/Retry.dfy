/**
 withRetry: a bounded number of attempts with a capped backoff between them. What each
 attempt meets is a parameter of the loop.
 */
module Retry {
  import opened Buffers
  import opened Operations

  datatype RetryOptions = RetryOptions(attempts: int, exponential: bool, delayMs: int)
  datatype RetryLimits = RetryLimits(maxRetryAttempts: nat, maxRetryDelayMs: nat)

  /** What attempt i meets: a stop before it, its awaited outcome, a stop after it, an abort during the pause. */
  datatype Round<+T> = Round(stoppedBefore: bool, awaited: Outcome<T>, stoppedAfter: bool, pauseAborted: bool)

  datatype RetryResult<+T> = Succeeded(value: T) | InvalidOptions | Halted | LastError(attempt: nat)

  predicate ValidOptions(o: RetryOptions, l: RetryLimits) {
    && 1 <= o.attempts <= Min(l.maxRetryAttempts, MAX_SAFE_INTEGER)
    && 0 <= o.delayMs <= Min(l.maxRetryDelayMs, MAX_SAFE_INTEGER)
  }

  function PowerOfTwo(i: nat): (p: nat)
    ensures p >= 1
  {
    if i == 0 then 1 else 2 * PowerOfTwo(i - 1)
  }

  /** The pause after attempt i. */
  function Pause(o: RetryOptions, l: RetryLimits, i: nat): nat
    requires ValidOptions(o, l)
  {
    Min(if o.exponential then o.delayMs * PowerOfTwo(i) else o.delayMs, l.maxRetryDelayMs)
  }

  lemma {:induction false} PowersGrow(i: nat, j: nat)
    requires i <= j
    ensures PowerOfTwo(i) <= PowerOfTwo(j)
    decreases j
  {
    if i < j { PowersGrow(i, j - 1); }
  }

  lemma ProductGrows(d: nat, a: nat, b: nat)
    requires a <= b
    ensures d * a <= d * b
  {
  }

  /** Pauses never shrink, never exceed the limit and are never shorter than asked for. */
  lemma PausesGrow(o: RetryOptions, l: RetryLimits, i: nat, j: nat)
    requires ValidOptions(o, l) && i <= j
    ensures o.delayMs <= Pause(o, l, i) <= Pause(o, l, j) <= l.maxRetryDelayMs
  {
    PowersGrow(i, j);
    ProductGrows(o.delayMs, 1, PowerOfTwo(i));
    ProductGrows(o.delayMs, PowerOfTwo(i), PowerOfTwo(j));
  }

  /** The first pause is the delay asked for; a fixed one stays, an exponential one doubles up to the limit. */
  lemma PausesAre(o: RetryOptions, l: RetryLimits, i: nat)
    requires ValidOptions(o, l)
    ensures Pause(o, l, 0) == o.delayMs
    ensures !o.exponential ==> Pause(o, l, i) == o.delayMs
    ensures o.exponential ==> Pause(o, l, i + 1) == Min(2 * Pause(o, l, i), l.maxRetryDelayMs)
  {
    assert o.delayMs * PowerOfTwo(0) == o.delayMs;
    assert o.delayMs * (2 * PowerOfTwo(i)) == 2 * (o.delayMs * PowerOfTwo(i));
  }

  /** A wait that was interrupted leaves the signal stopped. */
  predicate Sound<T>(r: Round<T>) { r.awaited.Interrupted? ==> r.stoppedAfter }

  /** An attempt whose wait began at `start`, ended, and is caught at `caught`. */
  function RoundOf<T>(signal: Signal, start: nat, heard: seq<Happening<T>>, caught: nat): Round<T>
    requires Race(signal, start, heard).outcome.Some?
  {
    var w := Race(signal, start, heard);
    Round(false, w.outcome.value, Stopped(w.signal, caught), false)
  }

  lemma RoundsAreSound<T>(signal: Signal, start: nat, heard: seq<Happening<T>>, caught: nat)
    requires Orderly(signal, start, heard) && Race(signal, start, heard).outcome.Some?
    requires caught >= start && forall e | e in heard :: caught >= e.now
    ensures Sound(RoundOf(signal, start, heard, caught))
  {
    if Race(signal, start, heard).outcome == Some(Interrupted) {
      InterruptedStaysStopped(signal, start, heard, caught);
    }
  }

  // The loop as a machine over rounds

  /** Before attempt i, or over. */
  datatype Loop<+T> = Going(attempt: nat) | Over(result: RetryResult<T>)

  /** What one round of the loop comes to. */
  function Turn<T>(o: RetryOptions, l: RetryLimits, i: nat, r: Round<T>): Loop<T>
    requires ValidOptions(o, l)
  {
    if r.stoppedBefore then Over(Halted)
    else if r.awaited.Resolved? then Over(Succeeded(r.awaited.value))
    else if r.stoppedAfter then Over(Halted)
    else if i + 1 >= o.attempts then Over(LastError(i))
    else if Pause(o, l, i) > 0 && r.pauseAborted then Over(Halted)
    else Going(i + 1)
  }

  function Looped<T>(o: RetryOptions, l: RetryLimits, rounds: seq<Round<T>>): Loop<T>
    requires ValidOptions(o, l)
  {
    if rounds == [] then Going(0)
    else
      var before := Looped(o, l, rounds[..|rounds| - 1]);
      if before.Over? then before else Turn(o, l, before.attempt, rounds[|rounds| - 1])
  }

  lemma LoopedSnoc<T>(o: RetryOptions, l: RetryLimits, rounds: seq<Round<T>>, r: Round<T>)
    requires ValidOptions(o, l)
    ensures var before := Looped(o, l, rounds);
      Looped(o, l, rounds + [r]) == if before.Over? then before else Turn(o, l, before.attempt, r)
  {
    assert (rounds + [r])[..|rounds + [r]| - 1] == rounds;
  }

  /** The first n rounds of a source of rounds. */
  function Taken<T>(rounds: nat -> Round<T>, n: nat): (t: seq<Round<T>>)
    ensures |t| == n
  {
    seq(n, i requires 0 <= i < n => rounds(i))
  }

  lemma NoRounds<T>(o: RetryOptions, l: RetryLimits, rounds: nat -> Round<T>)
    requires ValidOptions(o, l)
    ensures Looped(o, l, Taken(rounds, 0)) == Going(0)
  {
  }

  lemma TakenSnoc<T>(o: RetryOptions, l: RetryLimits, rounds: nat -> Round<T>, n: nat)
    requires ValidOptions(o, l)
    ensures var before := Looped(o, l, Taken(rounds, n));
      Looped(o, l, Taken(rounds, n + 1)) == if before.Over? then before else Turn(o, l, before.attempt, rounds(n))
  {
    assert Taken(rounds, n + 1) == Taken(rounds, n) + [rounds(n)];
    LoopedSnoc(o, l, Taken(rounds, n), rounds(n));
  }

  /** The attempt was made and its operation failed by itself. */
  predicate FailedAlone<T>(r: Round<T>) { !r.stoppedBefore && r.awaited.Refused? && !r.stoppedAfter }

  /** The attempt was made, failed by itself, and the pause after it ended undisturbed. */
  predicate Passed<T>(o: RetryOptions, l: RetryLimits, r: Round<T>, i: nat)
    requires ValidOptions(o, l)
  {
    FailedAlone(r) && (Pause(o, l, i) > 0 ==> !r.pauseAborted)
  }

  /** What a run of the loop has done: calls up to the first success, stop or last attempt, with their pauses. */
  ghost predicate LoopRan<T>(o: RetryOptions, l: RetryLimits, rounds: nat -> Round<T>,
                                   result: RetryResult<T>, calls: nat, pauses: seq<nat>)
    requires ValidOptions(o, l)
  {
    && !result.InvalidOptions? && calls <= o.attempts
    && (forall i | 0 <= i < calls :: !rounds(i).stoppedBefore)
    && (forall i | 0 <= i < calls - 1 :: Passed(o, l, rounds(i), i))
    && (result.Succeeded? ==> calls > 0 && rounds(calls - 1).awaited == Resolved(result.value))
    && (result.LastError? ==>
          calls == o.attempts && result.attempt == calls - 1 && FailedAlone(rounds(calls - 1)))
    && (result.Halted? ==>
          || (calls < o.attempts && rounds(calls).stoppedBefore
              && (calls > 0 ==> Passed(o, l, rounds(calls - 1), calls - 1)))
          || (calls > 0 && !rounds(calls - 1).awaited.Resolved?
              && (rounds(calls - 1).stoppedAfter
                  || (calls < o.attempts && Pause(o, l, calls - 1) > 0 && rounds(calls - 1).pauseAborted))))
    && (forall i | 0 <= i < |pauses| :: pauses[i] == Pause(o, l, i))
    && |pauses| < o.attempts && calls - 1 <= |pauses| <= calls
  }

  /** The loop over the attempts. */
  method RetryLoop<T>(o: RetryOptions, l: RetryLimits, rounds: nat -> Round<T>)
    returns (result: RetryResult<T>, calls: nat, pauses: seq<nat>)
    requires ValidOptions(o, l) && forall i :: Sound(rounds(i))
    ensures LoopRan(o, l, rounds, result, calls, pauses)
    ensures
      || Looped(o, l, Taken(rounds, calls)) == Over(result)
      || (Looped(o, l, Taken(rounds, calls)).Going? && Looped(o, l, Taken(rounds, calls + 1)) == Over(result))
  {
    hide Looped, Taken, PowerOfTwo;
    calls, pauses := 0, [];
    var i := 0;
    result := LastError(0);
    NoRounds(o, l, rounds);
    while i < o.attempts
      invariant 0 <= i <= o.attempts && calls == i
      invariant Looped(o, l, Taken(rounds, i)) == if i < o.attempts then Going(i) else Over(result)
      invariant |pauses| == if i < o.attempts then i else i - 1
      invariant i > 0 ==> result == LastError(i - 1)
      invariant forall k | 0 <= k < i :: FailedAlone(rounds(k))
      invariant forall k | 0 <= k < |pauses| :: Passed(o, l, rounds(k), k) && pauses[k] == Pause(o, l, k)
    {
      var round := rounds(i);
      assert Sound(round);
      TakenSnoc(o, l, rounds, i);
      if round.stoppedBefore { return Halted, calls, pauses; }
      calls := calls + 1;
      if round.awaited.Resolved? { return Succeeded(round.awaited.value), calls, pauses; }
      if round.stoppedAfter { return Halted, calls, pauses; }
      result := LastError(i);
      if i < o.attempts - 1 {
        var pause := Pause(o, l, i);
        pauses := pauses + [pause];
        if pause > 0 && round.pauseAborted { return Halted, calls, pauses; }
      }
      i := i + 1;
    }
  }

  lemma PausesReturned(o: RetryOptions, l: RetryLimits, pauses: seq<nat>)
    requires ValidOptions(o, l) && forall i | 0 <= i < |pauses| :: pauses[i] == Pause(o, l, i)
    ensures |pauses| > 0 ==> pauses[0] == o.delayMs
    ensures !o.exponential ==> forall i | 0 <= i < |pauses| :: pauses[i] == o.delayMs
    ensures o.exponential ==> forall i | 0 <= i < |pauses| - 1 :: pauses[i + 1] == Min(2 * pauses[i], l.maxRetryDelayMs)
  {
    hide Pause;
    PausesAre(o, l, 0);
    forall i | 0 <= i < |pauses|
      ensures !o.exponential ==> pauses[i] == o.delayMs
      ensures o.exponential && i + 1 < |pauses| ==> pauses[i + 1] == Min(2 * pauses[i], l.maxRetryDelayMs)
    {
      PausesAre(o, l, i);
    }
  }

  /**
   Calls are made one after another until the first success, the first stop, or the last
   attempt, whose own error is reported; the pauses are the delay asked for, repeated or
   doubled up to the limit.
   */
  method WithRetry<T>(o: RetryOptions, l: RetryLimits, rounds: nat -> Round<T>)
    returns (result: RetryResult<T>, calls: nat, pauses: seq<nat>)
    requires forall i :: Sound(rounds(i))
    ensures !ValidOptions(o, l) <==> result == InvalidOptions
    ensures result == InvalidOptions <==>
      || o.attempts < 1 || o.attempts > l.maxRetryAttempts || o.attempts > 9007199254740991
      || o.delayMs < 0 || o.delayMs > l.maxRetryDelayMs || o.delayMs > 9007199254740991
    ensures !ValidOptions(o, l) ==> calls == 0 && pauses == []
    ensures ValidOptions(o, l) ==>
      && calls <= o.attempts && |pauses| < o.attempts && calls - 1 <= |pauses| <= calls
      && (forall i | 0 <= i < calls :: !rounds(i).stoppedBefore)
      && (forall i | 0 <= i < calls - 1 ::
            rounds(i).awaited.Refused? && !rounds(i).stoppedAfter && (pauses[i] > 0 ==> !rounds(i).pauseAborted))
      && (result.Succeeded? ==> calls > 0 && rounds(calls - 1).awaited == Resolved(result.value))
      && (result.LastError? ==>
            && calls == o.attempts && result.attempt == calls - 1
            && rounds(calls - 1).awaited.Refused? && !rounds(calls - 1).stoppedAfter)
      && (result.Halted? ==>
            || (&& calls < o.attempts && rounds(calls).stoppedBefore
                && (calls > 0 ==> Passed(o, l, rounds(calls - 1), calls - 1)))
            || (&& calls > 0 && !rounds(calls - 1).awaited.Resolved?
                && (rounds(calls - 1).stoppedAfter
                    || (calls < o.attempts && Pause(o, l, calls - 1) > 0 && rounds(calls - 1).pauseAborted))))
      && (forall i | 0 <= i < |pauses| :: pauses[i] == Pause(o, l, i))
    ensures |pauses| > 0 ==> pauses[0] == o.delayMs
    ensures !o.exponential ==> forall i | 0 <= i < |pauses| :: pauses[i] == o.delayMs
    ensures o.exponential ==> forall i | 0 <= i < |pauses| - 1 :: pauses[i + 1] == Min(2 * pauses[i], l.maxRetryDelayMs)
    ensures ValidOptions(o, l) ==>
      || Looped(o, l, Taken(rounds, calls)) == Over(result)
      || (Looped(o, l, Taken(rounds, calls)).Going? && Looped(o, l, Taken(rounds, calls + 1)) == Over(result))
  {
    hide Looped, Taken, Pause;
    calls, pauses := 0, [];
    if o.attempts < 1 || o.attempts > l.maxRetryAttempts || o.attempts > MAX_SAFE_INTEGER {
      return InvalidOptions, calls, pauses;
    }
    if o.delayMs < 0 || o.delayMs > l.maxRetryDelayMs || o.delayMs > MAX_SAFE_INTEGER {
      return InvalidOptions, calls, pauses;
    }
    result, calls, pauses := RetryLoop(o, l, rounds);
    PausesReturned(o, l, pauses);
  }
}
