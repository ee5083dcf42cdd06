/**
 What the engine answers, told from what happened to it alone: which requests hold slots,
 which plugins and limits are in force, and so which calls succeed.
 */
module EngineHistory {
  import opened DataEngine

  /** The plugins registered so far, in order. */
  function PluginsOf(events: seq<Event>): seq<string> {
    if events == [] then []
    else
      var before, v := PluginsOf(events[..|events| - 1]), events[|events| - 1];
      if v.Use? && v.ok then before + [v.plugin] else before
  }

  /** The limits set last. */
  function LimitsOf(initial: Limits, events: seq<Event>): Limits {
    if events == [] then initial
    else
      var v := events[|events| - 1];
      if v.SetLimits? && v.ok then v.next else LimitsOf(initial, events[..|events| - 1])
  }

  lemma ConfigurationStep(e: Engine, h: History, v: Event)
    requires Possible(e, h, v)
    ensures Next(e, v).plugins == if v.Use? && v.ok then e.plugins + [v.plugin] else e.plugins
    ensures Next(e, v).limits == if v.SetLimits? && v.ok then v.next else e.limits
  {
  }

  /** The engine runs the plugins registered, in that order, under the limits set last. */
  lemma {:induction false} ConfigurationFollows(limits: CheckedLimits, events: seq<Event>)
    requires Legal(Created(limits), events)
    ensures var e := Run(Created(limits), events);
      e.plugins == PluginsOf(events) && e.limits == LimitsOf(limits, events)
  {
    if events != [] {
      hide Next, Possible, Happened;
      var front, v := events[..|events| - 1], events[|events| - 1];
      ConfigurationFollows(limits, front);
      ConfigurationStep(Run(Created(limits), front), HistoryOf(front), v);
    }
  }

  /** The limits an engine accepts: safe integers, positive but for timeout and retry delay, two of them bounded. */
  lemma AcceptedLimits(l: Limits)
    ensures ValidLimits(l) <==>
      && 1 <= l.maxInputBytes <= 9007199254740991 && 1 <= l.maxOutputBytes <= 9007199254740991
      && 1 <= l.maxFrameBytes <= 9007199254740991 && 1 <= l.maxFrames <= 9007199254740991
      && 1 <= l.maxConcurrentOperations <= 9007199254740991
      && 0 <= l.operationTimeoutMs <= 2147483647
      && 1 <= l.maxRetryAttempts <= 9007199254740991 && 0 <= l.maxRetryDelayMs <= 9007199254740991
      && 1 <= l.maxKmsEncryptedKeyBytes <= 4294967295 && 1 <= l.maxKmsKeyIdBytes <= 9007199254740991
  {
    var v := Values(l);
    assert v[0] in v && v[1] in v && v[2] in v && v[3] in v && v[4] in v && v[5] in v && v[6] in v && v[7] in v
        && v[8] in v && v[9] in v;
  }

  /** The requests that hold a slot. */
  ghost function Holders(h: History): set<Id> { set id | id in h.started && Holds(h, id) }

  lemma ActiveAreHolders(limits: CheckedLimits, events: seq<Event>)
    requires Legal(Created(limits), events)
    ensures Run(Created(limits), events).active == Holders(HistoryOf(events))
  {
    CapacityIsExact(limits, events);
    hide Run, HistoryOf, Legal;
    assert forall id :: Holds(HistoryOf(events), id) ==> id in HistoryOf(events).started;
  }

  /**
   Over every interleaving a start succeeds exactly while fewer slots are held than the
   limit set last allows; limits and plugins can be changed exactly while none is held,
   limits to acceptable ones, plugins up to 256.
   */
  lemma AnswersAreExact(limits: CheckedLimits, events: seq<Event>, v: Event)
    requires Legal(Created(limits), events) && Possible(Run(Created(limits), events), HistoryOf(events), v)
    ensures var held := Holders(HistoryOf(events));
      && (v.Start? ==> (v.ok <==> |held| < LimitsOf(limits, events).maxConcurrentOperations))
      && (v.SetLimits? ==> (v.ok <==> held == {} && ValidLimits(v.next)))
      && (v.Use? ==> (v.ok <==> held == {} && |PluginsOf(events)| < 256))
  {
    ActiveAreHolders(limits, events);
    ConfigurationFollows(limits, events);
    hide Run, HistoryOf, Legal, ValidLimits, Holders, PluginsOf, LimitsOf;
  }
}
