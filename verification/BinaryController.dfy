/**
 run and undo of the in-memory controller: the fold over the plugins, its inverse, the
 size checks around them and the request bracket. A plugin call stands for the whole
 withRetry around it; None is the thrown error. Each call is a tracked promise that is
 answered, or given up on when the abort or the deadline comes first; a stop can also be
 seen while no promise is outstanding.
 */
module BinaryController {
  import opened Buffers
  import opened FrameLimits
  import opened FrameRecognition
  import opened MessagePackGrammar
  import opened ResourceLimits
  import D = DataEngine
  import S = ScannerMachine

  datatype Plugin = Plugin(
    name: string,
    process: Buffer -> Option<Buffer>,
    reversible: bool,
    reverse: Buffer -> Option<Buffer>)

  /**
   How a call ends: answered; not made, or not made again, because the signal is seen to
   have stopped; or given up on with its promise outstanding.
   */
  datatype Wait = Answered | Stopped | GivenUp

  /** A reversible plugin undoes what it did. */
  ghost predicate Lawful(p: Plugin) {
    p.reversible ==> forall x :: p.process(x).Some? ==> p.reverse(p.process(x).value) == Some(x)
  }

  predicate Reversible(plugins: seq<Plugin>) { forall i | 0 <= i < |plugins| :: plugins[i].reversible }

  /** Objects and arrays travel as one MessagePack frame. */
  ghost predicate FrameFits(data: Buffer, structured: bool, limits: EngineLimits) {
    structured ==> exists frames :: FramingOf(frames, S.Limits(limits.maxFrameBytes, 1), data)
  }

  function Bounded(r: Option<Buffer>, max: nat): Option<Buffer> {
    if r.Some? && |r.value| <= max then r else None
  }

  /** The plugins one after another, each output within the limit. */
  function Forward(plugins: seq<Plugin>, data: Buffer, max: nat): Option<Buffer> {
    if plugins == [] then Some(data)
    else
      var out := Bounded(plugins[0].process(data), max);
      if out.None? then None else Forward(plugins[1..], out.value, max)
  }

  /** The reverse steps, last plugin first. */
  function Backward(plugins: seq<Plugin>, data: Buffer, max: nat): Option<Buffer> {
    if plugins == [] then Some(data)
    else
      var out := Bounded(plugins[|plugins| - 1].reverse(data), max);
      if out.None? then None else Backward(plugins[..|plugins| - 1], out.value, max)
  }

  ghost function RunResult(plugins: seq<Plugin>, data: Buffer, structured: bool, limits: EngineLimits): Option<Buffer> {
    if |data| > limits.maxInputBytes || !FrameFits(data, structured, limits) then None
    else Bounded(Forward(plugins, data, limits.maxOutputBytes), limits.maxOutputBytes)
  }

  ghost function UndoResult(plugins: seq<Plugin>, data: Buffer, structured: bool, limits: EngineLimits):
    Option<Buffer>
  {
    if !Reversible(plugins) || |data| > limits.maxInputBytes then None
    else
      var restored := Bounded(Backward(plugins, data, limits.maxOutputBytes), limits.maxOutputBytes);
      if restored.Some? && FrameFits(restored.value, structured, limits) then restored else None
  }

  // -------------------------------------------------------------------- what the folds mean

  /** What the i-th plugin is given: the data, or the output of the plugin before it. */
  function Before(data: Buffer, outs: seq<Buffer>, i: nat): Buffer
    requires i <= |outs|
  {
    if i == 0 then data else outs[i - 1]
  }

  /** What the reverse step of the i-th plugin is given: the data, or the output of the plugin behind it. */
  function Behind(data: Buffer, outs: seq<Buffer>, i: nat): Buffer
    requires i < |outs|
  {
    if i == |outs| - 1 then data else outs[i + 1]
  }

  /** A step that succeeds within the limit. */
  predicate Makes(step: Buffer -> Option<Buffer>, given: Buffer, out: Buffer, max: nat) {
    step(given) == Some(out) && |out| <= max
  }

  /** `outs` are the plugins' outputs, each within the limit. */
  ghost predicate Outputs(plugins: seq<Plugin>, data: Buffer, outs: seq<Buffer>, max: nat) {
    && |outs| == |plugins|
    && forall i | 0 <= i < |outs| :: Makes(plugins[i].process, Before(data, outs, i), outs[i], max)
  }

  /** `outs` are what the plugins' reverse steps restore, last plugin first, each within the limit. */
  ghost predicate Restored(plugins: seq<Plugin>, data: Buffer, outs: seq<Buffer>, max: nat) {
    && |outs| == |plugins|
    && forall i | 0 <= i < |outs| :: Makes(plugins[i].reverse, Behind(data, outs, i), outs[i], max)
  }

  lemma {:induction false} ForwardSnoc(plugins: seq<Plugin>, last: Plugin, data: Buffer, max: nat)
    ensures var before := Forward(plugins, data, max);
      Forward(plugins + [last], data, max)
        == if before.None? then None else Bounded(last.process(before.value), max)
  {
    if plugins == [] {
      assert plugins + [last] == [last];
      assert [last][1..] == [];
    } else {
      assert (plugins + [last])[0] == plugins[0] && (plugins + [last])[1..] == plugins[1..] + [last];
      var out := Bounded(plugins[0].process(data), max);
      if out.Some? { ForwardSnoc(plugins[1..], last, out.value, max); }
    }
  }

  lemma BeforeFront(data: Buffer, outs: seq<Buffer>, n: nat, i: nat)
    requires i <= n <= |outs|
    ensures Before(data, outs[..n], i) == Before(data, outs, i)
  {
  }

  /** The outputs of all plugins but the last, and the last one's. */
  lemma OutputsFront(plugins: seq<Plugin>, data: Buffer, outs: seq<Buffer>, max: nat)
    requires plugins != [] && Outputs(plugins, data, outs, max)
    ensures var n := |plugins| - 1;
      && |outs| == n + 1 && Outputs(plugins[..n], data, outs[..n], max)
      && Makes(plugins[n].process, Before(data, outs[..n], n), outs[n], max)
  {
    hide Makes, Before;
    var n := |plugins| - 1;
    forall i | 0 <= i < n ensures Makes(plugins[..n][i].process, Before(data, outs[..n], i), outs[..n][i], max) {
      BeforeFront(data, outs, n, i);
      assert Makes(plugins[i].process, Before(data, outs, i), outs[i], max);
    }
    BeforeFront(data, outs, n, n);
    assert Makes(plugins[n].process, Before(data, outs, n), outs[n], max);
  }

  lemma OutputsAll(plugins: seq<Plugin>, data: Buffer, outs: seq<Buffer>, max: nat)
    requires plugins != [] && |outs| == |plugins|
    requires Outputs(plugins[..|plugins| - 1], data, outs[..|plugins| - 1], max)
    requires var n := |plugins| - 1; Makes(plugins[n].process, Before(data, outs[..n], n), outs[n], max)
    ensures Outputs(plugins, data, outs, max)
  {
    hide Makes, Before;
    var n := |plugins| - 1;
    forall i | 0 <= i < |outs| ensures Makes(plugins[i].process, Before(data, outs, i), outs[i], max) {
      BeforeFront(data, outs, n, i);
      if i < n { assert Makes(plugins[..n][i].process, Before(data, outs[..n], i), outs[..n][i], max); }
    }
  }

  lemma {:induction false} ForwardOutputs(plugins: seq<Plugin>, data: Buffer, max: nat) returns (outs: seq<Buffer>)
    requires Forward(plugins, data, max).Some?
    ensures Outputs(plugins, data, outs, max) && Before(data, outs, |plugins|) == Forward(plugins, data, max).value
  {
    if plugins == [] {
      outs := [];
    } else {
      hide Forward, Outputs;
      var n := |plugins| - 1;
      assert plugins == plugins[..n] + [plugins[n]];
      ForwardSnoc(plugins[..n], plugins[n], data, max);
      var front := ForwardOutputs(plugins[..n], data, max);
      assert |front| == n by { OutputsLength(plugins[..n], data, front, max); }
      outs := front + [Forward(plugins, data, max).value];
      assert outs[..n] == front;
      OutputsAll(plugins, data, outs, max);
    }
  }

  lemma OutputsLength(plugins: seq<Plugin>, data: Buffer, outs: seq<Buffer>, max: nat)
    requires Outputs(plugins, data, outs, max)
    ensures |outs| == |plugins|
  {
  }

  lemma {:induction false} OutputsForward(plugins: seq<Plugin>, data: Buffer, outs: seq<Buffer>, max: nat)
    requires Outputs(plugins, data, outs, max)
    ensures |outs| == |plugins| && Forward(plugins, data, max) == Some(Before(data, outs, |plugins|))
  {
    hide Forward, Outputs;
    OutputsLength(plugins, data, outs, max);
    if plugins == [] {
      ForwardNothing(plugins, data, max);
    } else {
      var n := |plugins| - 1;
      assert plugins == plugins[..n] + [plugins[n]];
      OutputsFront(plugins, data, outs, max);
      OutputsForward(plugins[..n], data, outs[..n], max);
      ForwardSnoc(plugins[..n], plugins[n], data, max);
    }
  }

  lemma BehindFront(data: Buffer, outs: seq<Buffer>, i: nat)
    requires i < |outs|
    ensures i == |outs| - 1 ==> Behind(data, outs, i) == data
    ensures i < |outs| - 1 ==> Behind(outs[|outs| - 1], outs[..|outs| - 1], i) == Behind(data, outs, i)
  {
  }

  /** What the last plugin restores, and what the others restore of that. */
  lemma RestoredFront(plugins: seq<Plugin>, data: Buffer, outs: seq<Buffer>, max: nat)
    requires plugins != [] && Restored(plugins, data, outs, max)
    ensures var n := |plugins| - 1;
      && |outs| == n + 1 && Makes(plugins[n].reverse, data, outs[n], max)
      && Restored(plugins[..n], outs[n], outs[..n], max)
  {
    hide Makes, Behind;
    var n := |plugins| - 1;
    forall i | 0 <= i < n ensures Makes(plugins[..n][i].reverse, Behind(outs[n], outs[..n], i), outs[..n][i], max) {
      BehindFront(data, outs, i);
      assert Makes(plugins[i].reverse, Behind(data, outs, i), outs[i], max);
    }
    BehindFront(data, outs, n);
    assert Makes(plugins[n].reverse, Behind(data, outs, n), outs[n], max);
  }

  lemma RestoredAll(plugins: seq<Plugin>, data: Buffer, outs: seq<Buffer>, max: nat)
    requires plugins != [] && |outs| == |plugins|
    requires var n := |plugins| - 1;
      Makes(plugins[n].reverse, data, outs[n], max) && Restored(plugins[..n], outs[n], outs[..n], max)
    ensures Restored(plugins, data, outs, max)
  {
    hide Makes, Behind;
    var n := |plugins| - 1;
    forall i | 0 <= i < |outs| ensures Makes(plugins[i].reverse, Behind(data, outs, i), outs[i], max) {
      BehindFront(data, outs, i);
      if i < n { assert Makes(plugins[..n][i].reverse, Behind(outs[n], outs[..n], i), outs[..n][i], max); }
    }
  }

  lemma {:induction false} BackwardRestores(plugins: seq<Plugin>, data: Buffer, max: nat) returns (outs: seq<Buffer>)
    requires Backward(plugins, data, max).Some?
    ensures Restored(plugins, data, outs, max)
    ensures Backward(plugins, data, max) == Some(if outs == [] then data else outs[0])
  {
    if plugins == [] {
      outs := [];
    } else {
      hide Restored;
      var n := |plugins| - 1;
      var restored := plugins[n].reverse(data).value;
      var front := BackwardRestores(plugins[..n], restored, max);
      RestoredLength(plugins[..n], restored, front, max);
      outs := front + [restored];
      assert outs[..n] == front;
      RestoredAll(plugins, data, outs, max);
    }
  }

  lemma RestoredLength(plugins: seq<Plugin>, data: Buffer, outs: seq<Buffer>, max: nat)
    requires Restored(plugins, data, outs, max)
    ensures |outs| == |plugins|
  {
  }

  lemma {:induction false} RestoredBackward(plugins: seq<Plugin>, data: Buffer, outs: seq<Buffer>, max: nat)
    requires Restored(plugins, data, outs, max)
    ensures Backward(plugins, data, max) == Some(if outs == [] then data else outs[0])
  {
    if plugins != [] {
      hide Restored;
      var n := |plugins| - 1;
      RestoredLength(plugins, data, outs, max);
      RestoredFront(plugins, data, outs, max);
      RestoredBackward(plugins[..n], outs[n], outs[..n], max);
    }
  }

  /** A structured buffer is empty or one value within the frame limit. */
  lemma FitsAsOneValue(data: Buffer, structured: bool, limits: EngineLimits)
    ensures FrameFits(data, structured, limits) <==>
      !structured || data == [] || (IsValue(data) && |data| <= limits.maxFrameBytes)
  {
    hide IsValue, Flatten;
    FlattenNothing();
    var lim := S.Limits(limits.maxFrameBytes, 1);
    if data == [] { assert FramingOf([], lim, data); }
    if IsValue(data) && |data| <= limits.maxFrameBytes {
      FlattenSnoc([], data);
      assert [] + [data] == [data] && [] + data == data;
      assert IsFrame(data, lim);
      assert FramingOf([data], lim, data);
    }
    if structured && FrameFits(data, structured, limits) {
      var frames :| FramingOf(frames, lim, data);
      OneFrame(frames, lim, data);
    }
  }

  lemma OneFrame(frames: seq<Buffer>, lim: S.Limits, data: Buffer)
    requires FramingOf(frames, lim, data) && lim.maxFrames == 1
    ensures data == [] || (IsValue(data) && |data| <= lim.maxFrameBytes)
  {
    hide IsValue, Flatten;
    FlattenNothing();
    if frames != [] {
      var frame := frames[0];
      assert frame in frames;
      assert IsFrame(frame, lim);
      assert frames == [] + [frame] && [] + frame == frame;
      FlattenSnoc([], frame);
    }
  }

  /**
   A run yields exactly what its plugins' outputs end with, the first plugin given the data
   and each other one the output before it, with all sizes within the limits and a
   structured input empty or one value.
   */
  lemma RunsExactly(plugins: seq<Plugin>, data: Buffer, structured: bool, limits: EngineLimits, out: Buffer)
    ensures RunResult(plugins, data, structured, limits) == Some(out) <==>
      && |data| <= limits.maxInputBytes && |out| <= limits.maxOutputBytes
      && (!structured || data == [] || (IsValue(data) && |data| <= limits.maxFrameBytes))
      && exists outs :: Outputs(plugins, data, outs, limits.maxOutputBytes) && out == Before(data, outs, |outs|)
  {
    hide FrameFits, IsValue, Forward;
    FitsAsOneValue(data, structured, limits);
    if Forward(plugins, data, limits.maxOutputBytes).Some? {
      var outs := ForwardOutputs(plugins, data, limits.maxOutputBytes);
    }
    forall outs | Outputs(plugins, data, outs, limits.maxOutputBytes)
      ensures Forward(plugins, data, limits.maxOutputBytes) == Some(Before(data, outs, |outs|))
    {
      OutputsForward(plugins, data, outs, limits.maxOutputBytes);
    }
  }

  /** An undo likewise, last plugin first, with every plugin reversible and a structured result one value or empty. */
  lemma UndoesExactly(plugins: seq<Plugin>, data: Buffer, structured: bool, limits: EngineLimits, out: Buffer)
    ensures UndoResult(plugins, data, structured, limits) == Some(out) <==>
      && (forall i | 0 <= i < |plugins| :: plugins[i].reversible)
      && |data| <= limits.maxInputBytes && |out| <= limits.maxOutputBytes
      && (!structured || out == [] || (IsValue(out) && |out| <= limits.maxFrameBytes))
      && exists outs :: Restored(plugins, data, outs, limits.maxOutputBytes)
           && out == if outs == [] then data else outs[0]
  {
    hide FrameFits, IsValue, Backward;
    FitsAsOneValue(out, structured, limits);
    if Backward(plugins, data, limits.maxOutputBytes).Some? {
      var outs := BackwardRestores(plugins, data, limits.maxOutputBytes);
    }
    forall outs | Restored(plugins, data, outs, limits.maxOutputBytes)
      ensures Backward(plugins, data, limits.maxOutputBytes) == Some(if outs == [] then data else outs[0])
    {
      RestoredBackward(plugins, data, outs, limits.maxOutputBytes);
    }
  }

  // ------------------------------------------------------------------ undo inverts run

  lemma {:induction false} BackwardCons(first: Plugin, plugins: seq<Plugin>, data: Buffer, max: nat)
    ensures var after := Backward(plugins, data, max);
      Backward([first] + plugins, data, max)
        == if after.None? then None else Bounded(first.reverse(after.value), max)
    decreases |plugins|
  {
    var all := [first] + plugins;
    if plugins == [] {
      assert all[..0] == [];
    } else {
      assert all[|all| - 1] == plugins[|plugins| - 1] && all[..|all| - 1] == [first] + plugins[..|plugins| - 1];
      var out := Bounded(plugins[|plugins| - 1].reverse(data), max);
      if out.Some? { BackwardCons(first, plugins[..|plugins| - 1], out.value, max); }
    }
  }

  lemma {:induction false} BackwardUndoesForward(plugins: seq<Plugin>, data: Buffer, max: nat)
    requires Reversible(plugins) && forall i | 0 <= i < |plugins| :: Lawful(plugins[i])
    requires Forward(plugins, data, max).Some?
    ensures Backward(plugins, Forward(plugins, data, max).value, max)
         == if plugins == [] || |data| <= max then Some(data) else None
  {
    if plugins == [] {
    } else {
      hide Forward, Backward;
      var front, last := plugins[..|plugins| - 1], plugins[|plugins| - 1];
      assert plugins == front + [last];
      ForwardSnoc(front, last, data, max);
      var mid := Forward(front, data, max).value;
      assert Lawful(last) && last.reversible;
      BackwardSnoc(front, last, last.process(mid).value, max);
      if front == [] {
        ForwardNothing(front, data, max);
        BackwardNothing(front, mid, max);
      } else {
        ForwardIsBounded(front, data, max);
        BackwardUndoesForward(front, data, max);
      }
    }
  }

  lemma BackwardSnoc(plugins: seq<Plugin>, last: Plugin, data: Buffer, max: nat)
    ensures var out := Bounded(last.reverse(data), max);
      Backward(plugins + [last], data, max) == if out.None? then None else Backward(plugins, out.value, max)
  {
    assert (plugins + [last])[..|plugins|] == plugins;
  }

  lemma ForwardNothing(plugins: seq<Plugin>, data: Buffer, max: nat)
    requires plugins == []
    ensures Forward(plugins, data, max) == Some(data)
  {
  }

  lemma BackwardNothing(plugins: seq<Plugin>, data: Buffer, max: nat)
    requires plugins == []
    ensures Backward(plugins, data, max) == Some(data)
  {
  }

  lemma {:induction false} ForwardIsBounded(plugins: seq<Plugin>, data: Buffer, max: nat)
    requires plugins != [] && Forward(plugins, data, max).Some?
    ensures |Forward(plugins, data, max).value| <= max
  {
    var out := Bounded(plugins[0].process(data), max);
    if |plugins| > 1 { ForwardIsBounded(plugins[1..], out.value, max); }
  }

  /**
   What run produced, undo turns back into the initial buffer exactly when every plugin
   is reversible, the result is within the input limit and the initial buffer within the
   output limit; otherwise it fails, and never yields anything else.
   */
  lemma UndoInvertsRun(plugins: seq<Plugin>, data: Buffer, structured: bool, limits: EngineLimits)
    requires forall i | 0 <= i < |plugins| :: Lawful(plugins[i])
    requires RunResult(plugins, data, structured, limits).Some?
    ensures var d := RunResult(plugins, data, structured, limits).value;
      UndoResult(plugins, d, structured, limits)
        == if Reversible(plugins) && |d| <= limits.maxInputBytes && |data| <= limits.maxOutputBytes
           then Some(data) else None
  {
    hide FrameFits;
    if Reversible(plugins) {
      BackwardUndoesForward(plugins, data, limits.maxOutputBytes);
    }
  }

  // ------------------------------------------------------------------- the request bracket

  /** Request ids are new: the engine knows nothing of them. */
  ghost predicate Unknown(e: D.Engine, id: D.Id) {
    id !in e.active && id !in e.finished && id !in e.pending && id !in e.pipelines
  }

  /** The engine with the slot of a finished request still taken by one unsettled promise. */
  function Held(e: D.Engine, id: D.Id, promise: D.Work): D.Engine {
    e.(active := e.active + {id}, pending := e.pending[id := {promise}], finished := e.finished + {id},
       pipelines := e.pipelines[id := e.plugins])
  }

  /** The engine while a request runs with nothing outstanding. */
  function Entered(e: D.Engine, id: D.Id): D.Engine { D.Next(e, D.Start(id, true)) }

  /** Starting and releasing a request leaves the engine as it was. */
  lemma BracketRestores(e: D.Engine, id: D.Id)
    requires Unknown(e, id) && D.CanStart(e)
    ensures D.Next(Entered(e, id), D.Release(id)) == e && D.Next(e, D.Release(id)) == e
  {
    assert e.active + {id} - {id} == e.active;
    assert e.active - {id} == e.active && e.finished - {id} == e.finished;
    assert e.pipelines[id := e.plugins] - {id} == e.pipelines && e.pipelines - {id} == e.pipelines;
  }

  /** A call that is answered leaves no trace in the engine. */
  lemma AnswerRestores(e: D.Engine, id: D.Id, promise: D.Work)
    requires id !in e.pending && id !in e.finished
    ensures D.Next(D.Next(e, D.Track(id, promise)), D.Settle(id, promise)) == e
  {
    assert {} + {promise} - {promise} == {};
    assert e.pending[id := {} + {promise}] - {id} == e.pending;
  }

  /** A call that is given up on keeps the slot through the release of its request. */
  lemma GivingUpHolds(e: D.Engine, id: D.Id, promise: D.Work)
    requires Unknown(e, id) && D.CanStart(e)
    ensures var tracked := D.Next(Entered(e, id), D.Track(id, promise));
      && D.Next(tracked, D.Release(id)) == Held(e, id, promise)
      && D.Next(Held(e, id, promise), D.Release(id)) == Held(e, id, promise)
  {
    assert {} + {promise} == {promise};
    assert e.finished + {id} + {id} == e.finished + {id};
  }

  /** The slot of a request that was given up on is free again when its promise settles. */
  lemma HeldUntilSettled(e: D.Engine, id: D.Id, promise: D.Work)
    requires Unknown(e, id)
    ensures id in Held(e, id, promise).active && D.Next(Held(e, id, promise), D.Settle(id, promise)) == e
  {
    assert {promise} - {promise} == {};
    assert e.pending[id := {promise}] - {id} == e.pending;
    assert e.active + {id} - {id} == e.active && e.finished + {id} - {id} == e.finished;
    assert e.pipelines[id := e.plugins] - {id} == e.pipelines;
  }

  // ----------------------------------------------------------------------- the methods

  /** One awaited call: its promise is tracked, and settles unless the caller gives up first. */
  method AwaitCall(engine: D.DataEngine, id: D.Id, call: nat, givenUp: bool)
    requires engine.Valid() && id !in engine.pending && id !in engine.finishedRequests
    modifies engine
    ensures engine.Valid()
    ensures engine.Snapshot() ==
      if givenUp then D.Next(old(engine.Snapshot()), D.Track(id, call)) else old(engine.Snapshot())
  {
    hide D.Next;
    AnswerRestores(engine.Snapshot(), id, call);
    var work := engine.TrackWork(id, call);
    if !givenUp { engine.OnSettled(id, work, call); }
  }

  method FrameCheck(data: Buffer, structured: bool, limits: EngineLimits) returns (ok: bool)
    ensures ok <==> FrameFits(data, structured, limits)
  {
    if !structured { return true; }
    var count := AssertMessagePackFrameLimits(data, S.Limits(limits.maxFrameBytes, 1));
    return count.Some?;
  }

  /** The engine when a request halts at `halt`: a call given up on leaves its promise behind. */
  function Outstanding(e: D.Engine, id: D.Id, waits: nat -> Wait, halt: Option<nat>): D.Engine {
    if halt.Some? && waits(halt.value).GivenUp? then D.Next(e, D.Track(id, halt.value)) else e
  }

  /** The plugin loop of run; `steps` are the plugins reported as done, `halt` the call it ended at. */
  method ProcessAll(engine: D.DataEngine, id: D.Id, plugins: seq<Plugin>, input: Buffer, max: nat, waits: nat -> Wait)
    returns (r: Option<Buffer>, steps: seq<string>, halt: Option<nat>)
    requires engine.Valid() && id !in engine.pending && id !in engine.finishedRequests
    modifies engine
    ensures engine.Valid()
    ensures engine.Snapshot() == Outstanding(old(engine.Snapshot()), id, waits, halt)
    ensures |steps| <= |plugins| && forall i | 0 <= i < |steps| :: steps[i] == plugins[i].name && waits(i).Answered?
    ensures halt.None? ==> r == Forward(plugins, input, max)
    ensures halt.None? && r.Some? ==> |steps| == |plugins|
    ensures halt.None? && r.None? ==> |steps| < |plugins| && waits(|steps|).Answered?
    ensures halt.Some? ==>
      && r.None? && |steps| == halt.value < |plugins| && !waits(halt.value).Answered?
      && Forward(plugins[..halt.value], input, max).Some?
  {
    hide D.Next, Forward;
    var data := input;
    steps := [];
    assert plugins[0..] == plugins;
    ForwardNothing(plugins[..0], input, max);
    for i := 0 to |plugins|
      invariant engine.Valid() && engine.Snapshot() == old(engine.Snapshot())
      invariant |steps| == i && forall k | 0 <= k < i :: steps[k] == plugins[k].name && waits(k).Answered?
      invariant Forward(plugins, input, max) == Forward(plugins[i..], data, max)
      invariant Forward(plugins[..i], input, max) == Some(data)
    {
      ForwardTurn(plugins, i, input, data, max);
      if waits(i).Stopped? { return None, steps, Some(i); }
      AwaitCall(engine, id, i, waits(i).GivenUp?);
      if waits(i).GivenUp? { return None, steps, Some(i); }
      var out := plugins[i].process(data);
      if out.None? || |out.value| > max { return None, steps, None; }
      data := out.value;
      steps := steps + [plugins[i].name];
    }
    assert plugins[..|plugins|] == plugins;
    return Some(data), steps, None;
  }

  /** One turn of the loop: what is done and what is left of the fold. */
  lemma ForwardTurn(plugins: seq<Plugin>, i: nat, input: Buffer, data: Buffer, max: nat)
    requires i < |plugins| && Forward(plugins[..i], input, max) == Some(data)
    ensures var out := Bounded(plugins[i].process(data), max);
      && Forward(plugins[..i + 1], input, max) == out
      && Forward(plugins[i..], data, max) == if out.None? then None else Forward(plugins[i + 1..], out.value, max)
  {
    assert plugins[i..][0] == plugins[i] && plugins[i..][1..] == plugins[i + 1..];
    assert plugins[..i] + [plugins[i]] == plugins[..i + 1];
    ForwardSnoc(plugins[..i], plugins[i], input, max);
  }

  /** The reverse steps reported so far, last plugin first, each answered. */
  ghost predicate Reported(plugins: seq<Plugin>, waits: nat -> Wait, steps: seq<string>) {
    && |steps| <= |plugins|
    && forall k | 0 <= k < |steps| :: steps[k] == plugins[|plugins| - 1 - k].name && waits(k).Answered?
  }

  lemma ReportedSnoc(plugins: seq<Plugin>, waits: nat -> Wait, steps: seq<string>, i: nat)
    requires Reported(plugins, waits, steps) && i < |plugins| && |steps| == |plugins| - 1 - i
    requires waits(|steps|).Answered?
    ensures Reported(plugins, waits, steps + [plugins[i].name])
  {
  }

  /** The reverse loop of undo; call c is that of the c-th plugin from the end. */
  method ReverseAll(engine: D.DataEngine, id: D.Id, plugins: seq<Plugin>, input: Buffer, max: nat, waits: nat -> Wait)
    returns (r: Option<Buffer>, steps: seq<string>, halt: Option<nat>)
    requires engine.Valid() && id !in engine.pending && id !in engine.finishedRequests
    modifies engine
    ensures engine.Valid()
    ensures engine.Snapshot() == Outstanding(old(engine.Snapshot()), id, waits, halt)
    ensures |steps| <= |plugins|
    ensures forall i | 0 <= i < |steps| :: steps[i] == plugins[|plugins| - 1 - i].name && waits(i).Answered?
    ensures halt.None? ==> r == Backward(plugins, input, max)
    ensures halt.None? && r.Some? ==> |steps| == |plugins|
    ensures halt.None? && r.None? ==> |steps| < |plugins| && waits(|steps|).Answered?
    ensures halt.Some? ==>
      && r.None? && |steps| == halt.value < |plugins| && !waits(halt.value).Answered?
      && Backward(plugins[|plugins| - halt.value..], input, max).Some?
  {
    hide D.Next, Backward;
    var data, i, n := input, |plugins|, |plugins|;
    steps := [];
    assert plugins[..n] == plugins;
    BackwardNothing(plugins[n..], input, max);
    while i > 0
      invariant 0 <= i <= n && |steps| == n - i
      invariant engine.Valid() && engine.Snapshot() == old(engine.Snapshot())
      invariant Reported(plugins, waits, steps)
      invariant Backward(plugins, input, max) == Backward(plugins[..i], data, max)
      invariant Backward(plugins[i..], input, max) == Some(data)
    {
      BackwardTurn(plugins, i - 1, input, data, max);
      if waits(n - i).Stopped? { return None, steps, Some(n - i); }
      AwaitCall(engine, id, n - i, waits(n - i).GivenUp?);
      if waits(n - i).GivenUp? { return None, steps, Some(n - i); }
      i := i - 1;
      var out := plugins[i].reverse(data);
      if out.None? || |out.value| > max { return None, steps, None; }
      data := out.value;
      ReportedSnoc(plugins, waits, steps, i);
      steps := steps + [plugins[i].name];
    }
    assert plugins[0..] == plugins;
    return Some(data), steps, None;
  }

  lemma BackwardTurn(plugins: seq<Plugin>, i: nat, input: Buffer, data: Buffer, max: nat)
    requires i < |plugins| && Backward(plugins[i + 1..], input, max) == Some(data)
    ensures var out := Bounded(plugins[i].reverse(data), max);
      && Backward(plugins[i..], input, max) == out
      && Backward(plugins[..i + 1], data, max) == if out.None? then None else Backward(plugins[..i], out.value, max)
  {
    assert plugins[..i + 1][i] == plugins[i] && plugins[..i + 1][..i] == plugins[..i];
    assert [plugins[i]] + plugins[i + 1..] == plugins[i..];
    BackwardCons(plugins[i], plugins[i + 1..], input, max);
  }

  /** assertReversiblePipeline: the first plugin that cannot be reversed. */
  method FindIrreversible(plugins: seq<Plugin>) returns (found: Option<nat>)
    ensures found.None? <==> Reversible(plugins)
    ensures found.Some? ==>
      && found.value < |plugins| && !plugins[found.value].reversible
      && forall i | 0 <= i < found.value :: plugins[i].reversible
  {
    for i := 0 to |plugins|
      invariant forall k | 0 <= k < i :: plugins[k].reversible
    {
      if !plugins[i].reversible { return Some(i); }
    }
    return None;
  }

  /** The engine after a request: as before, or with the slot held by the call given up on. */
  ghost predicate Left(before: D.Engine, after: D.Engine, id: D.Id, waits: nat -> Wait, halt: Option<nat>) {
    if halt.Some? && waits(halt.value).GivenUp? then D.CanStart(before) && after == Held(before, id, halt.value)
    else after == before
  }

  /** Where a request with n plugin calls done ends: at the audit record, at the check behind it, or nowhere. */
  function Ending(n: nat, waits: nat -> Wait, audited: bool): Option<nat> {
    if !waits(n).Answered? then Some(n)
    else if audited && waits(n + 1).Stopped? then Some(n + 1)
    else None
  }

  lemma EndingIs(n: nat, waits: nat -> Wait, audited: bool)
    ensures Ending(n, waits, audited) == Some(n) <==> !waits(n).Answered?
    ensures Ending(n, waits, audited) == Some(n + 1) <==> waits(n).Answered? && audited && waits(n + 1).Stopped?
    ensures Ending(n, waits, audited).Some? ==> Ending(n, waits, audited) in {Some(n), Some(n + 1)}
  {
  }

  /** The check and the wait for the audit record, the last check, and the release of the request. */
  method Conclude(engine: D.DataEngine, id: D.Id, n: nat, waits: nat -> Wait, audited: bool, ghost before: D.Engine,
                  due: bool, haltBefore: Option<nat>) returns (halt: Option<nat>)
    requires engine.Valid() && Unknown(before, id) && D.CanStart(before)
    requires due ==> haltBefore.None?
    requires engine.Snapshot() == Outstanding(Entered(before, id), id, waits, haltBefore)
    modifies engine
    ensures engine.Valid() && Left(before, engine.Snapshot(), id, waits, halt)
    ensures halt == if due then Ending(n, waits, audited) else haltBefore
  {
    assert due ==> id !in engine.pending && id !in engine.finishedRequests;
    hide D.Next, Entered, Held;
    halt := haltBefore;
    if due {
      if waits(n).Stopped? {
        halt := Some(n);
      } else {
        AwaitCall(engine, id, n, waits(n).GivenUp?);
        if waits(n).GivenUp? {
          halt := Some(n);
        } else if audited && waits(n + 1).Stopped? {
          halt := Some(n + 1);
        }
      }
    }
    assert engine.Snapshot() == Outstanding(Entered(before, id), id, waits, halt);
    BracketRestores(before, id);
    if halt.Some? { GivingUpHolds(before, id, halt.value); }
    engine.ReleaseRequest(id);
    engine.ReleaseRequest(id);
  }

  /**
   `waits` says how the plugin calls, the audit record and the check behind it go; `audited`
   whether that record is accepted. A stop seen on entry ends like one before the first call.
   */
  method Run(engine: D.DataEngine, id: D.Id, plugins: seq<Plugin>, input: Buffer, structured: bool,
             limits: EngineLimits, waits: nat -> Wait, audited: bool)
    returns (r: Option<Buffer>, steps: seq<string>, halt: Option<nat>)
    requires engine.Valid() && Unknown(engine.Snapshot(), id)
    modifies engine
    ensures engine.Valid() && Left(old(engine.Snapshot()), engine.Snapshot(), id, waits, halt)
    ensures r == if D.CanStart(old(engine.Snapshot())) && halt.None? && audited
      then RunResult(plugins, input, structured, limits) else None
    ensures halt.Some? ==> D.CanStart(old(engine.Snapshot()))
    ensures halt.Some? && |steps| < |plugins| ==> halt == Some(|steps|) && !waits(|steps|).Answered?
    ensures D.CanStart(old(engine.Snapshot())) && |input| <= limits.maxInputBytes ==>
      FrameFits(input, structured, limits) && |steps| < |plugins| ==> (halt.None? <==> waits(|steps|).Answered?)
    ensures |steps| == |plugins| ==>
      halt == if D.CanStart(old(engine.Snapshot())) && RunResult(plugins, input, structured, limits).Some?
        then Ending(|plugins|, waits, audited) else None
    ensures |steps| <= |plugins| && forall i | 0 <= i < |steps| :: steps[i] == plugins[i].name && waits(i).Answered?
    ensures r.Some? ==> |steps| == |plugins| && waits(|plugins|).Answered? && !waits(|plugins| + 1).Stopped? && audited
    ensures |steps| == |plugins| && halt.Some? ==>
      || (halt == Some(|plugins|) && !waits(|plugins|).Answered?)
      || (halt == Some(|plugins| + 1) && waits(|plugins|).Answered? && audited && waits(|plugins| + 1).Stopped?)
  {
    hide FrameFits, Forward, Ending;
    ghost var before := engine.Snapshot();
    steps, halt := [], None;
    var started := engine.StartRequest(id);
    if !started { return None, steps, halt; }
    r := None;
    if |input| <= limits.maxInputBytes {
      var ok := FrameCheck(input, structured, limits);
      if ok {
        r, steps, halt := ProcessAll(engine, id, plugins, input, limits.maxOutputBytes, waits);
        r := Bounded(r, limits.maxOutputBytes);
      }
    }
    EndingIs(|plugins|, waits, audited);
    halt := Conclude(engine, id, |plugins|, waits, audited, before, r.Some?, halt);
    if halt.Some? || !audited { r := None; }
  }

  /** `steps` stays empty when a plugin is irreversible or the input too large: no reverse step runs. */
  method Undo(engine: D.DataEngine, id: D.Id, plugins: seq<Plugin>, input: Buffer, structured: bool,
              limits: EngineLimits, waits: nat -> Wait, audited: bool)
    returns (r: Option<Buffer>, steps: seq<string>, halt: Option<nat>)
    requires engine.Valid() && Unknown(engine.Snapshot(), id)
    modifies engine
    ensures engine.Valid() && Left(old(engine.Snapshot()), engine.Snapshot(), id, waits, halt)
    ensures r == if D.CanStart(old(engine.Snapshot())) && halt.None? && audited
      then UndoResult(plugins, input, structured, limits) else None
    ensures halt.Some? ==> D.CanStart(old(engine.Snapshot()))
    ensures halt.Some? && |steps| < |plugins| ==> halt == Some(|steps|) && !waits(|steps|).Answered?
    ensures D.CanStart(old(engine.Snapshot())) && Reversible(plugins) && |input| <= limits.maxInputBytes ==>
      |steps| < |plugins| ==> (halt.None? <==> waits(|steps|).Answered?)
    ensures |steps| == |plugins| ==>
      halt == if D.CanStart(old(engine.Snapshot())) && UndoResult(plugins, input, structured, limits).Some?
        then Ending(|plugins|, waits, audited) else None
    ensures !Reversible(plugins) || |input| > limits.maxInputBytes ==>
      r.None? && steps == [] && halt.None? && engine.Snapshot() == old(engine.Snapshot())
    ensures |steps| <= |plugins|
    ensures forall i | 0 <= i < |steps| :: steps[i] == plugins[|plugins| - 1 - i].name && waits(i).Answered?
    ensures r.Some? ==> |steps| == |plugins| && waits(|plugins|).Answered? && !waits(|plugins| + 1).Stopped? && audited
    ensures |steps| == |plugins| && halt.Some? ==>
      || (halt == Some(|plugins|) && !waits(|plugins|).Answered?)
      || (halt == Some(|plugins| + 1) && waits(|plugins|).Answered? && audited && waits(|plugins| + 1).Stopped?)
  {
    hide FrameFits, Backward, Ending;
    ghost var before := engine.Snapshot();
    steps, halt := [], None;
    var unsupported := FindIrreversible(plugins);
    if unsupported.Some? { return None, steps, halt; }
    if |input| > limits.maxInputBytes { return None, steps, halt; }
    var started := engine.StartRequest(id);
    if !started { return None, steps, halt; }
    r, steps, halt := ReverseAll(engine, id, plugins, input, limits.maxOutputBytes, waits);
    r := Bounded(r, limits.maxOutputBytes);
    if r.Some? {
      var ok := FrameCheck(r.value, structured, limits);
      if !ok { r := None; }
    }
    EndingIs(|plugins|, waits, audited);
    halt := Conclude(engine, id, |plugins|, waits, audited, before, r.Some?, halt);
    if halt.Some? || !audited { r := None; }
  }
}
