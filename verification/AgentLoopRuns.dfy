/**
 What happens in a run of the agent loop, told from its observations alone: in which mode each step ran, what followed a failed
 step, where the loop stopped and why.
 */
module AgentLoopRuns {
  import opened Wrappers
  import opened AgentLoop

  // ---------- Reading the observations ----------

  // The observation of every executed step is there.
  ghost predicate Placed(plan: seq<Step>, st: LoopState) {
    |st.records| == |st.at| <= |plan| && forall i :: 0 <= i < |st.at| ==> st.at[i] < |st.observations|
  }

  // The `i`-th step failed although it is required.
  ghost predicate FailedAt(plan: seq<Step>, st: LoopState, i: nat)
    requires Placed(plan, st) && i < |st.at|
  {
    plan[i].required && !st.observations[st.at[i]].ok
  }

  // How the observations up to the one of the `i`-th step are classified.
  ghost function ClassAt(plan: seq<Step>, env: Environment, st: LoopState, i: nat): string
    requires Placed(plan, st) && i < |st.at|
  {
    env.classify(st.observations[..st.at[i] + 1])
  }

  // The mode after `i` executed steps: after each failed required one the route decides, unless the goal was in conflict.
  ghost function ModeAfter(plan: seq<Step>, env: Environment, start: string, st: LoopState, i: nat): string
    requires Placed(plan, st) && i <= |st.at|
  {
    if i == 0 then start
    else
      var before := ModeAfter(plan, env, start, st, i - 1);
      var failure := ClassAt(plan, env, st, i - 1);
      if FailedAt(plan, st, i - 1) && failure != "goal_conflict" then env.route(i, before, failure) else before
  }

  // The failure class after `i` executed steps: that of the last failed required one.
  ghost function FailureAfter(plan: seq<Step>, env: Environment, st: LoopState, i: nat): string
    requires Placed(plan, st) && i <= |st.at|
  {
    if i == 0 then ""
    else if FailedAt(plan, st, i - 1) then ClassAt(plan, env, st, i - 1)
    else FailureAfter(plan, env, st, i - 1)
  }

  // The `i`-th step ends the run: it failed although it is required, and this puts the goal in conflict, or every such failure
  // is to end the run, or the planner rejected what it should implement.
  ghost predicate StopsAfter(plan: seq<Step>, config: Config, env: Environment, st: LoopState, i: nat)
    requires Placed(plan, st) && i < |st.at|
  {
    && FailedAt(plan, st, i)
    && (|| ClassAt(plan, env, st, i) == "goal_conflict"
        || config.stopOnRequiredFailure
        || (plan[i].name == "implement" && st.observations[st.at[i]].data.plannerRejected))
  }

  ghost predicate Limited(config: Config, env: Environment, index: nat) {
    (config.maxSteps.Some? && index > config.maxSteps.value) || env.timedOut(index)
  }

  // Where the observation after `i` executed steps is, `m` being where they end.
  ghost function Place(st: LoopState, m: nat, i: nat): nat {
    if i < |st.at| then st.at[i] else m
  }

  // The `i`-th step ran in its own mode or the active one, on what was observed before; and its observation is followed by the
  // next one, with the switch of the mode between them if there was one.
  ghost predicate Executed(plan: seq<Step>, env: Environment, start: string, st: LoopState, m: nat, i: nat)
    requires Placed(plan, st) && i < |st.at| && m <= |st.observations|
  {
    var before := ModeAfter(plan, env, start, st, i);
    var after := ModeAfter(plan, env, start, st, i + 1);
    var mode := if plan[i].mode == "" then before else plan[i].mode;
    var p := st.at[i];
    var effect := env.execute(i + 1, plan[i].(mode := mode), st.observations[..p]);
    && st.observations[p] == Observation(i + 1, plan[i].name, plan[i].kind, effect.ok, effect.summary, mode, effect.data)
    && Place(st, m, i + 1) == (if after == before then p + 1 else p + 2)
    && (after != before ==> p + 1 < m && Switched(st.observations[p + 1], p + 2, after))
  }

  ghost predicate Switched(observation: Observation, index: nat, mode: string) {
    && observation.step == index && observation.name == "mode_transition" && observation.kind == "internal"
    && observation.ok && observation.mode == mode && observation.data == NO_DATA
  }

  // The first `m` observations tell of all executed steps, none of which came after a limit or a step that ends the run.
  ghost predicate Told(plan: seq<Step>, config: Config, env: Environment, start: string, st: LoopState, m: nat) {
    && Placed(plan, st) && m <= |st.observations|
    && Place(st, m, 0) == 0
    && st.mode == ModeAfter(plan, env, start, st, |st.at|)
    && forall i :: 0 <= i < |st.at| ==> ToldAt(plan, config, env, start, st, m, i)
  }

  ghost predicate ToldAt(plan: seq<Step>, config: Config, env: Environment, start: string, st: LoopState, m: nat, i: nat)
    requires Placed(plan, st) && i < |st.at| && m <= |st.observations|
  {
    && Executed(plan, env, start, st, m, i)
    && !Limited(config, env, i + 1)
    && (i < |st.at| - 1 ==> !StopsAfter(plan, config, env, st, i))
  }

  // ---------- One more step ----------

  ghost predicate Extends(st: LoopState, next: LoopState) {
    st.observations <= next.observations && st.at <= next.at
  }

  lemma ReadsTheSame(plan: seq<Step>, env: Environment, st: LoopState, next: LoopState, i: nat)
    requires Placed(plan, st) && Placed(plan, next) && Extends(st, next) && i < |st.at|
    ensures next.at[i] == st.at[i] && next.observations[st.at[i]] == st.observations[st.at[i]]
    ensures next.observations[..st.at[i]] == st.observations[..st.at[i]]
    ensures FailedAt(plan, next, i) == FailedAt(plan, st, i) && ClassAt(plan, env, next, i) == ClassAt(plan, env, st, i)
  {
    assert next.observations[..st.at[i] + 1] == st.observations[..st.at[i] + 1];
    assert next.observations[..st.at[i]] == st.observations[..st.at[i]];
  }

  lemma {:induction false} SameAfter(plan: seq<Step>, env: Environment, start: string, st: LoopState, next: LoopState, i: nat)
    requires Placed(plan, st) && Placed(plan, next) && Extends(st, next) && i <= |st.at|
    ensures ModeAfter(plan, env, start, next, i) == ModeAfter(plan, env, start, st, i)
    ensures FailureAfter(plan, env, next, i) == FailureAfter(plan, env, st, i)
  {
    if i == 0 {
    } else {
      SameAfter(plan, env, start, st, next, i - 1);
      ReadsTheSame(plan, env, st, next, i - 1);
    }
  }

  // What was told stays told, if the next step's observation comes where the ones before it end.
  lemma StaysTold(plan: seq<Step>, config: Config, env: Environment, start: string, st: LoopState, m: nat, next: LoopState, i: nat)
    requires Told(plan, config, env, start, st, m) && Placed(plan, next) && Extends(st, next) && i < |st.at|
    requires m <= |next.observations| && (|next.at| > |st.at| ==> next.at[|st.at|] == m)
    ensures forall end :: m <= end <= |next.observations| && (|next.at| == |st.at| ==> end == m)
                          ==> Executed(plan, env, start, next, end, i)
    ensures StopsAfter(plan, config, env, next, i) <==> StopsAfter(plan, config, env, st, i)
  {
    ReadsTheSame(plan, env, st, next, i);
    SameAfter(plan, env, start, st, next, i);
    SameAfter(plan, env, start, st, next, i + 1);
    assert ToldAt(plan, config, env, start, st, m, i);
    forall end | m <= end <= |next.observations| && (|next.at| == |st.at| ==> end == m)
      ensures Executed(plan, env, start, next, end, i)
    {
      assert Place(next, end, i + 1) == Place(st, m, i + 1);
    }
  }

  // The state after a step, read from it: its observation, the mode and the failure class, and whether it ends the run.
  lemma StepPlaces(plan: seq<Step>, config: Config, env: Environment, st: LoopState)
    requires Placed(plan, st) && |st.at| < |plan|
    ensures var k := |st.at|;
            var next := RunStep(config, env, k + 1, plan[k], st).0;
            var seen := Observe(env, k + 1, StepFor(plan[k], st.mode), st.observations);
            && Placed(plan, next) && Extends(st, next) && |next.at| == k + 1 && next.at[k] == |st.observations|
            && next.observations[..next.at[k] + 1] == st.observations + [seen]
            && next.observations[..next.at[k]] == st.observations
            && next.observations[next.at[k]] == seen
  {
    var k, p := |st.at|, |st.observations|;
    var next := RunStep(config, env, k + 1, plan[k], st).0;
    var seen := Observe(env, k + 1, StepFor(plan[k], st.mode), st.observations);
    assert next.observations[..p + 1] == st.observations + [seen];
    assert next.observations[..p] == st.observations;
  }

  lemma StepTells(plan: seq<Step>, config: Config, env: Environment, start: string, st: LoopState)
    requires Placed(plan, st) && |st.at| < |plan|
    requires st.mode == ModeAfter(plan, env, start, st, |st.at|)
    ensures var k := |st.at|;
            var (next, stop) := RunStep(config, env, k + 1, plan[k], st);
            && Placed(plan, next) && |next.at| == k + 1
            && ModeAfter(plan, env, start, next, k) == st.mode
            && next.mode == ModeAfter(plan, env, start, next, k + 1)
            && (stop <==> StopsAfter(plan, config, env, next, k))
            && next.failure == if FailedAt(plan, next, k) then ClassAt(plan, env, next, k) else st.failure
  {
    StepPlaces(plan, config, env, st);
    SameAfter(plan, env, start, st, RunStep(config, env, |st.at| + 1, plan[|st.at|], st).0, |st.at|);
  }

  lemma StepIsExecuted(plan: seq<Step>, config: Config, env: Environment, start: string, st: LoopState)
    requires Placed(plan, st) && |st.at| < |plan|
    requires st.mode == ModeAfter(plan, env, start, st, |st.at|)
    ensures var k := |st.at|;
            var next := RunStep(config, env, k + 1, plan[k], st).0;
            Placed(plan, next) && |next.at| == k + 1 && Executed(plan, env, start, next, |next.observations|, k)
  {
    var k := |st.at|;
    var next := RunStep(config, env, k + 1, plan[k], st).0;
    StepPlaces(plan, config, env, st);
    StepTells(plan, config, env, start, st);
    assert StepFor(plan[k], st.mode) == plan[k].(mode := if plan[k].mode == "" then st.mode else plan[k].mode);
    assert ModeAfter(plan, env, start, next, k) == st.mode && ModeAfter(plan, env, start, next, k + 1) == next.mode;
  }

  lemma StepKeepsTold(plan: seq<Step>, config: Config, env: Environment, start: string, st: LoopState)
    requires Told(plan, config, env, start, st, |st.observations|) && |st.at| < |plan|
    requires st.failure == FailureAfter(plan, env, st, |st.at|)
    requires st.at != [] ==> !StopsAfter(plan, config, env, st, |st.at| - 1)
    requires !Limited(config, env, |st.at| + 1)
    ensures var k := |st.at|;
            var (next, stop) := RunStep(config, env, k + 1, plan[k], st);
            && Told(plan, config, env, start, next, |next.observations|) && |next.at| == k + 1
            && next.failure == FailureAfter(plan, env, next, k + 1)
            && (stop <==> StopsAfter(plan, config, env, next, k))
  {
    var k := |st.at|;
    var next := RunStep(config, env, k + 1, plan[k], st).0;
    StepTells(plan, config, env, start, st);
    StepIsExecuted(plan, config, env, start, st);
    assert Extends(st, next) && next.at[k] == |st.observations| by {
      StepPlaces(plan, config, env, st);
    }
    OneMoreTold(plan, config, env, start, st, next);
    SameAfter(plan, env, start, st, next, k);
  }

  lemma OneMoreTold(plan: seq<Step>, config: Config, env: Environment, start: string, st: LoopState, next: LoopState)
    requires Told(plan, config, env, start, st, |st.observations|)
    requires Placed(plan, next) && Extends(st, next) && |next.at| == |st.at| + 1 && next.at[|st.at|] == |st.observations|
    requires next.mode == ModeAfter(plan, env, start, next, |next.at|)
    requires Executed(plan, env, start, next, |next.observations|, |st.at|) && !Limited(config, env, |st.at| + 1)
    requires st.at != [] ==> !StopsAfter(plan, config, env, st, |st.at| - 1)
    ensures Told(plan, config, env, start, next, |next.observations|)
  {
    forall i | 0 <= i < |st.at| ensures ToldAt(plan, config, env, start, next, |next.observations|, i) {
      assert ToldAt(plan, config, env, start, st, |st.observations|, i);
      StaysTold(plan, config, env, start, st, |st.observations|, next, i);
    }
    assert ToldAt(plan, config, env, start, next, |next.observations|, |st.at|);
  }

  // ---------- Whole runs ----------


  // The last observation says that a limit came before the step with this index.
  ghost predicate StoppedByLimit(config: Config, env: Environment, st: LoopState) {
    var index := |st.at| + 1;
    && Limited(config, env, index)
    && st.observations != []
    && var last := st.observations[|st.observations| - 1];
       && last.step == index && last.kind == "internal" && !last.ok && last.mode == st.mode && last.data == NO_DATA
       && if config.maxSteps.Some? && index > config.maxSteps.value
          then last.name == "step_limit" && st.failure == "step_limit"
          else last.name == "task_timeout" && st.failure == "timeout"
  }

  // The run ended with its last step, or after one that ends it, or at a limit.
  ghost predicate WellEnded(plan: seq<Step>, config: Config, env: Environment, start: string, st: LoopState) {
    var n, m := |st.at|, |st.observations|;
    || (&& Told(plan, config, env, start, st, m)
        && st.failure == FailureAfter(plan, env, st, n)
        && (n == |plan| || (n > 0 && StopsAfter(plan, config, env, st, n - 1))))
    || (&& m > 0 && Told(plan, config, env, start, st, m - 1)
        && n < |plan| && StoppedByLimit(config, env, st)
        && (n > 0 ==> !StopsAfter(plan, config, env, st, n - 1)))
  }

  lemma LimitIsTold(plan: seq<Step>, config: Config, env: Environment, start: string, st: LoopState, end: LoopState, limit: Observation)
    requires Told(plan, config, env, start, st, |st.observations|)
    requires end == st.(observations := st.observations + [limit], failure := end.failure)
    ensures Told(plan, config, env, start, end, |st.observations|)
    ensures forall i :: 0 <= i < |st.at| ==> (StopsAfter(plan, config, env, end, i) <==> StopsAfter(plan, config, env, st, i))
  {
    SameAfter(plan, env, start, st, end, |st.at|);
    forall i | 0 <= i < |st.at|
      ensures ToldAt(plan, config, env, start, end, |st.observations|, i)
      ensures StopsAfter(plan, config, env, end, i) <==> StopsAfter(plan, config, env, st, i)
    {
      assert ToldAt(plan, config, env, start, st, |st.observations|, i);
      StaysTold(plan, config, env, start, st, |st.observations|, end, i);
    }
  }

  lemma LimitEnds(plan: seq<Step>, config: Config, env: Environment, start: string, st: LoopState, end: LoopState)
    requires Told(plan, config, env, start, st, |st.observations|) && |st.at| < |plan|
    requires st.at != [] ==> !StopsAfter(plan, config, env, st, |st.at| - 1)
    requires Limited(config, env, |st.at| + 1) && end == Loop(plan, config, env, |st.at|, st)
    ensures WellEnded(plan, config, env, start, end)
  {
    var m := |st.observations|;
    LimitIsTold(plan, config, env, start, st, end, end.observations[m]);
    assert |end.observations| - 1 == m;
  }

  lemma {:induction false} LoopTells(plan: seq<Step>, config: Config, env: Environment, start: string, st: LoopState)
    requires Told(plan, config, env, start, st, |st.observations|)
    requires st.failure == FailureAfter(plan, env, st, |st.at|)
    requires st.at != [] ==> !StopsAfter(plan, config, env, st, |st.at| - 1)
    ensures WellEnded(plan, config, env, start, Loop(plan, config, env, |st.at|, st))
    decreases |plan| - |st.at|
  {
    var k := |st.at|;
    if k == |plan| {
    } else if Limited(config, env, k + 1) {
      LimitEnds(plan, config, env, start, st, Loop(plan, config, env, k, st));
    } else {
      StepKeepsTold(plan, config, env, start, st);
      var (next, stop) := RunStep(config, env, k + 1, plan[k], st);
      if !stop {
        LoopTells(plan, config, env, start, next);
      }
    }
  }

  // Every run, told from its observations.
  lemma RunTells(plan: seq<Step>, config: Config, env: Environment, start: string)
    ensures WellEnded(plan, config, env, start, Loop(plan, config, env, 0, Start(start)))
  {
    LoopTells(plan, config, env, start, Start(start));
  }

  // Where a run stops: no step is executed after a required one that failed with the goal in conflict, after any failed required
  // one if the run is to stop there, after a rejection by the planner, or beyond a limit. Without these, every step of the plan
  // is executed.
  lemma StopsExactly(plan: seq<Step>, config: Config, env: Environment, start: string)
    ensures var end := Loop(plan, config, env, 0, Start(start));
            var n := |end.records|;
            && Placed(plan, end)
            && (forall i :: 0 <= i < n - 1 && plan[i].required && !end.observations[end.at[i]].ok ==>
                  && env.classify(end.observations[..end.at[i] + 1]) != "goal_conflict"
                  && !config.stopOnRequiredFailure
                  && !(plan[i].name == "implement" && end.observations[end.at[i]].data.plannerRejected))
            && (forall index :: 1 <= index <= n ==> !Limited(config, env, index))
            && (n < |plan| ==> Limited(config, env, n + 1) || (n > 0 && StopsAfter(plan, config, env, end, n - 1)))
  {
    RunTells(plan, config, env, start);
    var end := Loop(plan, config, env, 0, Start(start));
    EndStops(plan, config, env, start, end);
    forall i | 0 <= i < |end.records| - 1 && plan[i].required && !end.observations[end.at[i]].ok
      ensures env.classify(end.observations[..end.at[i] + 1]) != "goal_conflict" && !config.stopOnRequiredFailure
      ensures !(plan[i].name == "implement" && end.observations[end.at[i]].data.plannerRejected)
    {
      assert !StopsAfter(plan, config, env, end, i) && FailedAt(plan, end, i);
    }
  }

  lemma EndStops(plan: seq<Step>, config: Config, env: Environment, start: string, end: LoopState)
    requires WellEnded(plan, config, env, start, end)
    ensures Placed(plan, end)
    ensures forall i :: 0 <= i < |end.at| - 1 ==> !StopsAfter(plan, config, env, end, i)
    ensures forall index :: 1 <= index <= |end.at| ==> !Limited(config, env, index)
    ensures |end.at| < |plan| ==>
              Limited(config, env, |end.at| + 1) || (end.at != [] && StopsAfter(plan, config, env, end, |end.at| - 1))
  {
    var m := |end.observations|;
    if Told(plan, config, env, start, end, m) {
      ToldMeans(plan, config, env, start, end, m);
    } else {
      ToldMeans(plan, config, env, start, end, m - 1);
    }
  }

  lemma ToldMeans(plan: seq<Step>, config: Config, env: Environment, start: string, st: LoopState, m: nat)
    requires Told(plan, config, env, start, st, m)
    ensures forall i :: 0 <= i < |st.at| - 1 ==> !StopsAfter(plan, config, env, st, i)
    ensures forall index :: 1 <= index <= |st.at| ==> !Limited(config, env, index)
  {
    forall i | 0 <= i < |st.at| - 1 ensures !StopsAfter(plan, config, env, st, i) {
      assert ToldAt(plan, config, env, start, st, m, i);
    }
    forall index | 1 <= index <= |st.at| ensures !Limited(config, env, index) {
      assert ToldAt(plan, config, env, start, st, m, index - 1);
    }
  }
}
