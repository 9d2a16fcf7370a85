/** What a finished run of the agent loop says about its steps. */
module AgentLoopTheorems {
  import opened Wrappers
  import opened AgentLoop

  // ---------- The shape of a run ----------

  // The record at `i` is the finished one of step i + 1 of the plan, made from that step's observation.
  ghost predicate Recorded(plan: seq<Step>, st: LoopState, i: nat)
    requires i < |plan| && i < |st.records| && i < |st.at|
  {
    && st.at[i] < |st.observations|
    && var observation := st.observations[st.at[i]];
       && observation.step == i + 1 && observation.name == plan[i].name && observation.kind == plan[i].kind
       && st.records[i] == FinishedRecord(i + 1, plan[i], observation)
  }

  ghost predicate IsTransition(observation: Observation) {
    observation.name == "mode_transition" && observation.kind == "internal" && observation.ok
  }

  ghost predicate IsLimit(observation: Observation) {
    observation.name in {"step_limit", "task_timeout"} && observation.kind == "internal" && !observation.ok
  }

  // After `n` executed steps: one finished record each, in order, and between their observations only mode transitions.
  ghost predicate Shape(plan: seq<Step>, n: nat, st: LoopState) {
    && n <= |plan| && |st.records| == n && |st.at| == n
    && (forall i :: 0 <= i < n ==> Recorded(plan, st, i))
    && (forall i, j :: 0 <= i < j < n ==> st.at[i] < st.at[j])
    && forall p :: 0 <= p < |st.observations| && p !in st.at ==> IsTransition(st.observations[p])
  }

  // The last executed step failed although it is required.
  ghost predicate LastFailed(plan: seq<Step>, st: LoopState) {
    var n := |st.records|;
    && 0 < n <= |plan| && n == |st.at| && st.at[n - 1] < |st.observations|
    && plan[n - 1].required && !st.observations[st.at[n - 1]].ok
  }

  // What executing the step with observation `seen` does to the state.
  ghost predicate Grows(plan: seq<Step>, k: nat, st: LoopState, next: LoopState, seen: Observation)
    requires k < |plan|
  {
    && seen.step == k + 1 && seen.name == plan[k].name && seen.kind == plan[k].kind
    && next.records == st.records + [FinishedRecord(k + 1, plan[k], seen)]
    && next.at == st.at + [|st.observations|]
    && st.observations + [seen] <= next.observations
    && forall p :: |st.observations| < p < |next.observations| ==> IsTransition(next.observations[p])
  }

  lemma StepGrows(plan: seq<Step>, config: Config, env: Environment, k: nat, st: LoopState)
    requires k < |plan|
    ensures var (next, stop) := RunStep(config, env, k + 1, plan[k], st);
            var seen := Observe(env, k + 1, StepFor(plan[k], st.mode), st.observations);
            && Grows(plan, k, st, next, seen)
            && (stop ==> plan[k].required && !seen.ok)
  {
  }

  lemma GrowingKeepsShape(plan: seq<Step>, k: nat, st: LoopState, next: LoopState, seen: Observation)
    requires k < |plan| && Shape(plan, k, st) && Grows(plan, k, st, next, seen)
    ensures Shape(plan, k + 1, next)
    ensures plan[k].required && !seen.ok ==> LastFailed(plan, next)
  {
    var m := |st.observations|;
    assert next.observations[m] == (st.observations + [seen])[m] == seen;
    forall i | 0 <= i < k + 1 ensures Recorded(plan, next, i) && (i < k ==> next.at[i] < m) {
      if i < k {
        assert Recorded(plan, st, i);
        assert next.observations[st.at[i]] == (st.observations + [seen])[st.at[i]];
      }
    }
    assert next.at[k] == m && m in next.at;
    forall p | 0 <= p < |next.observations| && p !in next.at ensures IsTransition(next.observations[p]) {
      if p < m {
        assert p in st.at ==> p in next.at;
        assert next.observations[p] == (st.observations + [seen])[p];
      }
    }
  }

  lemma StepKeepsShape(plan: seq<Step>, config: Config, env: Environment, k: nat, st: LoopState)
    requires k < |plan| && Shape(plan, k, st)
    ensures var (next, stop) := RunStep(config, env, k + 1, plan[k], st);
            && Shape(plan, k + 1, next)
            && (stop ==> LastFailed(plan, next))
  {
    StepGrows(plan, config, env, k, st);
    var (next, stop) := RunStep(config, env, k + 1, plan[k], st);
    GrowingKeepsShape(plan, k, st, next, Observe(env, k + 1, StepFor(plan[k], st.mode), st.observations));
  }

  // How the loop ends: the plan is done, a limit stopped it, or its last step failed although it is required.
  ghost predicate Ended(plan: seq<Step>, config: Config, st: LoopState) {
    var n := |st.records|;
    var m := |st.observations|;
    || (Shape(plan, n, st) && (n == |plan| || LastFailed(plan, st)))
    || (&& m > 0 && IsLimit(st.observations[m - 1]) && n < |plan|
        && Shape(plan, n, st.(observations := st.observations[..m - 1])))
  }

  lemma {:induction false} LoopEnds(plan: seq<Step>, config: Config, env: Environment, k: nat, st: LoopState)
    requires k <= |plan| && Shape(plan, k, st) && (config.maxSteps.Some? ==> k <= config.maxSteps.value)
    ensures var end := Loop(plan, config, env, k, st);
            && Ended(plan, config, end)
            && (config.maxSteps.Some? ==> |end.records| <= config.maxSteps.value)
    decreases |plan| - k
  {
    if k == |plan| {
    } else {
      var end := Loop(plan, config, env, k, st);
      if (config.maxSteps.Some? && k + 1 > config.maxSteps.value) || env.timedOut(k + 1) {
        var m := |end.observations|;
        assert end.observations[..m - 1] == st.observations;
        assert end.(observations := end.observations[..m - 1]).(failure := st.failure) == st;
        LimitedShape(plan, k, st, end);
      } else {
        var (next, stop) := RunStep(config, env, k + 1, plan[k], st);
        StepKeepsShape(plan, config, env, k, st);
        if !stop {
          LoopEnds(plan, config, env, k + 1, next);
        }
      }
    }
  }

  lemma LimitedShape(plan: seq<Step>, k: nat, st: LoopState, end: LoopState)
    requires Shape(plan, k, st) && end.observations != []
    requires end.(observations := end.observations[..|end.observations| - 1]).(failure := st.failure) == st
    ensures Shape(plan, k, end.(observations := end.observations[..|end.observations| - 1]))
  {
    var cut := end.(observations := end.observations[..|end.observations| - 1]);
    forall i | 0 <= i < k ensures Recorded(plan, cut, i) {
      assert Recorded(plan, st, i);
    }
  }

  // Every run: the trajectory is one finished record for each executed step, numbered from 1 in the plan's order; never more
  // than the step limit; and the only other observations are mode transitions, with a limit as the last one.
  lemma RunShape(plan: seq<Step>, config: Config, env: Environment, mode: string)
    ensures var end := Loop(plan, config, env, 0, Start(mode));
            var n := |end.records|;
            && n <= |plan| && n == |end.at|
            && (config.maxSteps.Some? ==> n <= config.maxSteps.value)
            && (forall i :: 0 <= i < n ==> Recorded(plan, end, i))
            && (forall i, j :: 0 <= i < j < n ==> end.at[i] < end.at[j])
            && forall p :: 0 <= p < |end.observations| && p !in end.at ==>
                 IsTransition(end.observations[p]) || (p == |end.observations| - 1 && IsLimit(end.observations[p]))
  {
    LoopEnds(plan, config, env, 0, Start(mode));
    var end := Loop(plan, config, env, 0, Start(mode));
    var n, m := |end.records|, |end.observations|;
    if !Shape(plan, n, end) {
      var cut := end.(observations := end.observations[..m - 1]);
      forall i | 0 <= i < n ensures Recorded(plan, end, i) {
        assert Recorded(plan, cut, i);
      }
      forall p | 0 <= p < m && p !in end.at
        ensures IsTransition(end.observations[p]) || (p == m - 1 && IsLimit(end.observations[p]))
      {
        if p < m - 1 {
          assert cut.observations[p] == end.observations[p];
        }
      }
    }
  }

  // What the trajectory says of each executed step.
  lemma RecordsSay(plan: seq<Step>, config: Config, env: Environment, mode: string, i: nat)
    requires i < |Loop(plan, config, env, 0, Start(mode)).records|
    ensures var end := Loop(plan, config, env, 0, Start(mode));
            && i < |plan| && |end.at| == |end.records| && end.at[i] < |end.observations|
            && var record, observation := end.records[i], end.observations[end.at[i]];
               && record.stepId == i + 1
               && record.action == plan[i].kind + ":" + plan[i].name && record.commandRun == plan[i].command
               && record.observation == observation.summary
               && record.status == (if observation.ok then "passed" else "failed")
               && (forall f :: f in record.filesTouched <==>
                     var data := observation.data;
                     data.filePath == Some(f) || f in data.paths || f in data.changedFiles || f in data.filesTouched || f in data.createdFiles)
    ensures var end := Loop(plan, config, env, 0, Start(mode));
            && i < |plan| && |end.at| == |end.records| && end.at[i] < |end.observations|
            && var record, ok, name, kind := end.records[i], end.observations[end.at[i]].ok, plan[i].name, plan[i].kind;
               && (record.phase == "plan" <==> kind == "internal")
               && (record.phase == "verify" <==> kind == "command")
               && record.phase in {"plan", "verify", "execute"}
               && (record.verificationResult == "passed" <==> name in {"validate", "unit_tests", "audit"} && ok)
               && (record.verificationResult == "failed" <==> name in {"validate", "unit_tests", "audit"} && !ok)
               && (record.verificationResult == "skipped" <==> name == "final_review")
               && record.verificationResult in {"passed", "failed", "skipped", "not_run"}
  {
    RunShape(plan, config, env, mode);
    assert Recorded(plan, Loop(plan, config, env, 0, Start(mode)), i);
  }

  // ---------- The verdict ----------

  // A step that passed and names files it changed, in any of the places for them.
  ghost predicate ChangedFiles(observation: Observation) {
    var data := observation.data;
    && observation.ok
    && (data.filePath.Some? || exists f :: f in data.paths || f in data.changedFiles || f in data.filesTouched || f in data.createdFiles)
  }

  // A step that passed and verified something: the unit tests, or a validation unless everything it lists was skipped.
  ghost predicate VerifiedChanges(observation: Observation) {
    && observation.ok
    && (observation.name == "validate" ==>
          observation.data.results.None?
          || exists item :: item in observation.data.results.value && item.Item? && item.status != Some("skip"))
    && observation.name in {"unit_tests", "validate"}
  }

  lemma ObservationMeans(observation: Observation)
    ensures Mutates(observation) <==> ChangedFiles(observation)
    ensures Satisfies(observation) <==> VerifiedChanges(observation)
  {
    var data := observation.data;
    var files := Files(data);
    assert files != [] ==> files[0] in files;
    assert forall f :: f in files <==> data.filePath == Some(f) || f in data.paths || f in data.changedFiles
                                       || f in data.filesTouched || f in data.createdFiles;
    assert data.filePath.Some? ==> data.filePath.value in files;
    if data.results.Some? {
      var results := data.results.value;
      forall k | 0 <= k < |results| && Verifies(results[k]) ensures results[k] in results {
      }
    }
  }

  // Some step has the name and is required, and no step before it has the name.
  ghost predicate RequiredName(name: string, plan: seq<Step>) {
    exists i :: 0 <= i < |plan| && plan[i].name == name && plan[i].required && forall j :: 0 <= j < i ==> plan[j].name != name
  }

  lemma {:induction false} RequiredMeans(name: string, plan: seq<Step>)
    ensures IsRequired(name, plan) <==> RequiredName(name, plan)
  {
    if plan == [] {
    } else {
      var rest := plan[1..];
      RequiredMeans(name, rest);
      if plan[0].name != name {
        if RequiredName(name, rest) {
          var i :| 0 <= i < |rest| && rest[i].name == name && rest[i].required && forall j :: 0 <= j < i ==> rest[j].name != name;
          assert plan[i + 1] == rest[i] && forall j :: 0 <= j < i + 1 ==> plan[j].name != name;
        }
        if RequiredName(name, plan) {
          var i :| 0 <= i < |plan| && plan[i].name == name && plan[i].required && forall j :: 0 <= j < i ==> plan[j].name != name;
          assert rest[i - 1] == plan[i] && forall j :: 0 <= j < i - 1 ==> rest[j] == plan[j + 1];
        }
      }
    }
  }

  // The final ok, spelled out: no limit was hit, no failed observation carries the name of a required step, in build and repair
  // mode every change of files is followed by a verification, and neither the hook nor the answer guard objects.
  lemma OkIff(plan: seq<Step>, config: Config, env: Environment, mode: string, finish: Finish)
    ensures var end := Loop(plan, config, env, 0, Start(mode));
            var result := Conclude(plan, env, finish, end);
            && (result.ok <==>
                 && (forall i :: 0 <= i < |end.observations| && !end.observations[i].ok ==>
                       end.observations[i].name !in {"task_timeout", "step_limit"} && !RequiredName(end.observations[i].name, plan))
                 && (end.mode in {"build", "repair"} ==>
                       forall i :: 0 <= i < |end.observations| && ChangedFiles(end.observations[i]) ==>
                         exists j :: i < j < |end.observations| && VerifiedChanges(end.observations[j]))
                 && !finish.blocked && finish.guardOk && (finish.payload.Some? ==> finish.payload.value.ok != Some(false)))
            && (result.ok <==> result.status == "done")
            && (result.ok ==> |end.records| == |plan| || LastFailed(plan, end))
  {
    LoopEnds(plan, config, env, 0, Start(mode));
    VerdictMeans(plan, Loop(plan, config, env, 0, Start(mode)));
  }

  lemma VerdictMeans(plan: seq<Step>, end: LoopState)
    ensures VerdictOk(plan, end.observations, end.mode) <==>
            && (forall i :: 0 <= i < |end.observations| && !end.observations[i].ok ==>
                  end.observations[i].name !in {"task_timeout", "step_limit"} && !RequiredName(end.observations[i].name, plan))
            && (end.mode in {"build", "repair"} ==>
                  forall i :: 0 <= i < |end.observations| && ChangedFiles(end.observations[i]) ==>
                    exists j :: i < j < |end.observations| && VerifiedChanges(end.observations[j]))
  {
    forall i | 0 <= i < |end.observations|
      ensures Mutates(end.observations[i]) <==> ChangedFiles(end.observations[i])
      ensures Satisfies(end.observations[i]) <==> VerifiedChanges(end.observations[i])
      ensures IsRequired(end.observations[i].name, plan) <==> RequiredName(end.observations[i].name, plan)
    {
      ObservationMeans(end.observations[i]);
      RequiredMeans(end.observations[i].name, plan);
    }
  }

  // In build or repair mode, a change of files that no verification follows.
  ghost predicate LeftUnverified(end: LoopState) {
    && end.mode in {"build", "repair"}
    && exists i :: 0 <= i < |end.observations| && ChangedFiles(end.observations[i])
                   && forall j :: i < j < |end.observations| ==> !VerifiedChanges(end.observations[j])
  }

  // The status of a finished run, by its failure class.
  ghost predicate StatusOf(result: LoopResult) {
    && (result.status == "done" <==> result.ok)
    && (result.status == "needs_approval" <==> !result.ok && result.failureClass == "approval_required")
    && (result.status == "blocked" <==>
          !result.ok && result.failureClass in {"goal_conflict", "policy_blocked", "hook_blocked", "answer_guard_blocked"})
    && result.status in {"done", "needs_approval", "blocked", "failed"}
  }

  // The status and the failure class of a finished run. The hook's class wins, then that of the loop; a missing verification, the
  // hook and the answer guard give theirs only if there is none yet. A missing verification is also added to the observations.
  lemma StatusIff(plan: seq<Step>, env: Environment, finish: Finish, end: LoopState)
    ensures StatusOf(Conclude(plan, env, finish, end))
    ensures finish.payload.Some? && finish.payload.value.failureClass != "" ==>
              Conclude(plan, env, finish, end).failureClass == finish.payload.value.failureClass
    ensures (finish.payload.Some? ==> finish.payload.value.failureClass == "") ==>
              var seen := if end.failure != "" then end.failure
                          else if LeftUnverified(end) then "verification_failed" else env.classify(end.observations);
              Conclude(plan, env, finish, end).failureClass ==
              if seen != "" then seen else if finish.blocked then "hook_blocked"
              else if !finish.guardOk then "answer_guard_blocked" else ""
    ensures var result := Conclude(plan, env, finish, end);
            && result.finalMode == end.mode && end.observations <= result.observations
            && |result.observations| == |end.observations| + (if LeftUnverified(end) then 1 else 0)
            && (LeftUnverified(end) ==>
                  var last := result.observations[|end.observations|];
                  last.name == "verification_required" && !last.ok && last.step == |result.observations|)
  {
    forall i | 0 <= i < |end.observations|
      ensures Mutates(end.observations[i]) <==> ChangedFiles(end.observations[i])
      ensures Satisfies(end.observations[i]) <==> VerifiedChanges(end.observations[i])
    {
      ObservationMeans(end.observations[i]);
    }
  }

  // The first step with the name decides whether it is required.
  lemma {:induction false} RequiredIsFirst(plan: seq<Step>, i: nat)
    requires i < |plan| && forall j :: 0 <= j < i ==> plan[j].name != plan[i].name
    ensures IsRequired(plan[i].name, plan) == plan[i].required
  {
    if i == 0 {
    } else {
      assert plan[0].name != plan[i].name;
      RequiredIsFirst(plan[1..], i - 1);
    }
  }

  // No required step hides behind an earlier step of the same name that is not required.
  ghost predicate NothingShadowed(plan: seq<Step>) {
    forall i :: 0 <= i < |plan| && plan[i].required ==>
      IsRequired(plan[i].name, plan) || plan[i].name in {"task_timeout", "step_limit"}
  }

  // Every step of the plan was executed, and every required one passed.
  ghost predicate Accomplished(plan: seq<Step>, st: LoopState) {
    && |st.records| == |plan| && |st.at| == |plan|
    && forall i :: 0 <= i < |plan| && plan[i].required ==> st.at[i] < |st.observations| && st.observations[st.at[i]].ok
  }

  lemma {:induction false} OkAccomplishes(plan: seq<Step>, config: Config, env: Environment, mode: string)
    requires NothingShadowed(plan)
    requires var end := Loop(plan, config, env, 0, Start(mode)); VerdictOk(plan, end.observations, end.mode)
    ensures Accomplished(plan, Loop(plan, config, env, 0, Start(mode)))
  {
    var end := Loop(plan, config, env, 0, Start(mode));
    var n, m := |end.records|, |end.observations|;
    LoopEnds(plan, config, env, 0, Start(mode));
    RunShape(plan, config, env, mode);
    assert m > 0 && IsLimit(end.observations[m - 1]) ==> HardStopped(end.observations);
    forall i | 0 <= i < n && plan[i].required ensures end.at[i] < m && end.observations[end.at[i]].ok {
      assert Recorded(plan, end, i);
      var observation := end.observations[end.at[i]];
      assert !observation.ok ==> RequiredFailed(end.observations, plan) || HardStopped(end.observations);
    }
  }

  // A verdict that is ok only when the plan was accomplished, whatever the steps do.
  ghost predicate VerdictIsSound(plan: seq<Step>) {
    forall config, env, mode ::
      var end := Loop(plan, config, env, 0, Start(mode));
      VerdictOk(plan, end.observations, end.mode) ==> Accomplished(plan, end)
  }

  const FREE := Config(None, false)

  // Every step passes except the one with index `bad`, and nothing else happens.
  function OnlyFails(bad: nat): Environment {
    Environment((index, step, observations) => Effect(index != bad, "", NO_DATA), index => false, observations => "tool_failed",
                (index, mode, failure) => mode)
  }

  // The states of such a run, as far as the observations go.
  ghost predicate Plain(plan: seq<Step>, bad: nat, k: nat, st: LoopState) {
    && k <= |plan| && |st.observations| == k && |st.records| == k && |st.at| == k
    && forall i :: 0 <= i < k ==> st.at[i] == i && PlainAt(plan, bad, st.observations, i)
  }

  ghost predicate PlainAt(plan: seq<Step>, bad: nat, observations: seq<Observation>, i: nat)
    requires i < |plan| && i < |observations|
  {
    observations[i].name == plan[i].name && observations[i].ok == (i + 1 != bad) && observations[i].data == NO_DATA
  }

  lemma {:induction false} PlainRun(plan: seq<Step>, bad: nat, k: nat, st: LoopState)
    requires k <= |plan| && Plain(plan, bad, k, st)
    ensures Plain(plan, bad, |plan|, Loop(plan, FREE, OnlyFails(bad), k, st))
    decreases |plan| - k
  {
    if k == |plan| {
    } else {
      var (next, stop) := RunStep(FREE, OnlyFails(bad), k + 1, plan[k], st);
      PlainStep(plan, bad, k, st);
      PlainRun(plan, bad, k + 1, next);
    }
  }

  lemma PlainStep(plan: seq<Step>, bad: nat, k: nat, st: LoopState)
    requires k < |plan| && Plain(plan, bad, k, st)
    ensures var (next, stop) := RunStep(FREE, OnlyFails(bad), k + 1, plan[k], st);
            !stop && Plain(plan, bad, k + 1, next)
  {
    var (next, stop) := RunStep(FREE, OnlyFails(bad), k + 1, plan[k], st);
    assert next.observations == st.observations + [next.observations[k]];
    forall i | 0 <= i < k + 1 ensures next.at[i] == i && PlainAt(plan, bad, next.observations, i) {
      assert i < k ==> PlainAt(plan, bad, st.observations, i);
    }
  }

  // The verdict is sound for exactly the plans in which no required step is shadowed.
  lemma {:induction false} VerdictSoundIff(plan: seq<Step>)
    ensures VerdictIsSound(plan) <==> NothingShadowed(plan)
  {
    if NothingShadowed(plan) {
      forall config, env, mode ensures var end := Loop(plan, config, env, 0, Start(mode));
                                       VerdictOk(plan, end.observations, end.mode) ==> Accomplished(plan, end)
      {
        var end := Loop(plan, config, env, 0, Start(mode));
        if VerdictOk(plan, end.observations, end.mode) {
          OkAccomplishes(plan, config, env, mode);
        }
      }
    } else {
      var i :| 0 <= i < |plan| && plan[i].required && !IsRequired(plan[i].name, plan)
               && plan[i].name !in {"task_timeout", "step_limit"};
      ShadowedIsUnsound(plan, i);
    }
  }

  // A run in which only the shadowed step fails is ok.
  lemma {:induction false} ShadowedIsUnsound(plan: seq<Step>, i: nat)
    requires i < |plan| && plan[i].required && !IsRequired(plan[i].name, plan)
    requires plan[i].name !in {"task_timeout", "step_limit"}
    ensures !VerdictIsSound(plan)
  {
    PlainRun(plan, i + 1, 0, Start(""));
    var end := Loop(plan, FREE, OnlyFails(i + 1), 0, Start(""));
    assert PlainAt(plan, i + 1, end.observations, i);
    forall j | 0 <= j < |end.observations|
      ensures !Mutates(end.observations[j]) && (!end.observations[j].ok ==> end.observations[j].name == plan[i].name)
    {
      assert PlainAt(plan, i + 1, end.observations, j);
    }
    assert VerdictOk(plan, end.observations, end.mode) && !Accomplished(plan, end);
  }
}
