/**
 The agent loop of quantagent/agent_loop_core.py with the trajectory of quantagent/agent_step_record.py: a plan run step by
 step under limits and mode switches, and the verdict on what was observed.
 */
module AgentLoop {
  import opened Wrappers

  datatype Step = Step(name: string, kind: string, command: seq<string>, required: bool, mode: string)

  // An item of a result list; `status` is absent when the item has none.
  datatype ResultItem = NotADict | Item(status: Option<string>)

  // The fields of an observation's data that the loop reads.
  datatype Data = Data(
    filePath: Option<string>, paths: seq<string>, changedFiles: seq<string>, filesTouched: seq<string>, createdFiles: seq<string>,
    results: Option<seq<ResultItem>>, plannerRejected: bool)

  datatype Observation = Observation(
    step: nat, name: string, kind: string, ok: bool, summary: string, mode: string, data: Data)

  datatype StepRecord = StepRecord(
    stepId: nat, phase: string, action: string, filesTouched: seq<string>, commandRun: seq<string>, observation: string,
    verificationResult: string, status: string)

  datatype Config = Config(maxSteps: Option<nat>, stopOnRequiredFailure: bool)

  datatype Effect = Effect(ok: bool, summary: string, data: Data)

  // Executing a step, the deadline before a step, the failure classes and the mode router, as they behave.
  datatype Environment = Environment(
    execute: (nat, Step, seq<Observation>) -> Effect, timedOut: nat -> bool, classify: seq<Observation> -> string,
    route: (nat, string, string) -> string)

  const NO_DATA := Data(None, [], [], [], [], None, false)

  // ---------- The trajectory ----------

  function IndexOf(steps: seq<StepRecord>, stepId: nat): (r: Option<nat>)
    ensures r.Some? ==> r.value < |steps| && steps[r.value].stepId == stepId
    ensures r.Some? ==> forall k :: 0 <= k < r.value ==> steps[k].stepId != stepId
    ensures r.None? ==> forall k :: 0 <= k < |steps| ==> steps[k].stepId != stepId
  {
    if steps == [] then None
    else if steps[0].stepId == stepId then Some(0)
    else
      match IndexOf(steps[1..], stepId)
      case None => None
      case Some(k) => Some(k + 1)
  }

  class AgentTrajectory {
    var steps: seq<StepRecord>

    constructor ()
      ensures steps == []
    {
      steps := [];
    }

    method AddStep(step: StepRecord)
      modifies this
      ensures steps == old(steps) + [step]
    {
      steps := steps + [step];
    }

    method FindStepIndex(stepId: nat) returns (index: Option<nat>)
      ensures index == IndexOf(steps, stepId)
    {
      var i := 0;
      while i < |steps|
        invariant 0 <= i <= |steps|
        invariant forall k :: 0 <= k < i ==> steps[k].stepId != stepId
      {
        if steps[i].stepId == stepId {
          return Some(i);
        }
        i := i + 1;
      }
      index := None;
    }

    method StepsAfter(stepId: nat) returns (after: seq<StepRecord>)
      ensures forall k :: (0 <= k < |steps| && steps[k].stepId == stepId && forall j :: 0 <= j < k ==> steps[j].stepId != stepId)
                ==> after == steps[k + 1..]
      ensures (forall k :: 0 <= k < |steps| ==> steps[k].stepId != stepId) ==> after == []
    {
      var index := FindStepIndex(stepId);
      if index.None? {
        return [];
      }
      after := steps[index.value + 1..];
    }
  }

  function InferPhase(kind: string): string {
    if kind == "internal" then "plan" else if kind == "tool" then "execute" else if kind == "command" then "verify" else "execute"
  }

  function VerificationResult(observation: Observation): string {
    if observation.name in {"validate", "unit_tests", "audit"} then (if observation.ok then "passed" else "failed")
    else if observation.name == "final_review" then "skipped"
    else "not_run"
  }

  function Files(data: Data): seq<string> {
    (if data.filePath.Some? then [data.filePath.value] else []) + data.paths + data.changedFiles + data.filesTouched + data.createdFiles
  }

  function RunningRecord(index: nat, step: Step): StepRecord {
    StepRecord(index, InferPhase(step.kind), step.kind + ":" + step.name, [], step.command, "", "not_run", "running")
  }

  function FinishedRecord(index: nat, step: Step, observation: Observation): StepRecord {
    StepRecord(index, InferPhase(step.kind), step.kind + ":" + step.name, Files(observation.data), step.command, observation.summary,
               VerificationResult(observation), if observation.ok then "passed" else "failed")
  }

  // ---------- The loop ----------

  // What the loop carries. `at` says where in the observations the one of each executed step is.
  datatype LoopState = LoopState(observations: seq<Observation>, records: seq<StepRecord>, at: seq<nat>, mode: string, failure: string)

  function StepFor(step: Step, mode: string): Step {
    if step.mode != "" then step else step.(mode := mode)
  }

  function Limit(index: nat, name: string, mode: string): Observation {
    Observation(index, name, "internal", false, name, mode, NO_DATA)
  }

  function Transition(n: nat, mode: string): Observation {
    Observation(n + 1, "mode_transition", "internal", true, "mode switched", mode, NO_DATA)
  }

  predicate PlannerRejected(observation: Observation) {
    observation.name == "implement" && observation.data.plannerRejected
  }

  function Observe(env: Environment, index: nat, step: Step, observations: seq<Observation>): Observation {
    var effect := env.execute(index, step, observations);
    Observation(index, step.name, step.kind, effect.ok, effect.summary, step.mode, effect.data)
  }

  // Step `index` itself, and whether the loop breaks after it.
  function RunStep(config: Config, env: Environment, index: nat, step: Step, st: LoopState): (LoopState, bool) {
    var observation := Observe(env, index, StepFor(step, st.mode), st.observations);
    var observations := st.observations + [observation];
    var next := LoopState(observations, st.records + [FinishedRecord(index, step, observation)], st.at + [|st.observations|],
                          st.mode, st.failure);
    if observation.ok || !step.required then (next, false)
    else
      var failure := env.classify(observations);
      if failure == "goal_conflict" then (next.(failure := failure), true)
      else
        var mode := env.route(index, st.mode, failure);
        var moved := if mode == st.mode then next.(failure := failure)
                     else next.(observations := observations + [Transition(|observations|, mode)], mode := mode, failure := failure);
        (moved, config.stopOnRequiredFailure || PlannerRejected(observation))
  }

  // The rest of the plan from its `k`-th step on.
  function Loop(plan: seq<Step>, config: Config, env: Environment, k: nat, st: LoopState): LoopState
    requires k <= |plan|
    decreases |plan| - k
  {
    if k == |plan| then st
    else if config.maxSteps.Some? && k + 1 > config.maxSteps.value then
      st.(observations := st.observations + [Limit(k + 1, "step_limit", st.mode)], failure := "step_limit")
    else if env.timedOut(k + 1) then
      st.(observations := st.observations + [Limit(k + 1, "task_timeout", st.mode)], failure := "timeout")
    else
      var (next, stop) := RunStep(config, env, k + 1, plan[k], st);
      if stop then next else Loop(plan, config, env, k + 1, next)
  }

  function Start(mode: string): LoopState {
    LoopState([], [], [], mode, "")
  }

  // ---------- The verdict ----------

  predicate Satisfies(observation: Observation) {
    || (observation.name == "unit_tests" && observation.ok)
    || (&& observation.name == "validate" && observation.ok
        && (observation.data.results.None? ||
            exists k :: 0 <= k < |observation.data.results.value| && Verifies(observation.data.results.value[k])))
  }

  predicate Verifies(item: ResultItem) {
    item.Item? && item.status != Some("skip")
  }

  predicate Mutates(observation: Observation) {
    observation.ok && Files(observation.data) != []
  }

  // Some change of files is followed by no satisfying verification.
  predicate Unverified(observations: seq<Observation>) {
    exists i :: 0 <= i < |observations| && Mutates(observations[i]) &&
                forall j :: i < j < |observations| ==> !Satisfies(observations[j])
  }

  predicate MissingVerification(observations: seq<Observation>, mode: string) {
    mode in {"build", "repair"} && Unverified(observations)
  }

  method MissingPostEditVerification(observations: seq<Observation>, mode: string) returns (missing: bool)
    ensures missing <==> MissingVerification(observations, mode)
  {
    if mode !in {"build", "repair"} {
      return false;
    }
    var last := -1;
    var i := 0;
    while i < |observations|
      invariant 0 <= i <= |observations| && -1 <= last < i
      invariant last >= 0 ==> Mutates(observations[last])
      invariant forall k :: last < k < i ==> !Mutates(observations[k])
    {
      if Mutates(observations[i]) {
        last := i;
      }
      i := i + 1;
    }
    if last < 0 {
      return false;
    }
    i := last + 1;
    while i < |observations|
      invariant last < i <= |observations|
      invariant forall k :: last < k < i ==> !Satisfies(observations[k])
    {
      if Satisfies(observations[i]) {
        return false;
      }
      i := i + 1;
    }
    missing := true;
  }

  // The first step of that name decides; a name outside the plan is not required.
  predicate IsRequired(name: string, plan: seq<Step>) {
    plan != [] && if plan[0].name == name then plan[0].required else IsRequired(name, plan[1..])
  }

  predicate HardStopped(observations: seq<Observation>) {
    exists i :: 0 <= i < |observations| && observations[i].name in {"task_timeout", "step_limit"} && !observations[i].ok
  }

  predicate RequiredFailed(observations: seq<Observation>, plan: seq<Step>) {
    exists i :: 0 <= i < |observations| && !observations[i].ok && IsRequired(observations[i].name, plan)
  }

  function GapObservation(n: nat, mode: string): Observation {
    Observation(n + 1, "verification_required", "internal", false, "post-edit verification missing after file changes", mode, NO_DATA)
  }

  predicate VerdictOk(plan: seq<Step>, observations: seq<Observation>, mode: string) {
    !MissingVerification(observations, mode) && !HardStopped(observations) && !RequiredFailed(observations, plan)
  }

  // What the finalize hook answers (nothing, or a payload) and whether the answer guard passes.
  datatype Finish = Finish(payload: Option<Payload>, blocked: bool, guardOk: bool)

  datatype Payload = Payload(ok: Option<bool>, failureClass: string)

  function FinalOk(ok: bool, finish: Finish): bool {
    var hooked :=
      if finish.payload.Some? then ok && (finish.payload.value.ok.None? || finish.payload.value.ok.value) else ok;
    hooked && !finish.blocked && finish.guardOk
  }

  function FinalFailure(failure: string, finish: Finish): string {
    var hooked := if finish.payload.Some? && finish.payload.value.failureClass != "" then finish.payload.value.failureClass else failure;
    var blocked := if finish.blocked && hooked == "" then "hook_blocked" else hooked;
    if !finish.guardOk && blocked == "" then "answer_guard_blocked" else blocked
  }

  function DeriveStatus(ok: bool, failure: string): string {
    if ok then "done"
    else if failure == "approval_required" then "needs_approval"
    else if failure in {"goal_conflict", "policy_blocked", "hook_blocked", "answer_guard_blocked"} then "blocked"
    else "failed"
  }

  datatype LoopResult = LoopResult(ok: bool, status: string, finalMode: string, observations: seq<Observation>, failureClass: string)

  function Conclude(plan: seq<Step>, env: Environment, finish: Finish, st: LoopState): LoopResult {
    var gap := MissingVerification(st.observations, st.mode);
    var observations := if gap then st.observations + [GapObservation(|st.observations|, st.mode)] else st.observations;
    var failure := if st.failure != "" then st.failure else if gap then "verification_failed" else env.classify(observations);
    var ok := FinalOk(VerdictOk(plan, st.observations, st.mode), finish);
    LoopResult(ok, DeriveStatus(ok, FinalFailure(failure, finish)), st.mode, observations, FinalFailure(failure, finish))
  }

  // One round of the loop: the step is recorded as running, executed, and its record finished.
  method ExecuteStep(
    config: Config, env: Environment, index: nat, step: Step, trajectory: AgentTrajectory, observations: seq<Observation>,
    mode: string, failure: string, ghost at: seq<nat>)
    returns (seen: seq<Observation>, activeMode: string, failureClass: string, stop: bool)
    modifies trajectory
    ensures (LoopState(seen, trajectory.steps, at + [|observations|], activeMode, failureClass), stop) ==
            RunStep(config, env, index, step, LoopState(observations, old(trajectory.steps), at, mode, failure))
  {
    activeMode, failureClass, stop := mode, failure, false;
    var stepForMode := StepFor(step, mode);
    trajectory.AddStep(RunningRecord(index, stepForMode));
    var observation := Observe(env, index, stepForMode, observations);
    seen := observations + [observation];
    trajectory.steps := trajectory.steps[|trajectory.steps| - 1 := FinishedRecord(index, stepForMode, observation)];
    assert trajectory.steps == old(trajectory.steps) + [FinishedRecord(index, step, observation)];
    if !observation.ok && stepForMode.required {
      failureClass := env.classify(seen);
      if failureClass == "goal_conflict" {
        stop := true;
        return;
      }
      var next := env.route(index, activeMode, failureClass);
      if next != activeMode {
        activeMode := next;
        seen := seen + [Transition(|seen|, activeMode)];
      }
      stop := config.stopOnRequiredFailure || PlannerRejected(observation);
    }
  }

  method RunPlan(plan: seq<Step>, config: Config, env: Environment, startMode: string)
    returns (observations: seq<Observation>, activeMode: string, failure: string, trajectory: AgentTrajectory, ghost at: seq<nat>)
    ensures LoopState(observations, trajectory.steps, at, activeMode, failure) == Loop(plan, config, env, 0, Start(startMode))
    ensures fresh(trajectory)
  {
    observations, activeMode, failure, at := [], startMode, "", [];
    trajectory := new AgentTrajectory();
    ghost var end := Loop(plan, config, env, 0, Start(startMode));
    var k := 0;
    while k < |plan|
      invariant 0 <= k <= |plan| && fresh(trajectory)
      invariant end == Loop(plan, config, env, k, LoopState(observations, trajectory.steps, at, activeMode, failure))
    {
      var index := k + 1;
      if config.maxSteps.Some? && index > config.maxSteps.value {
        observations := observations + [Limit(index, "step_limit", activeMode)];
        failure := "step_limit";
        return;
      }
      if env.timedOut(index) {
        observations := observations + [Limit(index, "task_timeout", activeMode)];
        failure := "timeout";
        return;
      }
      var stop;
      ghost var before := |observations|;
      observations, activeMode, failure, stop :=
        ExecuteStep(config, env, index, plan[k], trajectory, observations, activeMode, failure, at);
      at := at + [before];
      if stop {
        return;
      }
      k := k + 1;
    }
  }

  method RunAgentLoop(plan: seq<Step>, config: Config, env: Environment, startMode: string, finish: Finish)
    returns (result: LoopResult, trajectory: AgentTrajectory)
    ensures var st := Loop(plan, config, env, 0, Start(startMode));
            result == Conclude(plan, env, finish, st) && trajectory.steps == st.records
    ensures fresh(trajectory)
  {
    var observations, activeMode, failure;
    ghost var at;
    observations, activeMode, failure, trajectory, at := RunPlan(plan, config, env, startMode);
    var gap := MissingPostEditVerification(observations, activeMode);
    var verdict := !gap && !HardStopped(observations) && !RequiredFailed(observations, plan);
    if gap {
      observations := observations + [GapObservation(|observations|, activeMode)];
      failure := if failure != "" then failure else "verification_failed";
    }
    failure := if failure != "" then failure else env.classify(observations);
    var ok := FinalOk(verdict, finish);
    failure := FinalFailure(failure, finish);
    result := LoopResult(ok, DeriveStatus(ok, failure), activeMode, observations, failure);
  }
}
