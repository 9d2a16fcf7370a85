/**
 The supervisor that launches sub-agents along a dependency graph, adds one repair node per failed
 node and decides a verdict on every refresh (quantagent/agent_supervisor.py).

 Sub-agent statuses belong to the environment: every refresh reads a new table of records, and a
 launch attempt either yields a record or raises.
 */
module Supervisor {

  // The status strings of the source; Unset is the empty string.
  datatype Status =
    | Unset | Pending | Waiting | Ready | Repaired
    | Queued | Running | Passed | Failed | Blocked | Aborted | Lost | LaunchFailed

  datatype Spec = Spec(role: string, nodeId: string, dependsOn: seq<string>, repairFor: string, required: bool)

  datatype Launch = Launch(role: string, ok: bool, nodeId: string, subagentId: string, status: Status)

  // Status of every known sub-agent, by sub-agent id.
  type Records = map<string, Status>

  // What an attempt to start a sub-agent gives: a record, or one of the caught exceptions.
  datatype StartOutcome = Started(subagentId: string, status: Status) | Raised

  datatype Verdict = Verdict(status: Status, terminal: bool, ok: bool)

  // The persisted supervisor run together with the records its last refresh read.
  datatype Run = Run(plan: seq<Spec>, launches: seq<Launch>, records: Records)

  predicate IsFailure(s: Status) {
    s == Failed || s == Aborted || s == Blocked || s == LaunchFailed
  }

  predicate IsRecordStatus(s: Status) {
    s == Queued || s == Running || s == Passed || s == Failed || s == Blocked || s == Aborted || s == Lost
  }

  // Statuses that never change again, by the contract of the sub-agent store.
  predicate IsDecided(s: Status) {
    s == Passed || s == Lost || IsFailure(s)
  }

  function SpecNode(spec: Spec): string {
    if spec.nodeId != "" then spec.nodeId else spec.role
  }

  function LaunchNode(launch: Launch): string {
    if launch.nodeId != "" then launch.nodeId else launch.role
  }

  function LaunchStatus(launch: Launch, records: Records): Status {
    if !launch.ok then
      if launch.status == Unset then LaunchFailed else launch.status
    else if launch.subagentId in records then
      records[launch.subagentId]
    else if launch.status == Unset then Running else launch.status
  }

  function RawStatus(node: string, launches: seq<Launch>, records: Records): Status {
    if launches == [] then Pending
    else if LaunchNode(launches[0]) == node then LaunchStatus(launches[0], records)
    else RawStatus(node, launches[1..], records)
  }

  predicate EffectiveOk(node: string, plan: seq<Spec>, launches: seq<Launch>, records: Records) {
    || RawStatus(node, launches, records) == Passed
    || exists spec :: spec in plan && spec.repairFor == node && RawStatus(SpecNode(spec), launches, records) == Passed
  }

  predicate DependenciesOk(spec: Spec, plan: seq<Spec>, launches: seq<Launch>, records: Records) {
    forall dep :: dep in spec.dependsOn ==> EffectiveOk(dep, plan, launches, records)
  }

  predicate HasRepairFor(plan: seq<Spec>, node: string) {
    exists spec :: spec in plan && spec.repairFor == node
  }

  predicate Launched(node: string, launches: seq<Launch>) {
    exists launch :: launch in launches && LaunchNode(launch) == node
  }

  function RepairSpec(spec: Spec): Spec {
    Spec("repair-" + spec.role, "repair-" + SpecNode(spec), spec.dependsOn, SpecNode(spec), true)
  }

  predicate NeedsRepair(spec: Spec, plan: seq<Spec>, launches: seq<Launch>, records: Records) {
    && spec.repairFor == ""
    && !HasRepairFor(plan, SpecNode(spec))
    && spec.required
    && IsFailure(RawStatus(SpecNode(spec), launches, records))
  }

  function RefreshLaunch(launch: Launch, records: Records): Launch {
    if launch.subagentId in records then launch.(status := records[launch.subagentId]) else launch
  }

  function RefreshLaunchStatuses(launches: seq<Launch>, records: Records): seq<Launch> {
    seq(|launches|, i requires 0 <= i < |launches| => RefreshLaunch(launches[i], records))
  }

  // The repair loop: `todo` is what is left of the snapshot of the plan taken before the loop.
  function AddRepairs(todo: seq<Spec>, plan: seq<Spec>, launches: seq<Launch>, records: Records): seq<Spec> {
    if todo == [] then plan
    else if NeedsRepair(todo[0], plan, launches, records) then
      AddRepairs(todo[1..], plan + [RepairSpec(todo[0])], launches, records)
    else
      AddRepairs(todo[1..], plan, launches, records)
  }

  function LaunchOf(spec: Spec, outcome: StartOutcome): Launch {
    match outcome
    case Started(id, status) => Launch(spec.role, true, SpecNode(spec), id, status)
    case Raised => Launch(spec.role, false, SpecNode(spec), "", LaunchFailed)
  }

  // The launch loop over `todo`, with `launches` the list built so far.
  function LaunchReady(todo: seq<Spec>, plan: seq<Spec>, launches: seq<Launch>, records: Records,
                       starts: string -> StartOutcome): seq<Launch>
  {
    if todo == [] then launches
    else if Launched(SpecNode(todo[0]), launches) || !DependenciesOk(todo[0], plan, launches, records) then
      LaunchReady(todo[1..], plan, launches, records, starts)
    else
      LaunchReady(todo[1..], plan, launches + [LaunchOf(todo[0], starts(SpecNode(todo[0])))], records, starts)
  }

  // The plan of a new run: a scout, then a coder and a quant check as the route asks for, then a verifier of them all.
  function BuildPlan(needsCode: bool, quant: bool, includeValidation: bool, needsReview: bool): seq<Spec> {
    var coder := if needsCode then ["coder"] else [];
    var auditor := if quant then ["quant-execution"] else [];
    [Spec("researcher", "researcher", [], "", true)]
    + (if needsCode then [Spec("coder", "coder", ["researcher"], "", true)] else [])
    + (if quant then [Spec("quant-execution", "quant-execution", ["researcher"], "", true)] else [])
    + (if includeValidation && needsReview
       then [Spec("verifier", "verifier", ["researcher"] + coder + auditor, "", true)] else [])
  }

  // The first launch, with the records read for it: none when a run is launched at once.
  function Start(plan: seq<Spec>, records: Records, starts: string -> StartOutcome): Run {
    Run(plan, LaunchReady(plan, plan, [], records, starts), records)
  }

  function Refresh(run: Run, records: Records, starts: string -> StartOutcome): Run {
    var launches := RefreshLaunchStatuses(run.launches, records);
    var plan := AddRepairs(run.plan, run.plan, launches, records);
    Run(plan, LaunchReady(plan, plan, launches, records, starts), records)
  }

  function NodeStatus(spec: Spec, run: Run): Status {
    var raw := RawStatus(SpecNode(spec), run.launches, run.records);
    if IsFailure(raw) && EffectiveOk(SpecNode(spec), run.plan, run.launches, run.records) then Repaired
    else if raw == Pending && spec.dependsOn != [] then
      if DependenciesOk(spec, run.plan, run.launches, run.records) then Ready else Waiting
    else raw
  }

  // The status table: a later spec with the same node id overwrites an earlier one.
  function NodeStatuses(todo: seq<Spec>, run: Run): map<string, Status> {
    if todo == [] then map[]
    else
      var last := todo[|todo| - 1];
      NodeStatuses(todo[..|todo| - 1], run)[SpecNode(last) := NodeStatus(last, run)]
  }

  predicate Unrepaired(spec: Spec, run: Run) {
    && spec.required
    && IsFailure(RawStatus(SpecNode(spec), run.launches, run.records))
    && !EffectiveOk(SpecNode(spec), run.plan, run.launches, run.records)
  }

  function TerminalState(run: Run): Verdict {
    if Running in NodeStatuses(run.plan, run).Values then Verdict(Running, false, true)
    else if
      && (exists spec :: spec in run.plan && spec.required)
      && (forall spec :: spec in run.plan && spec.required ==>
                           EffectiveOk(SpecNode(spec), run.plan, run.launches, run.records))
    then Verdict(Passed, true, true)
    else if exists spec :: spec in run.plan && Unrepaired(spec, run) then Verdict(Failed, true, false)
    else Verdict(Running, false, true)
  }

  lemma LaunchedAppend(node: string, launches: seq<Launch>, launch: Launch)
    ensures Launched(node, launches + [launch]) <==> Launched(node, launches) || LaunchNode(launch) == node
  {
    assert launch in launches + [launch];
    forall l | l in launches ensures l in launches + [launch] {}
  }

  // ---------- The loops of the source ----------

  method LaunchReadyNodes(plan: seq<Spec>, launches: seq<Launch>, records: Records, starts: string -> StartOutcome)
    returns (result: seq<Launch>)
    ensures result == LaunchReady(plan, plan, launches, records, starts)
  {
    result := launches;
    var launched := set launch | launch in launches :: LaunchNode(launch);
    var i := 0;
    while i < |plan|
      invariant 0 <= i <= |plan|
      invariant forall node :: node in launched <==> Launched(node, result)
      invariant LaunchReady(plan, plan, launches, records, starts) == LaunchReady(plan[i..], plan, result, records, starts)
    {
      var spec := plan[i];
      var node := SpecNode(spec);
      assert plan[i..][0] == spec && plan[i..][1..] == plan[i + 1..];
      if node !in launched && DependenciesOk(spec, plan, result, records) {
        var launch := LaunchOf(spec, starts(node));
        forall n ensures Launched(n, result + [launch]) <==> Launched(n, result) || n == node {
          LaunchedAppend(n, result, launch);
        }
        result := result + [launch];
        launched := launched + {node};
      }
      i := i + 1;
    }
  }

  method RefreshSupervisor(run: Run, records: Records, starts: string -> StartOutcome)
    returns (refreshed: Run, verdict: Verdict)
    ensures refreshed == Refresh(run, records, starts)
    ensures verdict == TerminalState(refreshed)
  {
    var plan := run.plan;
    var launches := RefreshLaunchStatuses(run.launches, records);
    var i := 0;
    while i < |run.plan|
      invariant 0 <= i <= |run.plan|
      invariant AddRepairs(run.plan, run.plan, launches, records) == AddRepairs(run.plan[i..], plan, launches, records)
    {
      var spec := run.plan[i];
      assert run.plan[i..][0] == spec && run.plan[i..][1..] == run.plan[i + 1..];
      if spec.repairFor == "" && !HasRepairFor(plan, SpecNode(spec)) {
        if spec.required && IsFailure(RawStatus(SpecNode(spec), launches, records)) {
          plan := plan + [RepairSpec(spec)];
        }
      }
      i := i + 1;
    }
    var newLaunches := LaunchReadyNodes(plan, launches, records, starts);
    refreshed := Run(plan, newLaunches, records);
    verdict := TerminalState(refreshed);
  }
}
