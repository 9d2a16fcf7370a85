/**
 What the supervisor shows after every refresh, read off its launches and the records of its sub-agents: which nodes are
 launched, the status table and the verdict.
 */
module SupervisorTable {
  import opened Supervisor
  import opened SupervisorRuns
  import opened SupervisorTheorems

  // ---------- Reading launches and records ----------

  // The node of a spec or of a launch: its id, or its role if it has none.
  ghost predicate Names(nodeId: string, role: string, node: string) {
    if nodeId == "" then role == node else nodeId == node
  }

  ghost predicate IsNode(spec: Spec, node: string) {
    Names(spec.nodeId, spec.role, node)
  }

  ghost predicate LaunchedAs(run: Run, launch: Launch, node: string) {
    launch in run.launches && Names(launch.nodeId, launch.role, node)
  }

  // The sub-agent of the node has this status on record.
  ghost predicate Recorded(run: Run, node: string, status: Status) {
    exists launch :: LaunchedAs(run, launch, node) && launch.ok
                     && launch.subagentId in run.records && run.records[launch.subagentId] == status
  }

  // The sub-agent of the node was started and has no record yet.
  ghost predicate JustStarted(run: Run, node: string) {
    exists launch :: LaunchedAs(run, launch, node) && launch.ok && launch.subagentId !in run.records
  }

  ghost predicate StartRaised(run: Run, node: string) {
    exists launch :: LaunchedAs(run, launch, node) && !launch.ok
  }

  ghost predicate IsLaunched(run: Run, node: string) {
    exists launch :: LaunchedAs(run, launch, node)
  }

  ghost predicate RepairPassed(run: Run, node: string) {
    exists repair, name :: repair in run.plan && repair.repairFor == node && IsNode(repair, name) && Recorded(run, name, Passed)
  }

  // The node passed, itself or through its repair.
  ghost predicate Done(run: Run, node: string) {
    Recorded(run, node, Passed) || RepairPassed(run, node)
  }

  ghost predicate Broken(run: Run, node: string) {
    StartRaised(run, node) || Recorded(run, node, Failed) || Recorded(run, node, Aborted) || Recorded(run, node, Blocked)
  }

  ghost predicate InProgress(run: Run, node: string) {
    JustStarted(run, node) || Recorded(run, node, Running)
  }

  // ---------- The readings of the source are these ----------

  lemma NodeNames(spec: Spec, node: string)
    ensures IsNode(spec, node) <==> SpecNode(spec) == node
  {
  }

  lemma LaunchNames(run: Run, launch: Launch, node: string)
    ensures LaunchedAs(run, launch, node) <==> launch in run.launches && LaunchNode(launch) == node
  {
  }

  // Of the launches of a node there is one, and the status is read from it.
  lemma {:induction false} ReadFrom(node: string, launches: seq<Launch>, records: Records, launch: Launch)
    requires DistinctLaunches(launches) && launch in launches && LaunchNode(launch) == node
    ensures RawStatus(node, launches, records) == LaunchStatus(launch, records)
  {
    if launches[0] == launch {
    } else {
      var k :| 1 <= k < |launches| && launches[k] == launch;
      assert LaunchNode(launches[0]) != LaunchNode(launches[k]);
      assert launches[1..][k - 1] == launch;
      ReadFrom(node, launches[1..], records, launch);
    }
  }

  ghost predicate Readable(run: Run) {
    RecordsOk(run.records) && LaunchesOk(run.launches, run.records) && DistinctLaunches(run.launches)
  }

  lemma RawReads(run: Run, node: string, launch: Launch)
    requires Readable(run) && LaunchedAs(run, launch, node)
    ensures IsLaunched(run, node)
    ensures Raw(node, run) ==
            if !launch.ok then LaunchFailed
            else if launch.subagentId in run.records then run.records[launch.subagentId] else Running
    ensures forall other :: LaunchedAs(run, other, node) ==> other == launch
  {
    ReadFrom(node, run.launches, run.records, launch);
    assert LaunchOk(launch, run.records);
    forall other | LaunchedAs(run, other, node) ensures other == launch {
      var i :| 0 <= i < |run.launches| && run.launches[i] == launch;
      var j :| 0 <= j < |run.launches| && run.launches[j] == other;
      assert i == j;
    }
  }

  lemma RawMeans(run: Run, node: string)
    requires Readable(run)
    ensures IsLaunched(run, node) <==> Launched(node, run.launches)
    ensures IsLaunched(run, node) <==> Raw(node, run) != Pending
    ensures Recorded(run, node, Passed) <==> Raw(node, run) == Passed
    ensures InProgress(run, node) <==> Raw(node, run) == Running
    ensures Broken(run, node) <==> IsFailure(Raw(node, run))
  {
    RawPendingIffNotLaunched(node, run.launches, run.records);
    if Launched(node, run.launches) {
      var launch :| launch in run.launches && LaunchNode(launch) == node;
      LaunchedMeans(run, node, launch);
    }
  }

  lemma LaunchedMeans(run: Run, node: string, launch: Launch)
    requires Readable(run) && LaunchedAs(run, launch, node)
    ensures IsLaunched(run, node) && Raw(node, run) != Pending
    ensures Recorded(run, node, Passed) <==> Raw(node, run) == Passed
    ensures InProgress(run, node) <==> Raw(node, run) == Running
    ensures Broken(run, node) <==> IsFailure(Raw(node, run))
  {
    RawReads(run, node, launch);
    OneLaunch(run, node, launch);
  }

  lemma OneLaunch(run: Run, node: string, launch: Launch)
    requires Readable(run) && LaunchedAs(run, launch, node)
    ensures StartRaised(run, node) <==> !launch.ok
    ensures JustStarted(run, node) <==> launch.ok && launch.subagentId !in run.records
    ensures forall status :: Recorded(run, node, status) <==>
                             launch.ok && launch.subagentId in run.records && run.records[launch.subagentId] == status
    ensures launch.ok && launch.subagentId in run.records ==> IsRecordStatus(run.records[launch.subagentId])
  {
    RawReads(run, node, launch);
  }

  lemma DoneMeans(run: Run, node: string)
    requires Readable(run)
    ensures Done(run, node) <==> EffectiveOk(node, run.plan, run.launches, run.records)
  {
    RawMeans(run, node);
    forall repair | repair in run.plan && repair.repairFor == node
      ensures Raw(SpecNode(repair), run) == Passed <==> exists name :: IsNode(repair, name) && Recorded(run, name, Passed)
    {
      RawMeans(run, SpecNode(repair));
      assert IsNode(repair, SpecNode(repair));
    }
  }

  // ---------- What is launched ----------

  // In every reachable state, the nodes that are launched are just those whose dependencies have all passed, themselves or
  // through a repair.
  lemma LaunchedIffDependenciesDone(plan: seq<Spec>, first: Event, events: seq<Event>, spec: Spec, node: string)
    requires PlanShape(plan) && HistoryOk(first, events)
    requires spec in Execute(plan, first, events).plan && IsNode(spec, node)
    ensures var run := Execute(plan, first, events);
            IsLaunched(run, node) <==> forall dep :: dep in spec.dependsOn ==> Done(run, dep)
  {
    var run := Execute(plan, first, events);
    InvOverRuns(plan, first, events);
    RawMeans(run, node);
    forall dep ensures Done(run, dep) <==> EffectiveOk(dep, run.plan, run.launches, run.records) {
      DoneMeans(run, dep);
    }
    if Launched(node, run.launches) {
      var launch :| launch in run.launches && LaunchNode(launch) == node;
      assert Justified(launch, run);
      var owner :| owner in run.plan && SpecNode(owner) == node && DependenciesOk(owner, run.plan, run.launches, run.records);
      RepairedPlanDistinct(plan, run.plan, run.launches, run.records);
      SameNodeSameSpec(run.plan, owner, spec);
    }
  }

  // ---------- What is repaired ----------

  // A refresh adds the repair of every required original node that broke by what it reads: a node under a name of its own,
  // with the dependencies of the broken one.
  lemma BrokenIsRepaired(plan: seq<Spec>, run: Run, event: Event, spec: Spec, node: string)
    requires PlanShape(plan) && Inv(plan, run) && EventOk(run.records, event)
    requires spec in plan && spec.required && IsNode(spec, node)
    requires Broken(run.(records := event.records), node)
    ensures exists repair ::
              && repair in Refresh(run, event.records, event.starts).plan
              && repair.repairFor == node && repair.nodeId == "repair-" + node && repair.role == "repair-" + spec.role
              && repair.dependsOn == spec.dependsOn && repair.required
  {
    var half := WithRepairs(run, event.records);
    LaunchPhase(plan, run, event);
    LaunchesReadLater(run, event.records);
    RawMeans(run.(records := event.records), node);
    assert Raw(node, half) == RawStatus(node, run.launches, event.records) by {
      RawAfterRepairs(plan, run, event);
    }
    OriginalStays(plan, run, spec);
    RepairsAreFresh(plan, run, event);
    assert spec in half.plan && spec.repairFor == "";
    assert !NeedsRepair(spec, half.plan, half.launches, half.records);
    RepairIsOf(plan, half, spec);
  }

  lemma LaunchesReadLater(run: Run, records: Records)
    requires Readable(run) && RecordsStep(run.records, records)
    ensures Readable(run.(records := records))
  {
    forall launch | launch in run.launches ensures LaunchOk(launch, records) {
      assert LaunchOk(launch, run.records);
    }
  }

  lemma RepairedBy(repair: Spec, original: seq<Spec>, launches: seq<Launch>, records: Records) returns (target: Spec)
    requires IsRepairOf(repair, original, launches, records)
    ensures target in original && repair == RepairSpec(target) && repair.repairFor == SpecNode(target)
  {
    target :| target in original && target.required && repair == RepairSpec(target)
              && IsFailure(RawStatus(SpecNode(target), launches, records));
  }

  // The node that repairs `spec` is made from it.
  lemma RepairIsOf(plan: seq<Spec>, half: Run, spec: Spec)
    requires PlanShape(plan) && RepairsOk(plan, half.plan, half.launches, half.records)
    requires spec in plan && HasRepairFor(half.plan, SpecNode(spec))
    ensures RepairSpec(spec) in half.plan
  {
    var repair :| repair in half.plan && repair.repairFor == SpecNode(spec);
    var k :| 0 <= k < |half.plan| && half.plan[k] == repair;
    assert spec.repairFor == "" && SpecNode(spec) != "";
    forall i | 0 <= i < |plan| ensures half.plan[i].repairFor == "" {
      assert half.plan[i] == plan[i] && plan[i] in plan;
    }
    var target := RepairedBy(half.plan[k], plan, half.launches, half.records);
    SameNodeSameSpec(plan, target, spec);
  }

  // ---------- The status table ----------

  lemma {:induction false} TableEntry(todo: seq<Spec>, run: Run, spec: Spec)
    requires DistinctNodes(todo) && spec in todo
    ensures SpecNode(spec) in NodeStatuses(todo, run) && NodeStatuses(todo, run)[SpecNode(spec)] == NodeStatus(spec, run)
    decreases |todo|
  {
    if spec == todo[|todo| - 1] {
    } else {
      NotLast(todo, spec);
      TableEntry(todo[..|todo| - 1], run, spec);
    }
  }

  lemma NotLast(todo: seq<Spec>, spec: Spec)
    requires DistinctNodes(todo) && spec in todo && spec != todo[|todo| - 1]
    ensures var n := |todo| - 1;
            spec in todo[..n] && DistinctNodes(todo[..n]) && SpecNode(spec) != SpecNode(todo[n])
  {
    var n := |todo| - 1;
    var k :| 0 <= k < n && todo[k] == spec;
    assert todo[..n][k] == spec;
  }

  // What the table shows for a node: that it waits while it is not launched, that it is repaired once its repair has passed,
  // and else the record of its sub-agent; without a record it runs, or its start raised.
  ghost predicate Shows(run: Run, node: string, shown: Status) {
    && (!IsLaunched(run, node) ==> shown == Waiting)
    && (RepairPassed(run, node) ==> shown == Repaired)
    && (!RepairPassed(run, node) ==>
          forall launch :: LaunchedAs(run, launch, node) ==>
            && (!launch.ok ==> shown == LaunchFailed)
            && (launch.ok && launch.subagentId in run.records ==> shown == run.records[launch.subagentId])
            && (launch.ok && launch.subagentId !in run.records ==> shown == Running))
  }

  // Every reachable state: the table has an entry for just the nodes of the plan, and each shows what happened to the node.
  lemma TableOverRuns(plan: seq<Spec>, first: Event, events: seq<Event>, node: string)
    requires PlanShape(plan) && HistoryOk(first, events)
    ensures var run := Execute(plan, first, events);
            var table := NodeStatuses(run.plan, run);
            && (node in table <==> exists spec :: spec in run.plan && IsNode(spec, node))
            && (node in table ==> Shows(run, node, table[node]))
  {
    var run := Execute(plan, first, events);
    var table := NodeStatuses(run.plan, run);
    StatusTable(run.plan, run);
    assert node in table <==> InPlan(node, run.plan);
    if InPlan(node, run.plan) {
      var spec :| spec in run.plan && SpecNode(spec) == node;
      assert IsNode(spec, node);
      InvOverRuns(plan, first, events);
      RepairedPlanDistinct(plan, run.plan, run.launches, run.records);
      TableEntry(run.plan, run, spec);
      ShownStatus(plan, run, spec);
    }
  }

  lemma ShownStatus(plan: seq<Spec>, run: Run, spec: Spec)
    requires PlanShape(plan) && Inv(plan, run) && spec in run.plan
    ensures Shows(run, SpecNode(spec), NodeStatus(spec, run))
  {
    var node := SpecNode(spec);
    NodesAreNamed(plan, run, spec);
    RawMeans(run, node);
    DoneMeans(run, node);
    forall launch | LaunchedAs(run, launch, node)
      ensures Raw(node, run) == if !launch.ok then LaunchFailed
                                else if launch.subagentId in run.records then run.records[launch.subagentId] else Running
    {
      RawReads(run, node, launch);
    }
    if RepairPassed(run, node) {
      var repair, name :| repair in run.plan && repair.repairFor == node && IsNode(repair, name) && Recorded(run, name, Passed);
      var target := RepairTargetFailed(plan, run, repair);
    }
  }

  // ---------- The verdict ----------

  ghost predicate AnyInProgress(run: Run) {
    exists spec, node :: spec in run.plan && IsNode(spec, node) && InProgress(run, node)
  }

  ghost predicate AllDone(run: Run) {
    && (exists spec :: spec in run.plan && spec.required)
    && (forall spec, node :: spec in run.plan && spec.required && IsNode(spec, node) ==> Done(run, node))
  }

  ghost predicate AnyBroken(run: Run) {
    exists spec, node :: spec in run.plan && spec.required && IsNode(spec, node) && Broken(run, node) && !RepairPassed(run, node)
  }

  lemma AnyInProgressMeans(plan: seq<Spec>, run: Run)
    requires Inv(plan, run)
    ensures AnyInProgress(run) <==> AnyRunning(run)
  {
    forall spec | spec in run.plan ensures InProgress(run, SpecNode(spec)) <==> Raw(SpecNode(spec), run) == Running {
      RawMeans(run, SpecNode(spec));
    }
    forall spec | spec in run.plan && Raw(SpecNode(spec), run) == Running ensures AnyInProgress(run) {
      assert IsNode(spec, SpecNode(spec));
    }
  }

  lemma AllDoneMeans(plan: seq<Spec>, run: Run)
    requires Inv(plan, run)
    ensures AllDone(run) <==>
            && (exists spec :: spec in run.plan && spec.required)
            && forall spec :: spec in run.plan && spec.required ==>
                                EffectiveOk(SpecNode(spec), run.plan, run.launches, run.records)
  {
    forall spec | spec in run.plan
      ensures IsNode(spec, SpecNode(spec))
      ensures Done(run, SpecNode(spec)) <==> EffectiveOk(SpecNode(spec), run.plan, run.launches, run.records)
    {
      DoneMeans(run, SpecNode(spec));
    }
  }

  lemma BrokenMeans(plan: seq<Spec>, run: Run, spec: Spec)
    requires PlanShape(plan) && Inv(plan, run) && spec in run.plan
    ensures Unrepaired(spec, run) <==> spec.required && Broken(run, SpecNode(spec)) && !RepairPassed(run, SpecNode(spec))
  {
    RawMeans(run, SpecNode(spec));
    DoneMeans(run, SpecNode(spec));
  }

  lemma AnyBrokenMeans(plan: seq<Spec>, run: Run)
    requires PlanShape(plan) && Inv(plan, run)
    ensures AnyBroken(run) <==> AnyUnrepaired(run)
  {
    forall spec | spec in run.plan
      ensures Unrepaired(spec, run) <==> spec.required && Broken(run, SpecNode(spec)) && !RepairPassed(run, SpecNode(spec))
    {
      BrokenMeans(plan, run, spec);
    }
    forall spec | spec in run.plan && Unrepaired(spec, run) ensures AnyBroken(run) {
      assert IsNode(spec, SpecNode(spec));
    }
  }

  // Every reachable state: RUNNING while a node is in progress; then PASSED if there are required nodes and each has passed,
  // itself or through its repair; then FAILED if a required node broke and no repair of it passed; else RUNNING.
  lemma VerdictOverRuns(plan: seq<Spec>, first: Event, events: seq<Event>)
    requires PlanShape(plan) && HistoryOk(first, events)
    ensures var run := Execute(plan, first, events);
            TerminalState(run) ==
            if AnyInProgress(run) then Verdict(Running, false, true)
            else if AllDone(run) then Verdict(Passed, true, true)
            else if AnyBroken(run) then Verdict(Failed, true, false)
            else Verdict(Running, false, true)
  {
    var run := Execute(plan, first, events);
    InvOverRuns(plan, first, events);
    RunningShows(run);
    AnyInProgressMeans(plan, run);
    AllDoneMeans(plan, run);
    AnyBrokenMeans(plan, run);
  }
}
