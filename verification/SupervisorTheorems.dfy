/**
 The theorems about supervisor runs: safety, bounded work, deadlock freedom with its exact exception,
 and which verdicts are final.
 */
module SupervisorTheorems {
  import opened Supervisor
  import opened SupervisorRuns
  import opened Sequences

  // ---------- Safety ----------

  lemma RepairNamesOriginal(plan: seq<Spec>, repair: Spec, launches: seq<Launch>, records: Records) returns (j: nat)
    requires IsRepairOf(repair, plan, launches, records)
    ensures j < |plan| && SpecNode(plan[j]) == repair.repairFor
  {
    var target :| target in plan && target.required && repair == RepairSpec(target)
                  && IsFailure(RawStatus(SpecNode(target), launches, records));
    j :| 0 <= j < |plan| && plan[j] == target;
  }

  lemma PlanAtMostDoubles(original: seq<Spec>, plan: seq<Spec>, launches: seq<Launch>, records: Records)
    requires RepairsOk(original, plan, launches, records)
    ensures |plan| <= 2 * |original|
  {
    var extra := plan[|original|..];
    var repaired := seq(|extra|, k requires 0 <= k < |extra| => extra[k].repairFor);
    var nodes := seq(|original|, k requires 0 <= k < |original| => SpecNode(original[k]));
    forall k | 0 <= k < |repaired| ensures repaired[k] in nodes {
      var j := RepairNamesOriginal(original, plan[|original| + k], launches, records);
      assert nodes[j] == repaired[k];
    }
    DistinctFitsIn(repaired, nodes);
  }

  lemma LaunchesStayInPlan(plan: seq<Spec>, run: Run)
    requires Inv(plan, run)
    ensures |run.launches| <= |run.plan|
  {
    var launched := seq(|run.launches|, k requires 0 <= k < |run.launches| => LaunchNode(run.launches[k]));
    var known := seq(|run.plan|, k requires 0 <= k < |run.plan| => SpecNode(run.plan[k]));
    forall k | 0 <= k < |launched| ensures launched[k] in known {
      assert run.launches[k] in run.launches && Justified(run.launches[k], run);
      var spec :| spec in run.plan && SpecNode(spec) == launched[k];
      var j :| 0 <= j < |run.plan| && run.plan[j] == spec;
      assert known[j] == launched[k];
    }
    DistinctFitsIn(launched, known);
  }

  // In every reachable state: no node is launched twice, every launched node has all its dependencies passed
  // (itself or through its repair), a node has at most one repair, only required failed nodes of the original
  // plan are repaired, and the plan and the launches stay within twice the original plan.
  lemma SafetyOverRuns(plan: seq<Spec>, first: Event, events: seq<Event>)
    requires PlanShape(plan) && HistoryOk(first, events)
    ensures var run := Execute(plan, first, events);
            && plan <= run.plan
            && DistinctNodes(run.plan)
            && (forall i, j :: 0 <= i < j < |run.launches| ==> LaunchNode(run.launches[i]) != LaunchNode(run.launches[j]))
            && (forall launch :: launch in run.launches ==>
                  exists spec :: spec in run.plan && SpecNode(spec) == LaunchNode(launch) &&
                                 forall dep :: dep in spec.dependsOn ==> EffectiveOk(dep, run.plan, run.launches, run.records))
            && (forall i, j :: 0 <= i < j < |run.plan| && run.plan[i].repairFor != "" ==>
                  run.plan[i].repairFor != run.plan[j].repairFor)
            && (forall spec :: spec in run.plan && spec.repairFor != "" ==>
                  exists target :: target in plan && target.required && SpecNode(target) == spec.repairFor &&
                                   spec.dependsOn == target.dependsOn && IsFailure(Raw(SpecNode(target), run)))
            && |run.launches| <= |run.plan| <= 2 * |plan|
  {
    var run := Execute(plan, first, events);
    InvOverRuns(plan, first, events);
    PlanAtMostDoubles(plan, run.plan, run.launches, run.records);
    LaunchesStayInPlan(plan, run);
    RepairedPlanDistinct(plan, run.plan, run.launches, run.records);
    forall launch | launch in run.launches
      ensures exists spec :: spec in run.plan && SpecNode(spec) == LaunchNode(launch) &&
                             forall dep :: dep in spec.dependsOn ==> EffectiveOk(dep, run.plan, run.launches, run.records)
    {
      assert Justified(launch, run);
      var spec :| spec in run.plan && SpecNode(spec) == LaunchNode(launch) &&
                  DependenciesOk(spec, run.plan, run.launches, run.records);
    }
    OriginalsAreNotRepairs(plan, run);
    forall spec | spec in run.plan && spec.repairFor != ""
      ensures exists target :: target in plan && target.required && SpecNode(target) == spec.repairFor &&
                               spec.dependsOn == target.dependsOn && IsFailure(Raw(SpecNode(target), run))
    {
      var k :| 0 <= k < |run.plan| && run.plan[k] == spec;
      assert k >= |plan| && IsRepairOf(run.plan[k], plan, run.launches, run.records);
    }
  }

  lemma OriginalsAreNotRepairs(plan: seq<Spec>, run: Run)
    requires PlanShape(plan) && Inv(plan, run)
    ensures forall k :: 0 <= k < |run.plan| ==> (run.plan[k].repairFor == "" <==> k < |plan|)
  {
    forall k | 0 <= k < |run.plan| ensures run.plan[k].repairFor == "" <==> k < |plan| {
      if k < |plan| {
        assert run.plan[k] == plan[k] && plan[k] in plan;
      } else {
        RepairNamesTarget(run.plan[k], plan, run.launches, run.records);
      }
    }
  }

  // A refresh only appends: earlier plan nodes and launches keep their place, identity and outcome,
  // and no decided status or passed dependency is ever taken back.
  lemma RefreshOnlyAppends(plan: seq<Spec>, run: Run, event: Event)
    requires PlanShape(plan) && Inv(plan, run) && EventOk(run.records, event)
    ensures var after := Refresh(run, event.records, event.starts);
            && run.plan <= after.plan
            && |run.launches| <= |after.launches|
            && (forall k :: 0 <= k < |run.launches| ==> after.launches[k].(status := run.launches[k].status) == run.launches[k])
            && (forall node :: IsDecided(Raw(node, run)) ==> Raw(node, after) == Raw(node, run))
            && (forall node :: EffectiveOk(node, run.plan, run.launches, run.records) ==>
                                 EffectiveOk(node, after.plan, after.launches, after.records))
  {
    var half := WithRepairs(run, event.records);
    var after := Refresh(run, event.records, event.starts);
    LaunchPhase(plan, run, event);
    assert run.plan <= after.plan by { RepairsAreFresh(plan, run, event); }
    assert half.launches <= after.launches by {
      LaunchLoop(half.plan, half.plan, half.launches, half.records, event.starts);
    }
    forall k | 0 <= k < |run.launches| ensures after.launches[k].(status := run.launches[k].status) == run.launches[k] {
      assert after.launches[k] == half.launches[k];
    }
    forall node | IsDecided(Raw(node, run)) ensures Raw(node, after) == Raw(node, run) {
      DecidedAfterRefresh(plan, run, event, node);
    }
    forall node | EffectiveOk(node, run.plan, run.launches, run.records)
      ensures EffectiveOk(node, after.plan, after.launches, after.records)
    {
      EffectiveOkAfterRefresh(plan, run, event, node);
    }
  }

  lemma DecidedAfterRefresh(plan: seq<Spec>, run: Run, event: Event, node: string)
    requires PlanShape(plan) && Inv(plan, run) && EventOk(run.records, event) && IsDecided(Raw(node, run))
    ensures Raw(node, Refresh(run, event.records, event.starts)) == Raw(node, run)
  {
    var half := WithRepairs(run, event.records);
    LaunchPhase(plan, run, event);
    assert Raw(node, half) == Raw(node, run) by { RawAfterRepairs(plan, run, event); }
    RawPendingIffNotLaunched(node, half.launches, half.records);
    LaunchLoop(half.plan, half.plan, half.launches, half.records, event.starts);
  }

  // ---------- Deadlock freedom ----------

  predicate AnyRunning(run: Run) {
    exists spec :: spec in run.plan && Raw(SpecNode(spec), run) == Running
  }

  // Neither finished nor able to make progress by itself.
  predicate Stalled(run: Run) {
    !TerminalState(run).terminal && !AnyRunning(run)
  }

  lemma RunningIsRaw(spec: Spec, run: Run)
    ensures NodeStatus(spec, run) == Running <==> Raw(SpecNode(spec), run) == Running
  {
  }

  // The status table has one entry per node of the plan, and shows RUNNING for just the nodes that run.
  lemma {:induction false} StatusTable(todo: seq<Spec>, run: Run)
    ensures forall node :: node in NodeStatuses(todo, run) <==> InPlan(node, todo)
    ensures forall node :: node in NodeStatuses(todo, run) ==>
                             (NodeStatuses(todo, run)[node] == Running <==> Raw(node, run) == Running)
    decreases |todo|
  {
    if todo == [] {
    } else {
      var n := |todo| - 1;
      var last := todo[n];
      var rest := todo[..n];
      StatusTable(rest, run);
      RunningIsRaw(last, run);
      assert todo == rest + [last];
      forall node ensures InPlan(node, todo) <==> InPlan(node, rest) || SpecNode(last) == node {
        forall spec ensures spec in todo <==> spec in rest || spec == last {}
      }
      assert NodeStatuses(todo, run) == NodeStatuses(rest, run)[SpecNode(last) := NodeStatus(last, run)];
    }
  }

  lemma RunningShows(run: Run)
    ensures Running in NodeStatuses(run.plan, run).Values <==> AnyRunning(run)
  {
    var table := NodeStatuses(run.plan, run);
    StatusTable(run.plan, run);
    if Running in table.Values {
      var node :| node in table && table[node] == Running;
      assert InPlan(node, run.plan);
    }
    if AnyRunning(run) {
      var spec :| spec in run.plan && Raw(SpecNode(spec), run) == Running;
      assert InPlan(SpecNode(spec), run.plan);
      assert table[SpecNode(spec)] == Running;
    }
  }

  predicate AnyUnrepaired(run: Run) {
    exists spec :: spec in run.plan && Unrepaired(spec, run)
  }

  // A node that waits for a status the supervisor has no rule for.
  predicate Stuck(node: string, run: Run) {
    Raw(node, run) == Lost || Raw(node, run) == Queued
  }

  predicate AnyStuck(plan: seq<Spec>, run: Run) {
    exists original :: original in plan && Stuck(SpecNode(original), run)
  }

  lemma RepairIsUnique(plan: seq<Spec>, run: Run, a: Spec, b: Spec)
    requires PlanShape(plan) && Inv(plan, run)
    requires a in run.plan && b in run.plan && a.repairFor == b.repairFor != ""
    ensures a == b
  {
    OriginalsAreNotRepairs(plan, run);
    var i :| 0 <= i < |run.plan| && run.plan[i] == a;
    var j :| 0 <= j < |run.plan| && run.plan[j] == b;
    if i < j { assert run.plan[i].repairFor != run.plan[j].repairFor; }
    if j < i { assert run.plan[j].repairFor != run.plan[i].repairFor; }
  }

  lemma OriginalStays(plan: seq<Spec>, run: Run, spec: Spec)
    requires Inv(plan, run) && spec in plan
    ensures spec in run.plan
  {
    var k :| 0 <= k < |plan| && plan[k] == spec;
    assert run.plan[k] == spec;
  }

  lemma WaitsForDependency(plan: seq<Spec>, run: Run, spec: Spec) returns (dep: string)
    requires Inv(plan, run) && spec in plan && Raw(SpecNode(spec), run) == Pending
    ensures dep in spec.dependsOn && !EffectiveOk(dep, run.plan, run.launches, run.records)
  {
    OriginalStays(plan, run, spec);
    RawPendingIffNotLaunched(SpecNode(spec), run.launches, run.records);
    assert !DependenciesOk(spec, run.plan, run.launches, run.records);
    dep :| dep in spec.dependsOn && !EffectiveOk(dep, run.plan, run.launches, run.records);
  }

  lemma UnpassedWaitsOrIsStuck(plan: seq<Spec>, run: Run, spec: Spec)
    requires AllRequired(plan) && Inv(plan, run) && !AnyRunning(run) && !AnyUnrepaired(run)
    requires spec in plan && !EffectiveOk(SpecNode(spec), run.plan, run.launches, run.records)
    ensures Raw(SpecNode(spec), run) == Pending || Stuck(SpecNode(spec), run)
  {
    OriginalStays(plan, run, spec);
    RawPendingIffNotLaunched(SpecNode(spec), run.launches, run.records);
    assert !Unrepaired(spec, run);
  }

  // A node that has not passed leads, down its dependencies, to a node that is stuck.
  lemma {:induction false} BlamesStuckNode(plan: seq<Spec>, rank: string -> nat, run: Run, spec: Spec)
    requires AllRequired(plan) && Acyclic(plan, rank) && Inv(plan, run)
    requires !AnyRunning(run) && !AnyUnrepaired(run)
    requires spec in plan && !EffectiveOk(SpecNode(spec), run.plan, run.launches, run.records)
    ensures AnyStuck(plan, run)
    decreases rank(SpecNode(spec))
  {
    UnpassedWaitsOrIsStuck(plan, run, spec);
    if Raw(SpecNode(spec), run) != Pending {
    } else {
      var dep := WaitsForDependency(plan, run, spec);
      assert InPlan(dep, plan) && rank(dep) < rank(SpecNode(spec));
      var below :| below in plan && SpecNode(below) == dep;
      BlamesStuckNode(plan, rank, run, below);
    }
  }

  lemma RepairTargetFailed(plan: seq<Spec>, run: Run, repair: Spec) returns (target: Spec)
    requires PlanShape(plan) && Inv(plan, run) && repair in run.plan && repair.repairFor != ""
    ensures target in plan && target.required && repair == RepairSpec(target) && IsFailure(Raw(SpecNode(target), run))
  {
    OriginalsAreNotRepairs(plan, run);
    var k :| 0 <= k < |run.plan| && run.plan[k] == repair;
    assert IsRepairOf(run.plan[k], plan, run.launches, run.records);
    target :| target in plan && target.required && repair == RepairSpec(target) && IsFailure(Raw(SpecNode(target), run));
  }

  lemma UnpassedRepairBlamesTarget(plan: seq<Spec>, run: Run, repair: Spec)
    requires PlanShape(plan) && Inv(plan, run)
    requires repair in run.plan && repair.repairFor != ""
    requires !EffectiveOk(SpecNode(repair), run.plan, run.launches, run.records)
    ensures AnyUnrepaired(run)
  {
    var target := RepairTargetFailed(plan, run, repair);
    OriginalStays(plan, run, target);
    forall other | other in run.plan && other.repairFor == SpecNode(target) ensures other == repair {
      RepairIsUnique(plan, run, repair, other);
    }
    assert Unrepaired(target, run);
  }

  lemma StuckIsNotPassed(plan: seq<Spec>, run: Run, spec: Spec)
    requires PlanShape(plan) && Inv(plan, run)
    requires spec in plan && Stuck(SpecNode(spec), run)
    ensures !EffectiveOk(SpecNode(spec), run.plan, run.launches, run.records)
  {
    forall repair | repair in run.plan && repair.repairFor != "" ensures IsFailure(Raw(repair.repairFor, run)) {
      var target := RepairTargetFailed(plan, run, repair);
    }
  }

  lemma UnpassedBlamesStuck(plan: seq<Spec>, rank: string -> nat, run: Run, spec: Spec)
    requires PlanShape(plan) && AllRequired(plan) && Acyclic(plan, rank) && Inv(plan, run)
    requires !AnyRunning(run) && !AnyUnrepaired(run)
    requires spec in run.plan && !EffectiveOk(SpecNode(spec), run.plan, run.launches, run.records)
    ensures AnyStuck(plan, run)
  {
    OriginalsAreNotRepairs(plan, run);
    if spec.repairFor != "" {
      UnpassedRepairBlamesTarget(plan, run, spec);
    } else {
      var k :| 0 <= k < |run.plan| && run.plan[k] == spec;
      assert spec == plan[k];
      BlamesStuckNode(plan, rank, run, spec);
    }
  }

  lemma StuckRunIsStalled(plan: seq<Spec>, run: Run)
    requires PlanShape(plan) && AllRequired(plan) && Inv(plan, run)
    requires !AnyRunning(run) && !AnyUnrepaired(run) && AnyStuck(plan, run)
    ensures Stalled(run)
  {
    RunningShows(run);
    var original :| original in plan && Stuck(SpecNode(original), run);
    OriginalStays(plan, run, original);
    StuckIsNotPassed(plan, run, original);
  }

  // Deadlock freedom, exactly: a run of a plan of required nodes with acyclic dependencies is stalled if and only if
  // nothing runs, nothing has failed for good, and some original node is LOST or QUEUED (or there is no node at all).
  lemma StalledIff(plan: seq<Spec>, rank: string -> nat, first: Event, events: seq<Event>)
    requires PlanShape(plan) && AllRequired(plan) && Acyclic(plan, rank)
    requires HistoryOk(first, events)
    ensures var run := Execute(plan, first, events);
            Stalled(run) <==> !AnyRunning(run) && !AnyUnrepaired(run) && (plan == [] || AnyStuck(plan, run))
  {
    var run := Execute(plan, first, events);
    InvOverRuns(plan, first, events);
    RunningShows(run);
    if plan == [] {
      PlanAtMostDoubles(plan, run.plan, run.launches, run.records);
    } else if Stalled(run) {
      assert plan[0] in plan;
      OriginalStays(plan, run, plan[0]);
      var spec :| spec in run.plan && spec.required && !EffectiveOk(SpecNode(spec), run.plan, run.launches, run.records);
      UnpassedBlamesStuck(plan, rank, run, spec);
    } else if !AnyRunning(run) && !AnyUnrepaired(run) && AnyStuck(plan, run) {
      StuckRunIsStalled(plan, run);
    }
  }

  // ---------- Final verdicts ----------

  predicate AnyNeedsRepair(run: Run) {
    exists spec :: spec in run.plan && NeedsRepair(spec, run.plan, run.launches, run.records)
  }

  // Nothing is in progress and nothing is left to repair.
  predicate Quiet(run: Run) {
    && (forall spec :: spec in run.plan ==> Raw(SpecNode(spec), run) != Running && Raw(SpecNode(spec), run) != Queued)
    && !AnyNeedsRepair(run)
  }

  lemma QuietStatusesStay(plan: seq<Spec>, run: Run, event: Event, node: string)
    requires PlanShape(plan) && Inv(plan, run) && Quiet(run) && EventOk(run.records, event)
    ensures RawStatus(node, RefreshLaunchStatuses(run.launches, event.records), event.records) == Raw(node, run)
  {
    RawAfterRepairs(plan, run, event);
    assert Raw(node, WithRepairs(run, event.records)) ==
           RawStatus(node, RefreshLaunchStatuses(run.launches, event.records), event.records);
    assert Launched(node, WithRepairs(run, event.records).launches) <==> Launched(node, run.launches);
    LaunchesOkAfterStatusRefresh(run.launches, run.records, event.records);
    RawPendingIffNotLaunched(node, run.launches, run.records);
    RawPendingIffNotLaunched(node, RefreshLaunchStatuses(run.launches, event.records), event.records);
    if Launched(node, run.launches) {
      var launch :| launch in run.launches && LaunchNode(launch) == node;
      assert Justified(launch, run);
    }
  }

  lemma {:induction false} NothingToLaunch(todo: seq<Spec>, plan: seq<Spec>, launches: seq<Launch>, records: Records,
                                           starts: string -> StartOutcome)
    requires forall spec :: spec in todo ==> Launched(SpecNode(spec), launches) || !DependenciesOk(spec, plan, launches, records)
    ensures LaunchReady(todo, plan, launches, records, starts) == launches
    decreases |todo|
  {
    if todo == [] {
    } else {
      assert todo[0] in todo;
      NothingToLaunch(todo[1..], plan, launches, records, starts);
    }
  }

  lemma SameStatusesSameVerdict(run: Run, after: Run)
    requires after.plan == run.plan
    requires forall node :: Raw(node, after) == Raw(node, run)
    ensures forall node :: EffectiveOk(node, after.plan, after.launches, after.records) <==>
                           EffectiveOk(node, run.plan, run.launches, run.records)
    ensures TerminalState(after) == TerminalState(run)
  {
    RunningShows(run);
    RunningShows(after);
    forall node ensures EffectiveOk(node, after.plan, after.launches, after.records) <==>
                        EffectiveOk(node, run.plan, run.launches, run.records)
    {
      assert Raw(node, after) == Raw(node, run);
      forall spec | spec in run.plan ensures Raw(SpecNode(spec), after) == Raw(SpecNode(spec), run) {}
    }
    forall spec | spec in run.plan ensures Unrepaired(spec, after) <==> Unrepaired(spec, run) {
      assert Raw(SpecNode(spec), after) == Raw(SpecNode(spec), run);
    }
    assert AnyRunning(after) <==> AnyRunning(run);
  }

  // The run with only its statuses read again.
  ghost function Reread(run: Run, records: Records): Run {
    Run(run.plan, RefreshLaunchStatuses(run.launches, records), records)
  }

  lemma RereadIsSame(plan: seq<Spec>, run: Run, event: Event)
    requires PlanShape(plan) && Inv(plan, run) && Quiet(run) && EventOk(run.records, event)
    ensures var reread := Reread(run, event.records);
            && (forall node :: Raw(node, reread) == Raw(node, run))
            && (forall node :: EffectiveOk(node, reread.plan, reread.launches, reread.records) <==>
                               EffectiveOk(node, run.plan, run.launches, run.records))
            && TerminalState(reread) == TerminalState(run)
            && Quiet(reread)
  {
    var reread := Reread(run, event.records);
    forall node ensures Raw(node, reread) == Raw(node, run) {
      QuietStatusesStay(plan, run, event, node);
    }
    SameStatusesSameVerdict(run, reread);
    SameStatusesStayQuiet(run, reread);
  }

  lemma SameStatusesStayQuiet(run: Run, after: Run)
    requires after.plan == run.plan && Quiet(run)
    requires forall node :: Raw(node, after) == Raw(node, run)
    ensures Quiet(after)
  {
    forall spec | spec in run.plan
      ensures !NeedsRepair(spec, run.plan, after.launches, after.records)
      ensures Raw(SpecNode(spec), after) != Running && Raw(SpecNode(spec), after) != Queued
    {
      assert Raw(SpecNode(spec), after) == Raw(SpecNode(spec), run);
      assert !NeedsRepair(spec, run.plan, run.launches, run.records);
    }
  }

  lemma QuietLaunchesNothing(plan: seq<Spec>, run: Run, event: Event, spec: Spec)
    requires PlanShape(plan) && Inv(plan, run) && Quiet(run) && EventOk(run.records, event) && spec in run.plan
    ensures var reread := Reread(run, event.records);
            Launched(SpecNode(spec), reread.launches) || !DependenciesOk(spec, reread.plan, reread.launches, reread.records)
  {
    var reread := Reread(run, event.records);
    LaunchesOkAfterStatusRefresh(run.launches, run.records, event.records);
    if !Launched(SpecNode(spec), run.launches) {
      assert !DependenciesOk(spec, run.plan, run.launches, run.records);
      var dep :| dep in spec.dependsOn && !EffectiveOk(dep, run.plan, run.launches, run.records);
      RereadIsSame(plan, run, event);
      assert !EffectiveOk(dep, reread.plan, reread.launches, reread.records);
    }
  }

  // A quiet run is a fixpoint: whatever a later refresh reads, it launches nothing, repairs nothing and repeats the verdict.
  lemma QuietIsFixpoint(plan: seq<Spec>, run: Run, event: Event)
    requires PlanShape(plan) && Inv(plan, run) && Quiet(run) && EventOk(run.records, event)
    ensures var after := Refresh(run, event.records, event.starts);
            && after == Reread(run, event.records)
            && TerminalState(after) == TerminalState(run)
            && Quiet(after)
  {
    var reread := Reread(run, event.records);
    RereadIsSame(plan, run, event);
    AddRepairsNothing(run.plan, run.plan, reread.launches, event.records);
    forall spec | spec in run.plan
      ensures Launched(SpecNode(spec), reread.launches) || !DependenciesOk(spec, run.plan, reread.launches, event.records)
    {
      QuietLaunchesNothing(plan, run, event, spec);
    }
    NothingToLaunch(run.plan, run.plan, reread.launches, event.records, event.starts);
  }

  // Every later refresh, whatever it reads and launches, finds the run PASSED.
  ghost predicate PassedForGood(run: Run) {
    forall events :: EventsOk(run.records, events) ==> TerminalState(RunFrom(run, events)) == Verdict(Passed, true, true)
  }

  predicate AnyQueued(run: Run) {
    exists spec :: spec in run.plan && Raw(SpecNode(spec), run) == Queued
  }

  // A PASSED verdict is final exactly when no node is queued; only a node that is not required can be.
  lemma PassedIsFinalIff(plan: seq<Spec>, run: Run)
    requires PlanShape(plan) && Inv(plan, run)
    requires TerminalState(run) == Verdict(Passed, true, true)
    ensures PassedForGood(run) <==> !AnyQueued(run)
  {
    if AnyQueued(run) {
      var spec :| spec in run.plan && Raw(SpecNode(spec), run) == Queued;
      QueuedMayRun(plan, run, spec);
    } else {
      PassedIsQuiet(plan, run);
      forall events | EventsOk(run.records, events) ensures TerminalState(RunFrom(run, events)) == Verdict(Passed, true, true) {
        QuietForGood(plan, run, events);
      }
    }
  }

  lemma PassedIsQuiet(plan: seq<Spec>, run: Run)
    requires PlanShape(plan) && Inv(plan, run)
    requires TerminalState(run) == Verdict(Passed, true, true) && !AnyQueued(run)
    ensures Quiet(run)
  {
    RunningShows(run);
    forall spec | spec in run.plan ensures !NeedsRepair(spec, run.plan, run.launches, run.records) {
      if spec.required {
        PassedNodeIsQuiet(plan, run, spec);
      }
    }
  }

  // In a plan of required nodes PASSED is always final, and a refresh then only reads statuses again.
  lemma PassedIsFinal(plan: seq<Spec>, run: Run, event: Event)
    requires PlanShape(plan) && AllRequired(plan) && Inv(plan, run) && EventOk(run.records, event)
    requires TerminalState(run) == Verdict(Passed, true, true)
    ensures PassedForGood(run)
    ensures var after := Refresh(run, event.records, event.starts);
            && after.plan == run.plan
            && after.launches == RefreshLaunchStatuses(run.launches, event.records)
  {
    forall spec | spec in run.plan ensures Raw(SpecNode(spec), run) != Queued {
      RequiredThroughout(plan, run, spec);
      PassedNodeIsQuiet(plan, run, spec);
    }
    PassedIsFinalIff(plan, run);
    PassedIsQuiet(plan, run);
    QuietIsFixpoint(plan, run, event);
  }

  lemma RequiredThroughout(plan: seq<Spec>, run: Run, spec: Spec)
    requires PlanShape(plan) && AllRequired(plan) && Inv(plan, run) && spec in run.plan
    ensures spec.required
  {
    var k :| 0 <= k < |run.plan| && run.plan[k] == spec;
    if k < |plan| {
      assert spec == plan[k] && plan[k] in plan;
    } else {
      RepairNamesTarget(run.plan[k], plan, run.launches, run.records);
    }
  }

  lemma NodesAreNamed(plan: seq<Spec>, run: Run, spec: Spec)
    requires PlanShape(plan) && Inv(plan, run) && spec in run.plan
    ensures SpecNode(spec) != ""
  {
    var k :| 0 <= k < |run.plan| && run.plan[k] == spec;
    if k < |plan| {
      assert spec == plan[k] && plan[k] in plan;
    } else {
      RepairNamesTarget(run.plan[k], plan, run.launches, run.records);
    }
  }

  lemma PassedNodeIsQuiet(plan: seq<Spec>, run: Run, spec: Spec)
    requires PlanShape(plan) && Inv(plan, run) && spec in run.plan
    requires EffectiveOk(SpecNode(spec), run.plan, run.launches, run.records)
    ensures Raw(SpecNode(spec), run) != Queued && !NeedsRepair(spec, run.plan, run.launches, run.records)
  {
    NodesAreNamed(plan, run, spec);
    if Raw(SpecNode(spec), run) != Passed {
      var repair :| repair in run.plan && repair.repairFor == SpecNode(spec) && Raw(SpecNode(repair), run) == Passed;
      assert HasRepairFor(run.plan, SpecNode(spec));
      var target := RepairTargetFailed(plan, run, repair);
      assert IsFailure(Raw(SpecNode(spec), run));
    }
  }

  // Every later refresh, whatever it reads and launches, finds the run FAILED.
  ghost predicate FailedForGood(run: Run) {
    forall events :: EventsOk(run.records, events) ==> TerminalState(RunFrom(run, events)) == Verdict(Failed, true, false)
  }

  // Every later refresh finds the run stalled.
  ghost predicate StalledForGood(run: Run) {
    forall events :: EventsOk(run.records, events) ==> Stalled(RunFrom(run, events))
  }

  lemma {:induction false} QuietForGood(plan: seq<Spec>, run: Run, events: seq<Event>)
    requires PlanShape(plan) && Inv(plan, run) && Quiet(run) && EventsOk(run.records, events)
    ensures Quiet(RunFrom(run, events)) && RunFrom(run, events).plan == run.plan
    ensures TerminalState(RunFrom(run, events)) == TerminalState(run)
    decreases |events|
  {
    if events == [] {
    } else {
      var n := |events| - 1;
      QuietForGood(plan, run, events[..n]);
      InvFrom(plan, run, events[..n]);
      QuietIsFixpoint(plan, RunFrom(run, events[..n]), events[n]);
    }
  }

  lemma OneEvent(run: Run, event: Event)
    requires EventOk(run.records, event)
    ensures EventsOk(run.records, [event]) && RunFrom(run, [event]) == Refresh(run, event.records, event.starts)
  {
    assert [event][..0] == [];
    assert RunFrom(run, [event][..0]) == run;
  }

  lemma RunningNextIsNotForGood(run: Run, event: Event)
    requires EventOk(run.records, event) && AnyRunning(Refresh(run, event.records, event.starts))
    ensures !FailedForGood(run) && !StalledForGood(run) && !PassedForGood(run)
  {
    OneEvent(run, event);
    RunningShows(RunFrom(run, [event]));
    assert TerminalState(RunFrom(run, [event])) == Verdict(Running, false, true);
  }

  // A FAILED verdict is final exactly when the run is quiet: nothing is queued, and no failed node is still without its repair.
  lemma FailedIsFinalIff(plan: seq<Spec>, run: Run)
    requires PlanShape(plan) && Inv(plan, run)
    requires TerminalState(run) == Verdict(Failed, true, false)
    ensures FailedForGood(run) <==> Quiet(run)
  {
    if Quiet(run) {
      QuietFailureIsFinal(plan, run);
    } else {
      RunningShows(run);
      OpenFailureIsNotFinal(plan, run);
    }
  }

  lemma QuietFailureIsFinal(plan: seq<Spec>, run: Run)
    requires PlanShape(plan) && Inv(plan, run) && Quiet(run)
    requires TerminalState(run) == Verdict(Failed, true, false)
    ensures FailedForGood(run)
  {
    forall events | EventsOk(run.records, events) ensures TerminalState(RunFrom(run, events)) == Verdict(Failed, true, false) {
      QuietForGood(plan, run, events);
    }
  }

  lemma OpenFailureIsNotFinal(plan: seq<Spec>, run: Run)
    requires PlanShape(plan) && Inv(plan, run) && !Quiet(run) && !AnyRunning(run)
    ensures !FailedForGood(run)
  {
    if spec :| spec in run.plan && Raw(SpecNode(spec), run) == Queued {
      QueuedMayRun(plan, run, spec);
    } else {
      var spec :| spec in run.plan && NeedsRepair(spec, run.plan, run.launches, run.records);
      RepairMayStart(plan, run, spec);
    }
  }

  // A queued node may be running at the next refresh.
  lemma QueuedMayRun(plan: seq<Spec>, run: Run, spec: Spec)
    requires PlanShape(plan) && Inv(plan, run) && spec in run.plan && Raw(SpecNode(spec), run) == Queued
    ensures !FailedForGood(run) && !StalledForGood(run) && !PassedForGood(run)
  {
    var id := QueuedRecord(SpecNode(spec), run.launches, run.records);
    var event := Event(run.records[id := Running], node => Raised);
    assert EventOk(run.records, event);
    RunsAfterRefresh(plan, run, event, spec);
    RunningNextIsNotForGood(run, event);
  }

  // The record a queued status is read from.
  lemma {:induction false} QueuedRecord(node: string, launches: seq<Launch>, records: Records) returns (id: string)
    requires RecordsOk(records) && LaunchesOk(launches, records) && RawStatus(node, launches, records) == Queued
    ensures id in records && records[id] == Queued
    ensures RawStatus(node, launches, records[id := Running]) == Running
  {
    assert launches[0] in launches && LaunchOk(launches[0], records);
    if LaunchNode(launches[0]) == node {
      id := launches[0].subagentId;
    } else {
      id := QueuedRecord(node, launches[1..], records);
    }
  }

  lemma RunsAfterRefresh(plan: seq<Spec>, run: Run, event: Event, spec: Spec)
    requires PlanShape(plan) && Inv(plan, run) && EventOk(run.records, event)
    requires spec in run.plan && RawStatus(SpecNode(spec), run.launches, event.records) == Running
    ensures AnyRunning(Refresh(run, event.records, event.starts))
  {
    var half := WithRepairs(run, event.records);
    var after := Refresh(run, event.records, event.starts);
    LaunchPhase(plan, run, event);
    assert Raw(SpecNode(spec), half) == Running by { RawAfterRepairs(plan, run, event); }
    RawPendingIffNotLaunched(SpecNode(spec), half.launches, half.records);
    assert Raw(SpecNode(spec), after) == Running by {
      LaunchLoop(half.plan, half.plan, half.launches, half.records, event.starts);
    }
    assert spec in after.plan by { RepairsAreFresh(plan, run, event); }
  }

  // The repair that a failed node lacks may be started at the next refresh.
  lemma RepairMayStart(plan: seq<Spec>, run: Run, spec: Spec)
    requires PlanShape(plan) && Inv(plan, run)
    requires spec in run.plan && NeedsRepair(spec, run.plan, run.launches, run.records)
    ensures !FailedForGood(run)
  {
    var id := FreshId(run.records.Keys);
    var event := Event(run.records, node => Started(id, Running));
    assert EventOk(run.records, event);
    var repair := RepairIsLaunched(plan, run, event, spec);
    StartedRuns(plan, run, event, SpecNode(repair), id);
    RunningNextIsNotForGood(run, event);
  }

  lemma RepairIsAdded(plan: seq<Spec>, run: Run, event: Event, spec: Spec) returns (repair: Spec, target: Spec)
    requires PlanShape(plan) && Inv(plan, run) && EventOk(run.records, event)
    requires spec in run.plan && NeedsRepair(spec, run.plan, run.launches, run.records)
    ensures var after := Refresh(run, event.records, event.starts);
            && Inv(plan, after) && DistinctNodes(after.plan)
            && repair in after.plan && repair !in run.plan
            && target in after.plan && repair == RepairSpec(target) && IsFailure(Raw(SpecNode(target), after))
  {
    var after := Refresh(run, event.records, event.starts);
    var half := WithRepairs(run, event.records);
    InvAfterRefresh(plan, run, event);
    RepairedPlanDistinct(plan, after.plan, after.launches, after.records);
    assert IsFailure(Raw(SpecNode(spec), half)) by { RawAfterRepairs(plan, run, event); }
    RepairsAreFresh(plan, run, event);
    assert spec in half.plan && HasRepairFor(half.plan, SpecNode(spec));
    repair :| repair in half.plan && repair.repairFor == SpecNode(spec);
    NodesAreNamed(plan, run, spec);
    target := RepairTargetFailed(plan, after, repair);
    OriginalStays(plan, after, target);
  }

  // A repair that a refresh adds is launched by it, as the dependencies of its target have passed already.
  lemma RepairIsLaunched(plan: seq<Spec>, run: Run, event: Event, spec: Spec) returns (repair: Spec)
    requires PlanShape(plan) && Inv(plan, run) && EventOk(run.records, event)
    requires spec in run.plan && NeedsRepair(spec, run.plan, run.launches, run.records)
    ensures var after := Refresh(run, event.records, event.starts);
            repair in after.plan && Launched(SpecNode(repair), after.launches) && !Launched(SpecNode(repair), run.launches)
  {
    var after := Refresh(run, event.records, event.starts);
    var target;
    repair, target := RepairIsAdded(plan, run, event, spec);
    FailedHadItsDependencies(plan, after, target);
    assert DependenciesOk(repair, after.plan, after.launches, after.records);
    assert run.plan <= after.plan by { RefreshOnlyAppends(plan, run, event); }
    NewNodeIsNotLaunched(plan, run, after.plan, repair);
  }

  lemma FailedHadItsDependencies(plan: seq<Spec>, run: Run, target: Spec)
    requires Inv(plan, run) && DistinctNodes(run.plan) && target in run.plan && IsFailure(Raw(SpecNode(target), run))
    ensures DependenciesOk(target, run.plan, run.launches, run.records)
  {
    RawPendingIffNotLaunched(SpecNode(target), run.launches, run.records);
    var launch :| launch in run.launches && LaunchNode(launch) == SpecNode(target);
    assert Justified(launch, run);
    var same :| same in run.plan && SpecNode(same) == SpecNode(target) &&
                DependenciesOk(same, run.plan, run.launches, run.records);
    SameNodeSameSpec(run.plan, same, target);
  }

  lemma NewNodeIsNotLaunched(plan: seq<Spec>, run: Run, longer: seq<Spec>, added: Spec)
    requires Inv(plan, run) && run.plan <= longer && DistinctNodes(longer) && added in longer && added !in run.plan
    ensures !Launched(SpecNode(added), run.launches)
  {
    forall launch | launch in run.launches ensures LaunchNode(launch) != SpecNode(added) {
      assert Justified(launch, run);
      var other :| other in run.plan && SpecNode(other) == LaunchNode(launch);
      assert other in longer && other != added;
      if SpecNode(other) == SpecNode(added) {
        SameNodeSameSpec(longer, other, added);
      }
    }
  }

  lemma SameNodeSameSpec(plan: seq<Spec>, a: Spec, b: Spec)
    requires DistinctNodes(plan) && a in plan && b in plan && SpecNode(a) == SpecNode(b)
    ensures a == b
  {
    var i :| 0 <= i < |plan| && plan[i] == a;
    var j :| 0 <= j < |plan| && plan[j] == b;
    assert i == j;
  }

  // When every launch attempt starts a new sub-agent, the nodes launched by a refresh run after it.
  lemma StartedRuns(plan: seq<Spec>, run: Run, event: Event, node: string, id: string)
    requires PlanShape(plan) && Inv(plan, run) && EventOk(run.records, event)
    requires id !in event.records && forall n :: event.starts(n) == Started(id, Running)
    requires !Launched(node, run.launches) && Launched(node, Refresh(run, event.records, event.starts).launches)
    ensures Raw(node, Refresh(run, event.records, event.starts)) == Running
  {
    var half := WithRepairs(run, event.records);
    var after := Refresh(run, event.records, event.starts);
    LaunchPhase(plan, run, event);
    LaunchesOkAfterStatusRefresh(run.launches, run.records, event.records);
    StartedLaunches(half.plan, half.plan, half.launches, half.records, event.starts, id);
    var k := LaunchRead(node, after.launches, after.records);
    forall j | 0 <= j < |half.launches| ensures LaunchNode(after.launches[j]) != node {
      assert half.launches[j] in half.launches && half.launches[j] == after.launches[j];
    }
  }

  lemma {:induction false} StartedLaunches(todo: seq<Spec>, plan: seq<Spec>, launches: seq<Launch>, records: Records,
                                           starts: string -> StartOutcome, id: string)
    requires forall node :: starts(node) == Started(id, Running)
    ensures var after := LaunchReady(todo, plan, launches, records, starts);
            && launches <= after
            && forall k :: |launches| <= k < |after| ==> after[k].ok && after[k].subagentId == id && after[k].status == Running
    decreases |todo|
  {
    if todo == [] {
    } else if Launched(SpecNode(todo[0]), launches) || !DependenciesOk(todo[0], plan, launches, records) {
      StartedLaunches(todo[1..], plan, launches, records, starts, id);
    } else {
      StartedLaunches(todo[1..], plan, launches + [LaunchOf(todo[0], starts(SpecNode(todo[0])))], records, starts, id);
    }
  }

  // The launch that a node's status is read from.
  lemma {:induction false} LaunchRead(node: string, launches: seq<Launch>, records: Records) returns (k: nat)
    requires Launched(node, launches)
    ensures k < |launches| && LaunchNode(launches[k]) == node
    ensures RawStatus(node, launches, records) == LaunchStatus(launches[k], records)
  {
    if LaunchNode(launches[0]) == node {
      k := 0;
    } else {
      var launch :| launch in launches && LaunchNode(launch) == node;
      assert launch in launches[1..];
      k := LaunchRead(node, launches[1..], records);
      k := k + 1;
    }
  }

  lemma {:induction false} FreshId(ids: set<string>) returns (id: string)
    ensures id != "" && id !in ids
    ensures forall other :: other in ids ==> |other| < |id|
    decreases |ids|
  {
    if ids == {} {
      id := "x";
    } else {
      var one :| one in ids;
      var rest := FreshId(ids - {one});
      id := rest + one + "x";
      forall other | other in ids ensures |other| < |id| {
        assert other == one || other in ids - {one};
      }
    }
  }

  // A stalled run stays stalled for ever exactly when no node is queued: one LOST node wedges the supervisor.
  lemma StalledForGoodIff(plan: seq<Spec>, run: Run)
    requires PlanShape(plan) && Inv(plan, run) && Stalled(run)
    ensures StalledForGood(run) <==> forall spec :: spec in run.plan ==> Raw(SpecNode(spec), run) != Queued
  {
    RunningShows(run);
    if spec :| spec in run.plan && Raw(SpecNode(spec), run) == Queued {
      QueuedMayRun(plan, run, spec);
    } else {
      forall spec | spec in run.plan ensures !NeedsRepair(spec, run.plan, run.launches, run.records) {
        assert !Unrepaired(spec, run);
      }
      forall events | EventsOk(run.records, events) ensures Stalled(RunFrom(run, events)) {
        QuietForGood(plan, run, events);
        RunningShows(RunFrom(run, events));
      }
    }
  }

  // ---------- The plans the supervisor builds ----------

  function BuiltRank(node: string): nat {
    if node == "researcher" then 0 else if node == "verifier" then 2 else 1
  }

  lemma RoleNames()
    ensures "researcher" != "coder" && "researcher" != "quant-execution" && "researcher" != "verifier"
    ensures "coder" != "quant-execution" && "coder" != "verifier" && "quant-execution" != "verifier"
    ensures forall node :: node in {"researcher", "coder", "quant-execution", "verifier"} ==> node != "" && !IsRepairName(node)
  {
    assert "researcher"[0] == 'r' && "coder"[0] == 'c' && "quant-execution"[0] == 'q' && "verifier"[0] == 'v';
    assert "researcher"[2] == 's' && "repair-"[0] == 'r' && "repair-"[2] == 'p';
  }

  // The nodes of a built plan, in order: which they are decides everything else about it.
  function BuiltSpec(node: string, needsCode: bool, quant: bool): Spec {
    if node == "researcher" then Spec(node, node, [], "", true)
    else if node != "verifier" then Spec(node, node, ["researcher"], "", true)
    else Spec(node, node, ["researcher"] + (if needsCode then ["coder"] else []) + (if quant then ["quant-execution"] else []),
              "", true)
  }

  lemma BuiltSpecs(needsCode: bool, quant: bool)
    ensures BuiltSpec("researcher", needsCode, quant) == Spec("researcher", "researcher", [], "", true)
    ensures BuiltSpec("coder", needsCode, quant) == Spec("coder", "coder", ["researcher"], "", true)
    ensures BuiltSpec("quant-execution", needsCode, quant)
         == Spec("quant-execution", "quant-execution", ["researcher"], "", true)
    ensures BuiltSpec("verifier", needsCode, quant)
         == Spec("verifier", "verifier",
                 ["researcher"] + (if needsCode then ["coder"] else []) + (if quant then ["quant-execution"] else []), "", true)
  {
    RoleNames();
  }

  function BuiltNodes(needsCode: bool, quant: bool, verifies: bool): seq<string> {
    ["researcher"] + (if needsCode then ["coder"] else []) + (if quant then ["quant-execution"] else [])
    + (if verifies then ["verifier"] else [])
  }

  lemma BuiltNodesDiffer(needsCode: bool, quant: bool, verifies: bool)
    ensures var nodes := BuiltNodes(needsCode, quant, verifies);
            && nodes != []
            && (forall i, j :: 0 <= i < j < |nodes| ==> nodes[i] != nodes[j])
            && (forall i :: 0 <= i < |nodes| ==> nodes[i] in {"researcher", "coder", "quant-execution", "verifier"})
            && "researcher" in nodes && (needsCode ==> "coder" in nodes) && (quant ==> "quant-execution" in nodes)
  {
    RoleNames();
  }

  lemma BuiltFromNodes(needsCode: bool, quant: bool, includeValidation: bool, needsReview: bool)
    ensures var nodes := BuiltNodes(needsCode, quant, includeValidation && needsReview);
            var plan := BuildPlan(needsCode, quant, includeValidation, needsReview);
            |plan| == |nodes| && forall i :: 0 <= i < |nodes| ==> plan[i] == BuiltSpec(nodes[i], needsCode, quant)
  {
    BuiltSpecs(needsCode, quant);
  }

  lemma BuiltShape(plan: seq<Spec>, nodes: seq<string>, needsCode: bool, quant: bool)
    requires |plan| == |nodes|
    requires forall i, j :: 0 <= i < j < |nodes| ==> nodes[i] != nodes[j]
    requires forall i :: 0 <= i < |nodes| ==> nodes[i] in {"researcher", "coder", "quant-execution", "verifier"}
    requires forall i :: 0 <= i < |nodes| ==> plan[i] == BuiltSpec(nodes[i], needsCode, quant)
    ensures PlanShape(plan) && AllRequired(plan)
    ensures forall node :: node in nodes ==> InPlan(node, plan)
  {
    RoleNames();
    forall i | 0 <= i < |plan| ensures SpecNode(plan[i]) == nodes[i] && plan[i].required && plan[i].repairFor == "" {}
    forall node | node in nodes ensures InPlan(node, plan) {
      var i :| 0 <= i < |nodes| && nodes[i] == node;
      assert plan[i] in plan && SpecNode(plan[i]) == node;
    }
  }

  lemma BuiltRanks(node: string, needsCode: bool, quant: bool, dep: string)
    requires node in {"researcher", "coder", "quant-execution", "verifier"}
    requires dep in BuiltSpec(node, needsCode, quant).dependsOn
    ensures dep == "researcher" || (needsCode && dep == "coder") || (quant && dep == "quant-execution")
    ensures BuiltRank(dep) < BuiltRank(SpecNode(BuiltSpec(node, needsCode, quant)))
  {
    RoleNames();
  }

  // Every plan the supervisor builds has the shape the theorems ask for.
  lemma BuiltPlanIsSound(needsCode: bool, quant: bool, includeValidation: bool, needsReview: bool)
    ensures var plan := BuildPlan(needsCode, quant, includeValidation, needsReview);
            plan != [] && PlanShape(plan) && AllRequired(plan) && Acyclic(plan, BuiltRank)
  {
    var plan := BuildPlan(needsCode, quant, includeValidation, needsReview);
    var nodes := BuiltNodes(needsCode, quant, includeValidation && needsReview);
    BuiltNodesDiffer(needsCode, quant, includeValidation && needsReview);
    BuiltFromNodes(needsCode, quant, includeValidation, needsReview);
    BuiltShape(plan, nodes, needsCode, quant);
    forall i, dep | 0 <= i < |plan| && dep in plan[i].dependsOn
      ensures InPlan(dep, plan) && BuiltRank(dep) < BuiltRank(SpecNode(plan[i]))
    {
      BuiltRanks(nodes[i], needsCode, quant, dep);
    }
  }

  // For the plans the supervisor builds, any run makes at most eight launches, and it can only stall on a LOST or QUEUED node.
  lemma BuiltPlanRuns(needsCode: bool, quant: bool, includeValidation: bool, needsReview: bool,
                      first: Event, events: seq<Event>)
    requires HistoryOk(first, events)
    ensures var plan := BuildPlan(needsCode, quant, includeValidation, needsReview);
            var run := Execute(plan, first, events);
            && |run.launches| <= 8
            && (Stalled(run) ==> AnyStuck(plan, run))
  {
    var plan := BuildPlan(needsCode, quant, includeValidation, needsReview);
    BuiltPlanIsSound(needsCode, quant, includeValidation, needsReview);
    SafetyOverRuns(plan, first, events);
    StalledIff(plan, BuiltRank, first, events);
  }
}
