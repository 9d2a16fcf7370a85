/**
 What the supervisor guarantees over whole runs: a run is a first launch followed by any number of
 refreshes, between which the environment changes the sub-agent records. The first launch comes with the
 run itself, or, for a run that was only planned, with its first refresh.
 */
module SupervisorRuns {
  import opened Supervisor

  // ---------- Plans and environments ----------

  predicate IsRepairName(node: string) {
    "repair-" <= node
  }

  ghost predicate DistinctNodes(plan: seq<Spec>) {
    forall i, j :: 0 <= i < j < |plan| ==> SpecNode(plan[i]) != SpecNode(plan[j])
  }

  // The shape of a freshly built plan.
  ghost predicate PlanShape(plan: seq<Spec>) {
    && DistinctNodes(plan)
    && (forall spec :: spec in plan ==> spec.repairFor == "" && SpecNode(spec) != "" && !IsRepairName(SpecNode(spec)))
  }

  ghost predicate AllRequired(plan: seq<Spec>) {
    forall spec :: spec in plan ==> spec.required
  }

  ghost predicate InPlan(node: string, plan: seq<Spec>) {
    exists spec :: spec in plan && SpecNode(spec) == node
  }

  // Dependencies stay inside the plan and go down in rank.
  ghost predicate Acyclic(plan: seq<Spec>, rank: string -> nat) {
    forall spec, dep :: spec in plan && dep in spec.dependsOn ==> InPlan(dep, plan) && rank(dep) < rank(SpecNode(spec))
  }

  ghost predicate RecordsOk(records: Records) {
    && "" !in records
    && forall id :: id in records ==> IsRecordStatus(records[id])
  }

  // Records never disappear and decided statuses never change.
  ghost predicate RecordsStep(before: Records, after: Records) {
    && RecordsOk(after)
    && (forall id :: id in before ==> id in after)
    && (forall id :: id in before && IsDecided(before[id]) ==> after[id] == before[id])
  }

  // A started sub-agent is new and runs.
  ghost predicate StartsOk(starts: string -> StartOutcome, records: Records) {
    forall node :: starts(node).Started? ==>
                     starts(node).subagentId != "" && starts(node).subagentId !in records && starts(node).status == Running
  }

  // One refresh: the records it reads and what its launch attempts give.
  datatype Event = Event(records: Records, starts: string -> StartOutcome)

  ghost predicate EventOk(before: Records, event: Event) {
    RecordsStep(before, event.records) && StartsOk(event.starts, event.records)
  }

  function LastRecords(before: Records, events: seq<Event>): Records {
    if events == [] then before else events[|events| - 1].records
  }

  ghost predicate EventsOk(before: Records, events: seq<Event>)
    decreases |events|
  {
    events == [] ||
    var earlier := events[..|events| - 1];
    EventsOk(before, earlier) && EventOk(LastRecords(before, earlier), events[|events| - 1])
  }

  // The run after all events.
  function RunFrom(run: Run, events: seq<Event>): Run
    decreases |events|
  {
    if events == [] then run
    else
      var last := events[|events| - 1];
      Refresh(RunFrom(run, events[..|events| - 1]), last.records, last.starts)
  }

  // The run after its first launch and all events.
  function Execute(plan: seq<Spec>, first: Event, events: seq<Event>): Run {
    RunFrom(Start(plan, first.records, first.starts), events)
  }

  // A first launch and what follows it.
  ghost predicate HistoryOk(first: Event, events: seq<Event>) {
    EventOk(map[], first) && EventsOk(first.records, events)
  }

  // The first refresh of a run that was only planned is its first launch.
  lemma PlannedRunStarts(plan: seq<Spec>, first: Event)
    ensures Refresh(Run(plan, [], map[]), first.records, first.starts) == Start(plan, first.records, first.starts)
  {
    assert RefreshLaunchStatuses([], first.records) == [];
    AddRepairsNothing(plan, plan, [], first.records);
  }

  // ---------- Raw statuses ----------

  function Raw(node: string, run: Run): Status {
    RawStatus(node, run.launches, run.records)
  }

  ghost predicate LaunchOk(launch: Launch, records: Records) {
    if launch.ok then
      launch.subagentId != "" && (launch.subagentId !in records ==> launch.status == Running)
    else
      launch.subagentId == "" && launch.status == LaunchFailed
  }

  ghost predicate LaunchesOk(launches: seq<Launch>, records: Records) {
    forall launch :: launch in launches ==> LaunchOk(launch, records)
  }

  lemma {:induction false} RawPendingIffNotLaunched(node: string, launches: seq<Launch>, records: Records)
    requires RecordsOk(records) && LaunchesOk(launches, records)
    ensures RawStatus(node, launches, records) == Pending <==> !Launched(node, launches)
    ensures RawStatus(node, launches, records) in {Pending, LaunchFailed} || IsRecordStatus(RawStatus(node, launches, records))
  {
    if launches == [] {
    } else {
      RawPendingIffNotLaunched(node, launches[1..], records);
      assert launches[0] in launches && LaunchOk(launches[0], records);
      if Launched(node, launches) && LaunchNode(launches[0]) != node {
        var launch :| launch in launches && LaunchNode(launch) == node;
        assert launch in launches[1..];
      }
    }
  }

  lemma {:induction false} RawAppend(node: string, launches: seq<Launch>, launch: Launch, records: Records)
    ensures RawStatus(node, launches + [launch], records) ==
            if Launched(node, launches) then RawStatus(node, launches, records)
            else if LaunchNode(launch) == node then LaunchStatus(launch, records)
            else Pending
  {
    if launches == [] {
      assert launches + [launch] == [launch];
    } else {
      RawAppend(node, launches[1..], launch, records);
      assert (launches + [launch])[1..] == launches[1..] + [launch];
      if LaunchNode(launches[0]) == node {
        assert launches[0] in launches;
      } else {
        assert Launched(node, launches) <==> Launched(node, launches[1..]) by {
          forall l | l in launches && LaunchNode(l) == node ensures l in launches[1..] {}
        }
      }
    }
  }

  // Copying record statuses into the launches does not change what a node's status reads as.
  lemma {:induction false} RawAfterStatusRefresh(node: string, launches: seq<Launch>, records: Records)
    requires "" !in records
    requires forall launch :: launch in launches && !launch.ok ==> launch.subagentId == ""
    ensures RawStatus(node, RefreshLaunchStatuses(launches, records), records) == RawStatus(node, launches, records)
  {
    if launches == [] {
    } else {
      RawAfterStatusRefresh(node, launches[1..], records);
      assert RefreshLaunchStatuses(launches, records)[1..] == RefreshLaunchStatuses(launches[1..], records);
      assert launches[0] in launches;
    }
  }

  // A decided status is read the same by every later refresh.
  lemma {:induction false} RawStable(node: string, launches: seq<Launch>, before: Records, after: Records)
    requires LaunchesOk(launches, before) && RecordsStep(before, after)
    ensures IsDecided(RawStatus(node, launches, before)) ==>
              RawStatus(node, launches, after) == RawStatus(node, launches, before)
  {
    if launches == [] {
    } else {
      RawStable(node, launches[1..], before, after);
      assert launches[0] in launches && LaunchOk(launches[0], before);
    }
  }

  lemma LaunchesOkAfterStatusRefresh(launches: seq<Launch>, before: Records, after: Records)
    requires LaunchesOk(launches, before) && RecordsStep(before, after)
    ensures LaunchesOk(RefreshLaunchStatuses(launches, after), after)
    ensures forall node :: Launched(node, RefreshLaunchStatuses(launches, after)) <==> Launched(node, launches)
  {
    var refreshed := RefreshLaunchStatuses(launches, after);
    forall launch | launch in refreshed ensures LaunchOk(launch, after) {
      var i :| 0 <= i < |launches| && refreshed[i] == launch;
      assert launches[i] in launches && LaunchOk(launches[i], before);
    }
    forall node ensures Launched(node, refreshed) <==> Launched(node, launches) {
      if Launched(node, launches) {
        var launch :| launch in launches && LaunchNode(launch) == node;
        var i :| 0 <= i < |launches| && launches[i] == launch;
        assert refreshed[i] in refreshed && LaunchNode(refreshed[i]) == node;
      }
      if Launched(node, refreshed) {
        var launch :| launch in refreshed && LaunchNode(launch) == node;
        var i :| 0 <= i < |launches| && refreshed[i] == launch;
        assert launches[i] in launches && LaunchNode(launches[i]) == node;
      }
    }
  }

  // ---------- The repair loop ----------

  // The repair nodes that `plan` holds after its first `original` nodes.
  ghost predicate RepairsOk(original: seq<Spec>, plan: seq<Spec>, launches: seq<Launch>, records: Records) {
    && original <= plan
    && (forall k :: |original| <= k < |plan| ==> IsRepairOf(plan[k], original, launches, records))
    && (forall j, k :: |original| <= j < k < |plan| ==> plan[j].repairFor != plan[k].repairFor)
  }

  // `spec` repairs a required, failed node of the original plan, under that node's dependencies.
  ghost predicate IsRepairOf(spec: Spec, original: seq<Spec>, launches: seq<Launch>, records: Records) {
    exists target ::
      && target in original && target.required && spec == RepairSpec(target)
      && IsFailure(RawStatus(SpecNode(target), launches, records))
  }

  lemma {:induction false} AddRepairsKeepsShape(original: seq<Spec>, todo: seq<Spec>, plan: seq<Spec>, launches: seq<Launch>,
                                                records: Records)
    requires PlanShape(original)
    requires RepairsOk(original, plan, launches, records)
    requires forall spec :: spec in todo ==> spec in plan
    ensures RepairsOk(original, AddRepairs(todo, plan, launches, records), launches, records)
    ensures plan <= AddRepairs(todo, plan, launches, records)
    ensures forall spec :: spec in todo ==> !NeedsRepair(spec, AddRepairs(todo, plan, launches, records), launches, records)
    decreases |todo|
  {
    if todo == [] {
    } else {
      var spec := todo[0];
      if NeedsRepair(spec, plan, launches, records) {
        var grown := plan + [RepairSpec(spec)];
        assert spec in todo;
        assert spec in original by {
          var k :| 0 <= k < |plan| && plan[k] == spec;
          if k >= |original| { RepairNamesTarget(spec, original, launches, records); }
        }
        assert IsRepairOf(RepairSpec(spec), original, launches, records);
        forall k | 0 <= k < |plan| ensures plan[k].repairFor != SpecNode(spec) { assert plan[k] in plan; }
        AddRepairsKeepsShape(original, todo[1..], grown, launches, records);
        assert RepairSpec(spec) in grown;
        assert HasRepairFor(AddRepairs(todo, plan, launches, records), SpecNode(spec)) by {
          assert RepairSpec(spec) in AddRepairs(todo, plan, launches, records);
        }
      } else {
        AddRepairsKeepsShape(original, todo[1..], plan, launches, records);
        if HasRepairFor(plan, SpecNode(spec)) {
          var r :| r in plan && r.repairFor == SpecNode(spec);
          assert r in AddRepairs(todo, plan, launches, records);
        }
      }
    }
  }

  lemma RepairNamesTarget(spec: Spec, original: seq<Spec>, launches: seq<Launch>, records: Records)
    requires PlanShape(original) && IsRepairOf(spec, original, launches, records)
    ensures spec.repairFor != "" && SpecNode(spec) == "repair-" + spec.repairFor && IsRepairName(SpecNode(spec)) && spec.required
  {
    var target :| target in original && spec == RepairSpec(target);
  }

  lemma RepairedPlanDistinct(original: seq<Spec>, plan: seq<Spec>, launches: seq<Launch>, records: Records)
    requires PlanShape(original) && RepairsOk(original, plan, launches, records)
    ensures DistinctNodes(plan)
  {
    forall i, j | 0 <= i < j < |plan| ensures SpecNode(plan[i]) != SpecNode(plan[j]) {
      if j >= |original| {
        RepairNamesTarget(plan[j], original, launches, records);
        if i >= |original| {
          RepairNamesTarget(plan[i], original, launches, records);
          assert SpecNode(plan[i])[7..] == plan[i].repairFor && SpecNode(plan[j])[7..] == plan[j].repairFor;
        } else {
          assert plan[i] == original[i] && original[i] in original;
        }
      } else {
        assert plan[i] == original[i] && plan[j] == original[j];
      }
    }
  }

  lemma {:induction false} AddRepairsNothing(todo: seq<Spec>, plan: seq<Spec>, launches: seq<Launch>, records: Records)
    requires forall spec :: spec in todo ==> !NeedsRepair(spec, plan, launches, records)
    ensures AddRepairs(todo, plan, launches, records) == plan
    decreases |todo|
  {
    if todo == [] {
    } else {
      assert todo[0] in todo;
      AddRepairsNothing(todo[1..], plan, launches, records);
    }
  }

  // ---------- The launch loop ----------

  lemma EffectiveOkUnchanged(node: string, plan: seq<Spec>, launches: seq<Launch>, launch: Launch, records: Records)
    requires !Launched(LaunchNode(launch), launches) && LaunchStatus(launch, records) != Passed
    requires RecordsOk(records) && LaunchesOk(launches, records)
    ensures EffectiveOk(node, plan, launches + [launch], records) <==> EffectiveOk(node, plan, launches, records)
  {
    forall n ensures RawStatus(n, launches + [launch], records) == Passed <==> RawStatus(n, launches, records) == Passed {
      RawAppend(n, launches, launch, records);
      RawPendingIffNotLaunched(n, launches, records);
    }
  }

  lemma LaunchOfNode(spec: Spec, outcome: StartOutcome)
    ensures LaunchNode(LaunchOf(spec, outcome)) == SpecNode(spec)
  {
  }

  // No node is launched twice.
  ghost predicate DistinctLaunches(launches: seq<Launch>) {
    forall i, j :: 0 <= i < j < |launches| ==> LaunchNode(launches[i]) != LaunchNode(launches[j])
  }

  // What the launch loop does to a list of launches: it only appends, each node at most once and only
  // when its dependencies have passed, and it leaves no launchable node of `todo` behind.
  lemma {:induction false} LaunchLoop(todo: seq<Spec>, plan: seq<Spec>, launches: seq<Launch>, records: Records,
                                      starts: string -> StartOutcome)
    requires RecordsOk(records) && LaunchesOk(launches, records) && StartsOk(starts, records)
    requires DistinctLaunches(launches)
    ensures DistinctLaunches(LaunchReady(todo, plan, launches, records, starts))
    ensures var after := LaunchReady(todo, plan, launches, records, starts);
            && launches <= after
            && LaunchesOk(after, records)
            && (forall node :: EffectiveOk(node, plan, after, records) <==> EffectiveOk(node, plan, launches, records))
            && (forall node :: Launched(node, launches) ==> RawStatus(node, after, records) == RawStatus(node, launches, records))
            && (forall node :: !Launched(node, launches) && Launched(node, after) ==>
                                 RawStatus(node, after, records) in {Running, LaunchFailed})
            && (forall spec :: spec in todo && !Launched(SpecNode(spec), after) ==> !DependenciesOk(spec, plan, after, records))
    ensures forall k :: |launches| <= k < |LaunchReady(todo, plan, launches, records, starts)| ==>
                          LaunchedFrom(LaunchReady(todo, plan, launches, records, starts)[k], todo, plan, launches, records)
    decreases |todo|
  {
    if todo == [] {
    } else {
      var spec := todo[0];
      var after := LaunchReady(todo, plan, launches, records, starts);
      if Launched(SpecNode(spec), launches) || !DependenciesOk(spec, plan, launches, records) {
        LaunchLoop(todo[1..], plan, launches, records, starts);
        if Launched(SpecNode(spec), launches) {
          LaunchedStays(SpecNode(spec), launches, after);
        }
        forall k | |launches| <= k < |after| ensures LaunchedFrom(after[k], todo, plan, launches, records) {
          LaunchedFromLarger(after[k], todo, plan, launches, records);
        }
      } else {
        var launch := LaunchOf(spec, starts(SpecNode(spec)));
        var longer := launches + [launch];
        LaunchOfNode(spec, starts(SpecNode(spec)));
        forall node ensures EffectiveOk(node, plan, longer, records) <==> EffectiveOk(node, plan, launches, records) {
          EffectiveOkUnchanged(node, plan, launches, launch, records);
        }
        assert LaunchesOk(longer, records);
        forall i | 0 <= i < |launches| ensures LaunchNode(launches[i]) != LaunchNode(launch) {
          assert launches[i] in launches;
        }
        LaunchLoop(todo[1..], plan, longer, records, starts);
        forall node ensures Launched(node, longer) <==> Launched(node, launches) || node == SpecNode(spec) {
          LaunchedAppend(node, launches, launch);
        }
        forall node ensures RawStatus(node, longer, records) ==
                            if Launched(node, launches) then RawStatus(node, launches, records)
                            else if node == SpecNode(spec) then LaunchStatus(launch, records) else Pending
        {
          RawAppend(node, launches, launch, records);
        }
        LaunchedStays(SpecNode(spec), longer, after);
        forall k | |launches| <= k < |after| ensures LaunchedFrom(after[k], todo, plan, launches, records) {
          if k == |launches| {
            assert after[k] == launch && spec in todo;
          } else {
            LaunchedFromShorter(after[k], todo, plan, launches, launch, records);
          }
        }
      }
    }
  }

  // `launch` belongs to a node of `todo` that was not launched before and whose dependencies have passed.
  ghost predicate LaunchedFrom(launch: Launch, todo: seq<Spec>, plan: seq<Spec>, launches: seq<Launch>, records: Records) {
    exists spec :: spec in todo && SpecNode(spec) == LaunchNode(launch) && !Launched(SpecNode(spec), launches) &&
                   DependenciesOk(spec, plan, launches, records)
  }

  lemma LaunchedStays(node: string, launches: seq<Launch>, longer: seq<Launch>)
    requires launches <= longer && Launched(node, launches)
    ensures Launched(node, longer)
  {
    var launch :| launch in launches && LaunchNode(launch) == node;
    assert launch in longer;
  }

  lemma LaunchedFromLarger(launch: Launch, todo: seq<Spec>, plan: seq<Spec>, launches: seq<Launch>, records: Records)
    requires todo != [] && LaunchedFrom(launch, todo[1..], plan, launches, records)
    ensures LaunchedFrom(launch, todo, plan, launches, records)
  {
    var spec :| spec in todo[1..] && SpecNode(spec) == LaunchNode(launch) && !Launched(SpecNode(spec), launches) &&
                DependenciesOk(spec, plan, launches, records);
    assert spec in todo;
  }

  lemma LaunchedFromShorter(launch: Launch, todo: seq<Spec>, plan: seq<Spec>, launches: seq<Launch>, extra: Launch,
                            records: Records)
    requires todo != [] && LaunchedFrom(launch, todo[1..], plan, launches + [extra], records)
    requires forall node :: EffectiveOk(node, plan, launches + [extra], records) <==> EffectiveOk(node, plan, launches, records)
    ensures LaunchedFrom(launch, todo, plan, launches, records)
  {
    var spec :| spec in todo[1..] && SpecNode(spec) == LaunchNode(launch) && !Launched(SpecNode(spec), launches + [extra]) &&
                DependenciesOk(spec, plan, launches + [extra], records);
    assert spec in todo;
    LaunchedAppend(SpecNode(spec), launches, extra);
  }

  // ---------- The invariant of every run ----------

  // `launch` belongs to a node of the plan all of whose dependencies have passed, themselves or by repair.
  ghost predicate Justified(launch: Launch, run: Run) {
    exists spec :: spec in run.plan && SpecNode(spec) == LaunchNode(launch) &&
                   DependenciesOk(spec, run.plan, run.launches, run.records)
  }

  ghost predicate Inv(plan: seq<Spec>, run: Run) {
    && RecordsOk(run.records)
    && LaunchesOk(run.launches, run.records)
    && DistinctLaunches(run.launches)
    && RepairsOk(plan, run.plan, run.launches, run.records)
    && (forall launch :: launch in run.launches ==> Justified(launch, run))
    && (forall spec :: spec in run.plan && !Launched(SpecNode(spec), run.launches) ==>
                         !DependenciesOk(spec, run.plan, run.launches, run.records))
  }

  lemma InvAtStart(plan: seq<Spec>, first: Event)
    requires PlanShape(plan) && EventOk(map[], first)
    ensures Inv(plan, Start(plan, first.records, first.starts))
  {
    var run := Start(plan, first.records, first.starts);
    LaunchLoop(plan, plan, [], first.records, first.starts);
    forall launch | launch in run.launches ensures Justified(launch, run) {
      var k :| 0 <= k < |run.launches| && run.launches[k] == launch;
      assert LaunchedFrom(run.launches[k], plan, plan, [], first.records);
    }
  }

  // The run after the first half of a refresh: statuses copied and repairs added, nothing launched yet.
  ghost function WithRepairs(run: Run, records: Records): Run {
    var launches := RefreshLaunchStatuses(run.launches, records);
    Run(AddRepairs(run.plan, run.plan, launches, records), launches, records)
  }

  lemma RawAfterRepairs(plan: seq<Spec>, run: Run, event: Event)
    requires Inv(plan, run) && EventOk(run.records, event)
    ensures forall node :: Launched(node, WithRepairs(run, event.records).launches) <==> Launched(node, run.launches)
    ensures forall node :: Raw(node, WithRepairs(run, event.records)) == RawStatus(node, run.launches, event.records)
    ensures forall node :: IsDecided(Raw(node, run)) ==> Raw(node, WithRepairs(run, event.records)) == Raw(node, run)
  {
    LaunchesOkAfterStatusRefresh(run.launches, run.records, event.records);
    forall node
      ensures Raw(node, WithRepairs(run, event.records)) == RawStatus(node, run.launches, event.records)
      ensures IsDecided(Raw(node, run)) ==> Raw(node, WithRepairs(run, event.records)) == Raw(node, run)
    {
      RawAfterStatusRefresh(node, run.launches, event.records);
      RawStable(node, run.launches, run.records, event.records);
    }
  }

  lemma RepairsAreFresh(plan: seq<Spec>, run: Run, event: Event)
    requires PlanShape(plan) && Inv(plan, run) && EventOk(run.records, event)
    ensures var half := WithRepairs(run, event.records);
            && run.plan <= half.plan
            && RepairsOk(plan, half.plan, half.launches, half.records)
            && forall spec :: spec in half.plan ==> !NeedsRepair(spec, half.plan, half.launches, half.records)
  {
    var half := WithRepairs(run, event.records);
    RawAfterRepairs(plan, run, event);
    forall k | |plan| <= k < |run.plan| ensures IsRepairOf(run.plan[k], plan, half.launches, half.records) {
      assert IsRepairOf(run.plan[k], plan, run.launches, run.records);
      var target :| target in plan && target.required && run.plan[k] == RepairSpec(target) && IsFailure(Raw(SpecNode(target), run));
      assert IsFailure(Raw(SpecNode(target), half));
    }
    AddRepairsKeepsShape(plan, run.plan, run.plan, half.launches, half.records);
    forall spec | spec in half.plan ensures !NeedsRepair(spec, half.plan, half.launches, half.records) {
      var k :| 0 <= k < |half.plan| && half.plan[k] == spec;
      if k >= |plan| {
        RepairNamesTarget(spec, plan, half.launches, half.records);
      } else {
        assert spec == run.plan[k] && run.plan[k] in run.plan;
      }
    }
  }

  // Passing, once reached, is never lost: not by new records, nor by a longer plan.
  lemma EffectiveOkStable(plan: seq<Spec>, run: Run, event: Event, node: string)
    requires PlanShape(plan) && Inv(plan, run) && EventOk(run.records, event)
    requires EffectiveOk(node, run.plan, run.launches, run.records)
    ensures var half := WithRepairs(run, event.records);
            EffectiveOk(node, half.plan, half.launches, half.records)
  {
    var half := WithRepairs(run, event.records);
    assert forall n :: IsDecided(Raw(n, run)) ==> Raw(n, half) == Raw(n, run) by {
      RawAfterRepairs(plan, run, event);
    }
    if Raw(node, run) == Passed {
      assert Raw(node, half) == Passed;
    } else {
      var spec :| spec in run.plan && spec.repairFor == node && Raw(SpecNode(spec), run) == Passed;
      assert Raw(SpecNode(spec), half) == Passed;
      assert spec in half.plan by { RepairsAreFresh(plan, run, event); }
    }
  }

  lemma LaunchPhase(plan: seq<Spec>, run: Run, event: Event)
    requires PlanShape(plan) && Inv(plan, run) && EventOk(run.records, event)
    ensures var half := WithRepairs(run, event.records);
            && RecordsOk(half.records) && LaunchesOk(half.launches, half.records) && DistinctLaunches(half.launches)
            && Refresh(run, event.records, event.starts) ==
               half.(launches := LaunchReady(half.plan, half.plan, half.launches, half.records, event.starts))
  {
    LaunchesOkAfterStatusRefresh(run.launches, run.records, event.records);
  }

  lemma RepairStaysJustified(repair: Spec, original: seq<Spec>, launches: seq<Launch>, after: seq<Launch>, records: Records)
    requires RecordsOk(records) && LaunchesOk(launches, records)
    requires forall node :: Launched(node, launches) ==> RawStatus(node, after, records) == RawStatus(node, launches, records)
    requires IsRepairOf(repair, original, launches, records)
    ensures IsRepairOf(repair, original, after, records)
  {
    var target :| target in original && target.required && repair == RepairSpec(target) &&
                  IsFailure(RawStatus(SpecNode(target), launches, records));
    RawPendingIffNotLaunched(SpecNode(target), launches, records);
    assert IsFailure(RawStatus(SpecNode(target), after, records));
  }

  lemma RepairsOkAfterRefresh(plan: seq<Spec>, run: Run, event: Event)
    requires PlanShape(plan) && Inv(plan, run) && EventOk(run.records, event)
    ensures var after := Refresh(run, event.records, event.starts);
            RepairsOk(plan, after.plan, after.launches, after.records)
  {
    var half := WithRepairs(run, event.records);
    var after := Refresh(run, event.records, event.starts);
    RepairsAreFresh(plan, run, event);
    LaunchPhase(plan, run, event);
    assert forall node :: Launched(node, half.launches) ==> Raw(node, after) == Raw(node, half) by {
      LaunchLoop(half.plan, half.plan, half.launches, half.records, event.starts);
    }
    forall k | |plan| <= k < |half.plan| ensures IsRepairOf(half.plan[k], plan, after.launches, after.records) {
      RepairStaysJustified(half.plan[k], plan, half.launches, after.launches, half.records);
    }
  }

  lemma EffectiveOkAfterRefresh(plan: seq<Spec>, run: Run, event: Event, node: string)
    requires PlanShape(plan) && Inv(plan, run) && EventOk(run.records, event)
    requires EffectiveOk(node, run.plan, run.launches, run.records)
    ensures var after := Refresh(run, event.records, event.starts);
            EffectiveOk(node, after.plan, after.launches, after.records)
  {
    var half := WithRepairs(run, event.records);
    LaunchPhase(plan, run, event);
    LaunchLoop(half.plan, half.plan, half.launches, half.records, event.starts);
    EffectiveOkStable(plan, run, event, node);
  }

  lemma OldLaunchJustified(plan: seq<Spec>, run: Run, event: Event, launch: Launch)
    requires PlanShape(plan) && Inv(plan, run) && EventOk(run.records, event)
    requires Justified(launch, run)
    ensures Justified(launch, Refresh(run, event.records, event.starts))
  {
    var after := Refresh(run, event.records, event.starts);
    var spec :| spec in run.plan && SpecNode(spec) == LaunchNode(launch) &&
                DependenciesOk(spec, run.plan, run.launches, run.records);
    forall dep | dep in spec.dependsOn ensures EffectiveOk(dep, after.plan, after.launches, after.records) {
      EffectiveOkAfterRefresh(plan, run, event, dep);
    }
    assert spec in after.plan by { RepairsAreFresh(plan, run, event); }
  }

  lemma NewLaunchJustified(launch: Launch, half: Run, after: Run)
    requires LaunchedFrom(launch, half.plan, half.plan, half.launches, half.records)
    requires after.plan == half.plan
    requires forall node :: EffectiveOk(node, after.plan, after.launches, after.records) <==>
                            EffectiveOk(node, half.plan, half.launches, half.records)
    ensures Justified(launch, after)
  {
  }

  lemma JustifiedAfterRefresh(plan: seq<Spec>, run: Run, event: Event, k: nat)
    requires PlanShape(plan) && Inv(plan, run) && EventOk(run.records, event)
    requires k < |Refresh(run, event.records, event.starts).launches|
    ensures Justified(Refresh(run, event.records, event.starts).launches[k], Refresh(run, event.records, event.starts))
  {
    var half := WithRepairs(run, event.records);
    var after := Refresh(run, event.records, event.starts);
    LaunchPhase(plan, run, event);
    LaunchLoop(half.plan, half.plan, half.launches, half.records, event.starts);
    if k < |half.launches| {
      var launch := run.launches[k];
      assert after.launches[k] == half.launches[k] && launch in run.launches;
      OldLaunchJustified(plan, run, event, launch);
      assert LaunchNode(after.launches[k]) == LaunchNode(launch);
    } else {
      NewLaunchJustified(after.launches[k], half, after);
    }
  }

  lemma InvAfterRefresh(plan: seq<Spec>, run: Run, event: Event)
    requires PlanShape(plan) && Inv(plan, run) && EventOk(run.records, event)
    ensures Inv(plan, Refresh(run, event.records, event.starts))
  {
    var half := WithRepairs(run, event.records);
    var after := Refresh(run, event.records, event.starts);
    RepairsOkAfterRefresh(plan, run, event);
    forall launch | launch in after.launches ensures Justified(launch, after) {
      var k :| 0 <= k < |after.launches| && after.launches[k] == launch;
      JustifiedAfterRefresh(plan, run, event, k);
    }
    LaunchPhase(plan, run, event);
    LaunchLoop(half.plan, half.plan, half.launches, half.records, event.starts);
  }

  lemma {:induction false} InvFrom(plan: seq<Spec>, run: Run, events: seq<Event>)
    requires PlanShape(plan) && Inv(plan, run) && EventsOk(run.records, events)
    ensures Inv(plan, RunFrom(run, events))
    ensures RunFrom(run, events).records == LastRecords(run.records, events)
    decreases |events|
  {
    if events == [] {
    } else {
      var n := |events| - 1;
      InvFrom(plan, run, events[..n]);
      InvAfterRefresh(plan, RunFrom(run, events[..n]), events[n]);
    }
  }

  lemma InvOverRuns(plan: seq<Spec>, first: Event, events: seq<Event>)
    requires PlanShape(plan) && HistoryOk(first, events)
    ensures Inv(plan, Execute(plan, first, events))
  {
    InvAtStart(plan, first);
    InvFrom(plan, Start(plan, first.records, first.starts), events);
  }
}
