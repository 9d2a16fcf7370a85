/**
 Two runs that show the edges of the supervisor: a LOST sub-agent that stalls a run, and a failed launch
 whose FAILED verdict is later reopened and ends in PASSED.
 */
module SupervisorExamples {
  import opened Supervisor
  import opened SupervisorRuns
  import opened SupervisorTheorems

  const SCOUT := Spec("researcher", "researcher", [], "", true)

  const SCOUT_REPAIR := Spec("repair-researcher", "repair-researcher", [], "researcher", true)

  function AllStart(id: string): string -> StartOutcome {
    (node: string) => Started(id, Running)
  }

  function NoneStart(): string -> StartOutcome {
    (node: string) => Raised
  }

  lemma ScoutPlan()
    ensures BuildPlan(false, false, false, false) == [SCOUT]
    ensures SpecNode(SCOUT) == "researcher" && RepairSpec(SCOUT) == SCOUT_REPAIR
    ensures SpecNode(SCOUT_REPAIR) == "repair-researcher" != "researcher"
  {
    assert "repair-" + "researcher" == "repair-researcher";
    assert |"repair-researcher"| == 17 && |"researcher"| == 10;
  }

  lemma ScoutStart(starts: string -> StartOutcome)
    ensures Start([SCOUT], map[], starts) == Run([SCOUT], [LaunchOf(SCOUT, starts("researcher"))], map[])
  {
    var launches := [LaunchOf(SCOUT, starts("researcher"))];
    assert LaunchReady([SCOUT], [SCOUT], [], map[], starts) == LaunchReady([SCOUT][1..], [SCOUT], [] + launches, map[], starts);
  }

  // A launched sub-agent that comes back LOST.
  lemma LostRun()
    ensures var lost := Launch("researcher", true, "researcher", "s1", Lost);
            var records := map["s1" := Lost];
            Refresh(Start([SCOUT], map[], AllStart("s1")), records, NoneStart()) == Run([SCOUT], [lost], records)
  {
    var records := map["s1" := Lost];
    var started := Launch("researcher", true, "researcher", "s1", Running);
    var lost := Launch("researcher", true, "researcher", "s1", Lost);
    ScoutStart(AllStart("s1"));
    assert RefreshLaunchStatuses([started], records) == [lost];
    assert RawStatus("researcher", [lost], records) == Lost;
    AddRepairsNothing([SCOUT], [SCOUT], [lost], records);
    assert lost in [lost];
    NothingToLaunch([SCOUT], [SCOUT], [lost], records, NoneStart());
  }

  // One LOST sub-agent is enough to stall a run: nothing runs, nothing is repaired and no verdict is reached.
  lemma LostStalls()
    ensures exists first, events :: HistoryOk(first, events) &&
                                    Stalled(Execute(BuildPlan(false, false, false, false), first, events))
  {
    var first := Event(map[], AllStart("s1"));
    var event := Event(map["s1" := Lost], NoneStart());
    var lost := Launch("researcher", true, "researcher", "s1", Lost);
    ScoutPlan();
    LostRun();
    assert EventOk(map[], first) && EventOk(map[], event);
    OneEvent(Start([SCOUT], map[], AllStart("s1")), event);
    assert HistoryOk(first, [event]);
    LostIsStalled(Run([SCOUT], [lost], map["s1" := Lost]));
    assert Stalled(Execute([SCOUT], first, [event]));
  }

  lemma LostIsStalled(run: Run)
    requires run == Run([SCOUT], [Launch("researcher", true, "researcher", "s1", Lost)], map["s1" := Lost])
    ensures Stalled(run)
  {
    ScoutPlan();
    RunningShows(run);
    assert Raw("researcher", run) == Lost;
    assert SCOUT in run.plan;
  }

  // A launch that raises fails the run; the next refreshes repair it and the run passes.
  lemma FailedLaunchIsReopened()
    ensures var plan := BuildPlan(false, false, false, false);
            var launch := Event(map[], NoneStart());
            var events := [Event(map[], AllStart("s1")), Event(map["s1" := Passed], NoneStart())];
            && HistoryOk(launch, events)
            && TerminalState(Execute(plan, launch, [])) == Verdict(Failed, true, false)
            && TerminalState(Execute(plan, launch, events)) == Verdict(Passed, true, true)
  {
    var failed := Launch("researcher", false, "researcher", "", LaunchFailed);
    var repairing := Launch("repair-researcher", true, "repair-researcher", "s1", Running);
    var repaired := repairing.(status := Passed);
    var launch := Event(map[], NoneStart());
    var first := Event(map[], AllStart("s1"));
    var second := Event(map["s1" := Passed], NoneStart());
    var events := [first, second];
    ScoutPlan();
    ScoutStart(NoneStart());
    var run0 := Run([SCOUT], [failed], map[]);
    FailedVerdict(run0);

    assert EventOk(map[], launch) && EventOk(map[], first) && EventOk(map[], second);
    assert events == [] + [first] + [second];
    var run1 := Run([SCOUT, SCOUT_REPAIR], [failed, repairing], map[]);
    RepairStarts();
    OneMore(map[], run0, [], first);
    RepairPasses();
    var run2 := Run([SCOUT, SCOUT_REPAIR], [failed, repaired], map["s1" := Passed]);
    OneMore(map[], run0, [] + [first], second);
    PassedVerdict(run2);
  }

  lemma OneMore(before: Records, run: Run, events: seq<Event>, event: Event)
    requires EventsOk(before, events) && EventOk(LastRecords(before, events), event)
    ensures EventsOk(before, events + [event])
    ensures LastRecords(before, events + [event]) == event.records
    ensures RunFrom(run, events + [event]) == Refresh(RunFrom(run, events), event.records, event.starts)
  {
    assert (events + [event])[..|events|] == events;
  }

  lemma FailedVerdict(run: Run)
    requires run == Run([SCOUT], [Launch("researcher", false, "researcher", "", LaunchFailed)], map[])
    ensures TerminalState(run) == Verdict(Failed, true, false)
  {
    ScoutPlan();
    RunningShows(run);
    assert Raw("researcher", run) == LaunchFailed;
    assert SCOUT in run.plan && SCOUT.required;
    assert !EffectiveOk("researcher", run.plan, run.launches, run.records);
    assert Unrepaired(SCOUT, run);
  }

  lemma RepairStarts()
    ensures var failed := Launch("researcher", false, "researcher", "", LaunchFailed);
            var repairing := Launch("repair-researcher", true, "repair-researcher", "s1", Running);
            Refresh(Run([SCOUT], [failed], map[]), map[], AllStart("s1"))
            == Run([SCOUT, SCOUT_REPAIR], [failed, repairing], map[])
  {
    var failed := Launch("researcher", false, "researcher", "", LaunchFailed);
    var repairing := Launch("repair-researcher", true, "repair-researcher", "s1", Running);
    var plan := [SCOUT, SCOUT_REPAIR];
    ScoutPlan();
    assert RefreshLaunchStatuses([failed], map[]) == [failed];
    assert NeedsRepair(SCOUT, [SCOUT], [failed], map[]) by {
      assert RawStatus("researcher", [failed], map[]) == LaunchFailed;
    }
    assert AddRepairs([SCOUT], [SCOUT], [failed], map[]) == AddRepairs([SCOUT][1..], [SCOUT] + [SCOUT_REPAIR], [failed], map[]);
    assert [SCOUT] + [SCOUT_REPAIR] == plan;
    assert failed in [failed];
    assert LaunchReady(plan, plan, [failed], map[], AllStart("s1")) == LaunchReady(plan[1..], plan, [failed], map[], AllStart("s1"));
    assert plan[1..] == [SCOUT_REPAIR];
    assert !Launched("repair-researcher", [failed]);
    assert LaunchReady([SCOUT_REPAIR], plan, [failed], map[], AllStart("s1"))
        == LaunchReady([SCOUT_REPAIR][1..], plan, [failed] + [repairing], map[], AllStart("s1"));
    assert [failed] + [repairing] == [failed, repairing];
  }

  lemma RepairPasses()
    ensures var failed := Launch("researcher", false, "researcher", "", LaunchFailed);
            var repairing := Launch("repair-researcher", true, "repair-researcher", "s1", Running);
            Refresh(Run([SCOUT, SCOUT_REPAIR], [failed, repairing], map[]), map["s1" := Passed], NoneStart())
            == Run([SCOUT, SCOUT_REPAIR], [failed, repairing.(status := Passed)], map["s1" := Passed])
  {
    var failed := Launch("researcher", false, "researcher", "", LaunchFailed);
    var repairing := Launch("repair-researcher", true, "repair-researcher", "s1", Running);
    var repaired := repairing.(status := Passed);
    var records := map["s1" := Passed];
    var plan := [SCOUT, SCOUT_REPAIR];
    var launches := [failed, repaired];
    ScoutPlan();
    assert RefreshLaunchStatuses([failed, repairing], records) == launches;
    assert SCOUT_REPAIR in plan && HasRepairFor(plan, "researcher");
    AddRepairsNothing(plan, plan, launches, records);
    assert failed in launches && repaired in launches;
    NothingToLaunch(plan, plan, launches, records, NoneStart());
  }

  lemma PassedVerdict(run: Run)
    requires var failed := Launch("researcher", false, "researcher", "", LaunchFailed);
             var repaired := Launch("repair-researcher", true, "repair-researcher", "s1", Passed);
             run == Run([SCOUT, SCOUT_REPAIR], [failed, repaired], map["s1" := Passed])
    ensures TerminalState(run) == Verdict(Passed, true, true)
  {
    ScoutPlan();
    RunningShows(run);
    assert run.launches[1..] == [Launch("repair-researcher", true, "repair-researcher", "s1", Passed)];
    assert Raw("researcher", run) == LaunchFailed;
    assert Raw("repair-researcher", run) == Passed;
    assert SCOUT in run.plan && SCOUT_REPAIR in run.plan;
    assert EffectiveOk("researcher", run.plan, run.launches, run.records);
  }
}
