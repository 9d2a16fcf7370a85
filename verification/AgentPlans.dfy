/** The plans that quantagent/agent_loop_core.py builds for the agent loop, and that its verdict is sound for all of them. */
module AgentPlans {
  import opened AgentLoop
  import opened AgentLoopTheorems

  // What the task and the route say.
  datatype Wish = Wish(
    mode: string, quant: bool, mustImplement: bool, wantsUnitTests: bool, includeValidation: bool, changedPaths: bool)

  const DEFAULT_TESTS := ["python3", "-m", "unittest", "discover", "-s", "tests"]
  const SUBJECT_TESTS := ["python3", "-m", "unittest", "-q", "test_subject"]

  // The names of all steps, in the order in which plans hold them.
  const NAMES := [
    "route", "goal_guard", "quant_evidence_gate", "quant_run_gate", "runtime_context", "status", "context", "audit", "implement",
    "validate", "review_context", "repair_context", "unit_tests", "admin_runtime_context", "changed_path_context", "final_review"]

  function Internal(name: string, mode: string): Step {
    Step(name, "internal", [], true, mode)
  }

  function Tool(name: string, required: bool, mode: string): Step {
    Step(name, "tool", [], required, mode)
  }

  // The steps a plan can have, each with its condition.
  function Candidates(w: Wish): seq<(Step, bool)> {
    var edits := w.mode in {"build", "repair"};
    [(Internal("route", w.mode), true),
     (Internal("goal_guard", w.mode), true),
     (Internal("quant_evidence_gate", w.mode), w.quant),
     (Internal("quant_run_gate", w.mode), w.quant),
     (Internal("runtime_context", w.mode), true),
     (Tool("status", false, w.mode), true),
     (Tool("context", true, w.mode), true),
     (Tool("audit", false, w.mode), edits || w.mode == "review" || w.quant),
     (Tool("implement", w.mustImplement, w.mode), edits),
     (Tool("validate", false, w.mode), edits && w.includeValidation),
     (Internal("review_context", w.mode), w.mode == "review"),
     (Internal("repair_context", w.mode), w.mode == "repair"),
     (Step("unit_tests", "command", DEFAULT_TESTS, false, w.mode), w.wantsUnitTests && w.includeValidation),
     (Internal("admin_runtime_context", w.mode), w.mode == "admin"),
     (Internal("changed_path_context", w.mode), w.changedPaths),
     (Internal("final_review", w.mode), true)]
  }

  // The steps whose condition holds, in order.
  function Chosen(candidates: seq<(Step, bool)>): seq<Step> {
    if candidates == [] then []
    else (if candidates[0].1 then [candidates[0].0] else []) + Chosen(candidates[1..])
  }

  function BuildAgentPlan(w: Wish): seq<Step> {
    Chosen(Candidates(w))
  }

  predicate HasStep(plan: seq<Step>, name: string) {
    exists i :: 0 <= i < |plan| && plan[i].name == name
  }

  // A step before a final review at the end, or at the end.
  function Insert(plan: seq<Step>, step: Step): seq<Step> {
    if plan != [] && plan[|plan| - 1].name == "final_review" then plan[..|plan| - 1] + [step, plan[|plan| - 1]] else plan + [step]
  }

  predicate IsDefaultTest(step: Step) {
    step.name == "unit_tests" && step.kind == "command" && step.command == DEFAULT_TESTS
  }

  // `nodeTests` are the node test files found, `subjectTest` says whether test_subject.py is there.
  function Augment(plan: seq<Step>, mode: string, includeValidation: bool, nodeTests: seq<string>, subjectTest: bool): seq<Step> {
    if !includeValidation || mode !in {"build", "repair"} then plan
    else if nodeTests != [] then
      var step := Step("unit_tests", "command", ["node", "--test"] + nodeTests, false, mode);
      if HasStep(plan, "unit_tests") then
        seq(|plan|, i requires 0 <= i < |plan| => if IsDefaultTest(plan[i]) then step else plan[i])
      else Insert(plan, step)
    else if HasStep(plan, "unit_tests") || !subjectTest then plan
    else Insert(plan, Step("unit_tests", "command", SUBJECT_TESTS, true, mode))
  }

  // ---------- Which steps a plan has ----------

  // Whether the step with the `k`-th name is wanted.
  ghost predicate Wanted(w: Wish, k: nat) {
    var edits := w.mode == "build" || w.mode == "repair";
    || k in {0, 1, 4, 5, 6, 15}
    || (k in {2, 3} && w.quant)
    || (k == 7 && (w.quant || edits || w.mode == "review"))
    || (k == 8 && edits)
    || (k == 9 && edits && w.includeValidation)
    || (k == 10 && w.mode == "review")
    || (k == 11 && w.mode == "repair")
    || (k == 12 && w.wantsUnitTests && w.includeValidation)
    || (k == 13 && w.mode == "admin")
    || (k == 14 && w.changedPaths)
  }

  // How the step with the `k`-th name is to run: the tools from "status" to "validate", the tests as a command, and all others
  // inside the loop; all but "status", "audit", "validate" and the tests are required, and "implement" only if the task asks for it.
  ghost predicate AsAsked(w: Wish, k: nat, step: Step) {
    && (step.kind == "tool" || step.kind == "command" || step.kind == "internal")
    && (step.kind == "tool" <==> 5 <= k <= 9) && (step.kind == "command" <==> k == 12)
    && (step.required <==> k !in {5, 7, 9, 12} && (k == 8 ==> w.mustImplement))
    && step.mode == w.mode
    && step.command == if k == 12 then ["python3", "-m", "unittest", "discover", "-s", "tests"] else []
  }

  lemma {:induction false} ChosenMeans(candidates: seq<(Step, bool)>, step: Step)
    ensures step in Chosen(candidates) <==> exists k :: 0 <= k < |candidates| && candidates[k] == (step, true)
  {
    if candidates == [] {
    } else {
      var rest := candidates[1..];
      ChosenMeans(rest, step);
      if step in Chosen(rest) {
        var k :| 0 <= k < |rest| && rest[k] == (step, true);
        assert candidates[k + 1] == (step, true);
      }
      if k :| 0 <= k < |candidates| && candidates[k] == (step, true) {
        assert k > 0 ==> rest[k - 1] == (step, true);
      }
    }
  }

  lemma CandidateMeans(w: Wish, k: nat)
    requires k < |NAMES|
    ensures |Candidates(w)| == |NAMES| && Candidates(w)[k].0.name == NAMES[k]
    ensures AsAsked(w, k, Candidates(w)[k].0)
    ensures Candidates(w)[k].1 <==> Wanted(w, k)
  {
    CandidateAsked(w, k);
    CandidateWanted(w, k);
    CandidatesAreNamed(w, k);
  }

  lemma CandidateAsked(w: Wish, k: nat)
    requires k < |NAMES|
    ensures |Candidates(w)| == |NAMES| && AsAsked(w, k, Candidates(w)[k].0)
  {
    var kinds := ["tool", "command", "internal"];
    assert |kinds[0]| == 4 && |kinds[1]| == 7 && |kinds[2]| == 8;
  }

  lemma CandidateWanted(w: Wish, k: nat)
    requires k < |NAMES|
    ensures |Candidates(w)| == |NAMES| && (Candidates(w)[k].1 <==> Wanted(w, k))
  {
  }

  // A built plan has just the steps that are wanted, each as asked for.
  lemma PlanHolds(w: Wish, k: nat)
    requires k < |NAMES|
    ensures HasStep(BuildAgentPlan(w), NAMES[k]) <==> Wanted(w, k)
    ensures forall step :: step in BuildAgentPlan(w) && step.name == NAMES[k] ==> AsAsked(w, k, step)
  {
    var plan, candidates := BuildAgentPlan(w), Candidates(w);
    CandidateMeans(w, k);
    ChosenMeans(candidates, candidates[k].0);
    forall step | step in plan ensures step.name == NAMES[k] ==> step == candidates[k].0 && candidates[k].1 {
      ChosenMeans(candidates, step);
      var j :| 0 <= j < |candidates| && candidates[j] == (step, true);
      CandidateMeans(w, j);
      NamesDiffer();
    }
  }

  // The steps come in the order of the names, and there are no others.
  lemma {:induction false} PlanIsOrdered(w: Wish, i: nat, j: nat)
    requires i < j < |BuildAgentPlan(w)|
    ensures exists a, b :: 0 <= a < b < |NAMES| && BuildAgentPlan(w)[i].name == NAMES[a] && BuildAgentPlan(w)[j].name == NAMES[b]
  {
    var candidates := Candidates(w);
    var a, b := ChosenInOrder(candidates, i, j);
    CandidateMeans(w, a);
    CandidateMeans(w, b);
  }

  lemma {:induction false} ChosenInOrder(candidates: seq<(Step, bool)>, i: nat, j: nat) returns (a: nat, b: nat)
    requires i < j < |Chosen(candidates)|
    ensures a < b < |candidates|
    ensures candidates[a].0 == Chosen(candidates)[i] && candidates[b].0 == Chosen(candidates)[j]
  {
    var rest := candidates[1..];
    if !candidates[0].1 {
      a, b := ChosenInOrder(rest, i, j);
      a, b := a + 1, b + 1;
    } else if i > 0 {
      a, b := ChosenInOrder(rest, i - 1, j - 1);
      a, b := a + 1, b + 1;
    } else {
      a := 0;
      ChosenMeans(rest, Chosen(rest)[j - 1]);
      b :| 0 <= b < |rest| && rest[b] == (Chosen(rest)[j - 1], true);
      b := b + 1;
    }
  }

  // What the unit tests found in the project change in a plan: in build and repair mode with validation there is a step for them,
  // before a final review at the end, and node tests take the place of the default ones; every other step stays.
  lemma AugmentMeans(plan: seq<Step>, mode: string, includeValidation: bool, nodeTests: seq<string>, subjectTest: bool)
    ensures var after := Augment(plan, mode, includeValidation, nodeTests, subjectTest);
            var looks := includeValidation && (mode == "build" || mode == "repair");
            && (forall step: Step :: step.name != "unit_tests" ==> (step in after <==> step in plan))
            && (HasStep(after, "unit_tests") <==> HasStep(plan, "unit_tests") || (looks && (nodeTests != [] || subjectTest)))
            && (plan != [] && plan[|plan| - 1].name == "final_review" ==> after[|after| - 1] == plan[|plan| - 1])
            && (looks && nodeTests != [] ==> forall step :: step in after ==> !IsDefaultTest(step))
            && (forall step :: step in after && step !in plan ==>
                  step == if nodeTests != [] then Step("unit_tests", "command", ["node", "--test"] + nodeTests, false, mode)
                          else Step("unit_tests", "command", ["python3", "-m", "unittest", "-q", "test_subject"], true, mode))
  {
    var after := Augment(plan, mode, includeValidation, nodeTests, subjectTest);
    var looks := includeValidation && (mode == "build" || mode == "repair");
    var node := Step("unit_tests", "command", ["node", "--test"] + nodeTests, false, mode);
    assert |node.command[0]| == 4 && |DEFAULT_TESTS[0]| == 7;
    assert forall step :: IsDefaultTest(step) && step in plan ==> HasStep(plan, "unit_tests");
    if !looks {
    } else if nodeTests != [] && HasStep(plan, "unit_tests") {
      ReplacedMeans(plan, after, node);
    } else if nodeTests != [] {
      InsertMeans(plan, node);
    } else if subjectTest && !HasStep(plan, "unit_tests") {
      InsertMeans(plan, Step("unit_tests", "command", SUBJECT_TESTS, true, mode));
    }
  }

  lemma InsertMeans(plan: seq<Step>, step: Step)
    ensures forall other :: other in Insert(plan, step) <==> other in plan || other == step
    ensures HasStep(Insert(plan, step), step.name)
    ensures plan != [] && plan[|plan| - 1].name == "final_review" ==>
              Insert(plan, step)[|Insert(plan, step)| - 1] == plan[|plan| - 1]
  {
    var n := |plan|;
    assert plan != [] ==> plan == plan[..n - 1] + [plan[n - 1]];
    assert step in Insert(plan, step);
  }

  lemma ReplacedMeans(plan: seq<Step>, after: seq<Step>, step: Step)
    requires after == seq(|plan|, i requires 0 <= i < |plan| => if IsDefaultTest(plan[i]) then step else plan[i])
    requires step.name == "unit_tests" && !IsDefaultTest(step)
    ensures forall other: Step :: other.name != "unit_tests" ==> (other in after <==> other in plan)
    ensures forall other :: other in after ==> (other in plan || other == step) && !IsDefaultTest(other)
    ensures HasStep(after, "unit_tests") <==> HasStep(plan, "unit_tests")
  {
    forall other: Step | other.name != "unit_tests" && other in plan ensures other in after {
      var i :| 0 <= i < |plan| && plan[i] == other;
      assert after[i] == other;
    }
    forall i | 0 <= i < |plan| ensures after[i].name == "unit_tests" <==> plan[i].name == "unit_tests" {
    }
  }

  // ---------- No step hides another ----------

  ghost predicate DistinctNames(plan: seq<Step>) {
    forall i, j :: 0 <= i < j < |plan| ==> plan[i].name != plan[j].name
  }

  lemma NamesDiffer()
    ensures forall i, j :: 0 <= i < j < |NAMES| ==> NAMES[i] != NAMES[j]
  {
    assert NAMES[0][0] == 'r' && NAMES[7][0] == 'a';
    assert NAMES[1][0] == 'g' && NAMES[12][0] == 'u';
    assert NAMES[3][0] == 'q' && NAMES[10][0] == 'r' && NAMES[11][0] == 'r' && NAMES[10][2] == 'v' && NAMES[11][2] == 'p';
  }

  lemma CandidatesAreNamed(w: Wish, k: nat)
    requires k < |NAMES|
    ensures |Candidates(w)| == |NAMES| && Candidates(w)[k].0.name == NAMES[k]
  {
  }

  lemma CandidatesDiffer(w: Wish)
    ensures forall i, j :: 0 <= i < j < |Candidates(w)| ==> Candidates(w)[i].0.name != Candidates(w)[j].0.name
  {
    CandidatesAreNamed(w, 0);
    forall i, j | 0 <= i < j < |Candidates(w)| ensures Candidates(w)[i].0.name != Candidates(w)[j].0.name {
      CandidatesAreNamed(w, i);
      CandidatesAreNamed(w, j);
      NamesDiffer();
    }
  }

  // A choice of steps with different names has different names.
  lemma {:induction false} ChosenDiffer(candidates: seq<(Step, bool)>)
    requires forall i, j :: 0 <= i < j < |candidates| ==> candidates[i].0.name != candidates[j].0.name
    ensures DistinctNames(Chosen(candidates))
    ensures forall step :: step in Chosen(candidates) ==> exists i :: 0 <= i < |candidates| && candidates[i].0 == step
  {
    if candidates == [] {
    } else {
      var rest := candidates[1..];
      ChosenDiffer(rest);
      forall step | step in Chosen(candidates) ensures exists i :: 0 <= i < |candidates| && candidates[i].0 == step {
        if step in Chosen(rest) {
          var i :| 0 <= i < |rest| && rest[i].0 == step;
          assert candidates[i + 1].0 == step;
        }
      }
      forall step | step in Chosen(rest) ensures step.name != candidates[0].0.name {
        var i :| 0 <= i < |rest| && rest[i].0 == step;
        assert candidates[i + 1] == rest[i];
      }
    }
  }

  lemma BuiltNamesDiffer(w: Wish)
    ensures DistinctNames(BuildAgentPlan(w))
  {
    CandidatesDiffer(w);
    ChosenDiffer(Candidates(w));
  }

  lemma AugmentKeepsDistinct(
    plan: seq<Step>, mode: string, includeValidation: bool, nodeTests: seq<string>, subjectTest: bool)
    requires DistinctNames(plan)
    ensures DistinctNames(Augment(plan, mode, includeValidation, nodeTests, subjectTest))
  {
  }

  lemma DistinctIsUnshadowed(plan: seq<Step>)
    requires DistinctNames(plan)
    ensures NothingShadowed(plan)
  {
    forall i | 0 <= i < |plan| && plan[i].required ensures IsRequired(plan[i].name, plan) {
      RequiredIsFirst(plan, i);
    }
  }

  // For every plan the loop builds itself an ok verdict means that the whole plan was executed and every required step passed.
  lemma BuiltPlansAreSound(w: Wish, nodeTests: seq<string>, subjectTest: bool)
    ensures VerdictIsSound(Augment(BuildAgentPlan(w), w.mode, w.includeValidation, nodeTests, subjectTest))
  {
    BuiltNamesDiffer(w);
    AugmentKeepsDistinct(BuildAgentPlan(w), w.mode, w.includeValidation, nodeTests, subjectTest);
    DistinctIsUnshadowed(Augment(BuildAgentPlan(w), w.mode, w.includeValidation, nodeTests, subjectTest));
    VerdictSoundIff(Augment(BuildAgentPlan(w), w.mode, w.includeValidation, nodeTests, subjectTest));
  }
}
