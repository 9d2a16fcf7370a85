/**
 The gate of quantagent/apply_gate.py in front of an isolation review: findings decide, the review is applied after a checkpoint,
 and a failed test puts the checkpoint back.
 */
module ApplyGate {
  import opened FileTree
  import opened Wrappers
  import opened Checkpoints
  import opened Isolation

  datatype Level = LevelError | LevelWarn

  datatype FindingCode =
    | NotRecommendedReview | EmptyReview | ApprovalRequired | HighRiskPaths | DiagnosticError | MissingTestCommand | TestPermission
    | SourceChecksError | SourceCheckFailed | SourceCheckWarning

  datatype Finding = Finding(level: Level, code: FindingCode)

  datatype CheckStatus = CheckPass | CheckFail | CheckWarn | CheckSkip

  // `advisory` says that the severity is one of warn, warning and advisory.
  datatype CheckResult = CheckResult(status: CheckStatus, advisory: bool)

  datatype Decision = Allow | Ask | Deny

  // What the gate is asked, and what the preview, the diagnostics, the sandbox policy and the source checks say. `preview` is
  // where the preview is kept; if the gate has to make one, `newPreview` is its text.
  datatype Request = Request(
    preview: Path, newPreview: Option<string>, expectedReviewId: string, approved: bool, allowNoTests: bool,
    allowDiagnosticErrors: bool, allowHighRisk: bool, sourceChecksEnabled: bool, approvalRequired: bool,
    highRiskPaths: seq<string>, diagnosticErrors: seq<string>, command: seq<string>, decision: Decision,
    checks: Option<seq<CheckResult>>)

  datatype Verdict = Verdict(allowed: bool, findings: seq<Finding>, checkpointPaths: seq<PathArg>)

  // The paths of the review, each once.
  function Merge(paths: seq<PathArg>, done: seq<PathArg>): seq<PathArg>
    decreases |paths|
  {
    if paths == [] then done else Merge(paths[1..], if paths[0] in done then done else done + [paths[0]])
  }

  function ChangedPaths(review: Review): seq<PathArg> {
    Merge(review.changed + review.added + review.deleted, [])
  }

  // An error, if the condition holds.
  function When(condition: bool, code: FindingCode): seq<Finding> {
    if condition then [Finding(LevelError, code)] else []
  }

  function Repeated(finding: Finding, n: nat): seq<Finding> {
    if n == 0 then [] else Repeated(finding, n - 1) + [finding]
  }

  // A source check that fails blocks, unless its severity is only advisory.
  function CheckFinding(check: CheckResult): seq<Finding> {
    match check.status
    case CheckPass => []
    case CheckSkip => []
    case CheckWarn => [Finding(LevelWarn, SourceCheckWarning)]
    case CheckFail => [Finding(if check.advisory then LevelWarn else LevelError, SourceCheckFailed)]
  }

  function CheckFindings(checks: seq<CheckResult>): seq<Finding> {
    if checks == [] then [] else CheckFinding(checks[0]) + CheckFindings(checks[1..])
  }

  ghost predicate CheckBlocks(checks: seq<CheckResult>) {
    exists k :: 0 <= k < |checks| && checks[k].status == CheckFail && !checks[k].advisory
  }

  predicate HasError(findings: seq<Finding>) {
    exists k :: 0 <= k < |findings| && findings[k].level == LevelError
  }

  function ReviewFindings(review: Review, request: Request): seq<Finding> {
    When(request.expectedReviewId != "" && review.id != request.expectedReviewId, NotRecommendedReview)
    + When(ChangedPaths(review) == [], EmptyReview)
    + When(request.approvalRequired && !request.approved, ApprovalRequired)
    + When(request.highRiskPaths != [] && !request.allowHighRisk && !request.approved, HighRiskPaths)
  }

  // Of the diagnostics that are errors, the first eight are shown.
  function Shown(request: Request): nat {
    if request.allowDiagnosticErrors then 0
    else if |request.diagnosticErrors| < 8 then |request.diagnosticErrors| else 8
  }

  function TestFindings(request: Request): seq<Finding> {
    Repeated(Finding(LevelError, DiagnosticError), Shown(request))
    + When(request.command == [] && !request.allowNoTests, MissingTestCommand)
    + When(request.command != [] && (request.decision == Deny || (request.decision == Ask && !request.approved)), TestPermission)
  }

  function SourceFindings(request: Request): seq<Finding> {
    if !request.sourceChecksEnabled then []
    else
      match request.checks
      case None => [Finding(LevelError, SourceChecksError)]
      case Some(checks) => CheckFindings(checks)
  }

  function Findings(review: Review, request: Request): seq<Finding> {
    ReviewFindings(review, request) + TestFindings(request) + SourceFindings(request)
  }

  method EvaluateApplyGate(review: Review, request: Request) returns (verdict: Verdict)
    ensures verdict == Verdict(!HasError(Findings(review, request)), Findings(review, request), ChangedPaths(review))
    ensures verdict.allowed <==> Allowed(review, request)
  {
    var findings := CheckReview(review, request);
    var tested := CheckTest(request);
    findings := findings + tested;
    if request.sourceChecksEnabled {
      match request.checks {
        case None => findings := findings + [Finding(LevelError, SourceChecksError)];
        case Some(checks) => findings := findings + CheckFindings(checks);
      }
    }
    assert findings == Findings(review, request);
    AllowedIff(review, request);
    verdict := Verdict(!HasError(findings), findings, ChangedPaths(review));
  }

  // The part of the gate about the review and its risk.
  method CheckReview(review: Review, request: Request) returns (findings: seq<Finding>)
    ensures findings == ReviewFindings(review, request)
  {
    findings := [];
    if request.expectedReviewId != "" && review.id != request.expectedReviewId {
      findings := findings + [Finding(LevelError, NotRecommendedReview)];
    }
    if ChangedPaths(review) == [] {
      findings := findings + [Finding(LevelError, EmptyReview)];
    }
    if request.approvalRequired && !request.approved {
      findings := findings + [Finding(LevelError, ApprovalRequired)];
    }
    if request.highRiskPaths != [] && !request.allowHighRisk && !request.approved {
      findings := findings + [Finding(LevelError, HighRiskPaths)];
    }
  }

  // The part of the gate about diagnostics and the test command.
  method CheckTest(request: Request) returns (findings: seq<Finding>)
    ensures findings == TestFindings(request)
  {
    findings := [];
    if request.diagnosticErrors != [] && !request.allowDiagnosticErrors {
      var i := 0;
      while i < |request.diagnosticErrors| && i < 8
        invariant 0 <= i <= Shown(request)
        invariant findings == Repeated(Finding(LevelError, DiagnosticError), i)
      {
        findings := findings + [Finding(LevelError, DiagnosticError)];
        i := i + 1;
      }
    }
    assert findings == Repeated(Finding(LevelError, DiagnosticError), Shown(request));
    if request.command == [] && !request.allowNoTests {
      findings := findings + [Finding(LevelError, MissingTestCommand)];
    }
    if request.command != [] && (request.decision == Deny || (request.decision == Ask && !request.approved)) {
      findings := findings + [Finding(LevelError, TestPermission)];
    }
  }

  // What each finding says, exactly.
  ghost predicate Reports(review: Review, request: Request, finding: Finding) {
    match finding.code
    case NotRecommendedReview =>
      finding.level == LevelError && request.expectedReviewId != "" && request.expectedReviewId != review.id
    case EmptyReview => finding.level == LevelError && review.changed == [] && review.added == [] && review.deleted == []
    case ApprovalRequired => finding.level == LevelError && request.approvalRequired && !request.approved
    case HighRiskPaths =>
      finding.level == LevelError && request.highRiskPaths != [] && !(request.allowHighRisk || request.approved)
    case DiagnosticError => finding.level == LevelError && request.diagnosticErrors != [] && !request.allowDiagnosticErrors
    case MissingTestCommand => finding.level == LevelError && request.command == [] && !request.allowNoTests
    case TestPermission =>
      finding.level == LevelError && request.command != [] && request.decision != Allow
      && (request.decision == Ask ==> !request.approved)
    case SourceChecksError => finding.level == LevelError && request.sourceChecksEnabled && request.checks.None?
    case SourceCheckFailed =>
      request.sourceChecksEnabled && request.checks.Some?
      && exists check :: check in request.checks.value && check.status == CheckFail && check.advisory == finding.level.LevelWarn?
    case SourceCheckWarning =>
      finding.level == LevelWarn && request.sourceChecksEnabled && request.checks.Some?
      && exists check :: check in request.checks.value && check.status == CheckWarn
  }

  lemma {:induction false} RepeatedMeans(finding: Finding, n: nat, other: Finding)
    ensures other in Repeated(finding, n) <==> n > 0 && other == finding
    ensures multiset(Repeated(finding, n))[finding] == n
  {
    if n > 0 {
      RepeatedMeans(finding, n - 1, other);
    }
  }

  lemma {:induction false} CheckFindingsReport(checks: seq<CheckResult>, finding: Finding)
    ensures finding in CheckFindings(checks) <==> exists check :: check in checks && finding in CheckFinding(check)
  {
    if checks == [] {
    } else {
      CheckFindingsReport(checks[1..], finding);
      assert forall check :: check in checks <==> check == checks[0] || check in checks[1..];
    }
  }

  lemma ReviewFindingsMean(review: Review, request: Request, finding: Finding)
    ensures finding in ReviewFindings(review, request) <==>
            finding.code in {NotRecommendedReview, EmptyReview, ApprovalRequired, HighRiskPaths} && Reports(review, request, finding)
  {
    ChangedPathsMean(review);
  }

  lemma InThree(finding: Finding, a: seq<Finding>, b: seq<Finding>, c: seq<Finding>)
    ensures finding in a + b + c <==> finding in a || finding in b || finding in c
  {
  }

  lemma TestFindingsMean(review: Review, request: Request, finding: Finding)
    ensures finding in TestFindings(request) <==>
            finding.code in {DiagnosticError, MissingTestCommand, TestPermission} && Reports(review, request, finding)
  {
    var shown := Repeated(Finding(LevelError, DiagnosticError), Shown(request));
    RepeatedMeans(Finding(LevelError, DiagnosticError), Shown(request), finding);
    InThree(finding, shown, When(request.command == [] && !request.allowNoTests, MissingTestCommand),
            When(request.command != [] && (request.decision == Deny || (request.decision == Ask && !request.approved)), TestPermission));
  }

  lemma SourceFindingsMean(review: Review, request: Request, finding: Finding)
    ensures finding in SourceFindings(request) <==>
            finding.code in {SourceChecksError, SourceCheckFailed, SourceCheckWarning} && Reports(review, request, finding)
  {
    if request.checks.Some? {
      CheckFindingsReport(request.checks.value, finding);
    }
  }

  // A finding is reported exactly for the reason it names.
  lemma FindingsMean(review: Review, request: Request, finding: Finding)
    ensures finding in Findings(review, request) <==> Reports(review, request, finding)
  {
    ReviewFindingsMean(review, request, finding);
    TestFindingsMean(review, request, finding);
    SourceFindingsMean(review, request, finding);
  }

  // The diagnostics that are errors are reported up to eight times.
  lemma DiagnosticsShown(request: Request)
    ensures multiset(TestFindings(request))[Finding(LevelError, DiagnosticError)] ==
            if request.allowDiagnosticErrors then 0
            else if |request.diagnosticErrors| <= 8 then |request.diagnosticErrors| else 8
  {
    var finding := Finding(LevelError, DiagnosticError);
    RepeatedMeans(finding, Shown(request), finding);
  }

  // The gate allows a review exactly when no finding is an error.
  lemma AllowedIff(review: Review, request: Request)
    ensures HasError(Findings(review, request)) <==> !Allowed(review, request)
  {
    var findings := Findings(review, request);
    if HasError(findings) {
      var k :| 0 <= k < |findings| && findings[k].level == LevelError;
      FindingsMean(review, request, findings[k]);
      ErrorsBlock(review, request, findings[k]);
    }
    if !Allowed(review, request) {
      var finding := Blocker(review, request);
      FindingsMean(review, request, finding);
      var k :| 0 <= k < |findings| && findings[k] == finding;
    }
  }

  lemma ErrorsBlock(review: Review, request: Request, finding: Finding)
    requires Reports(review, request, finding) && finding.level == LevelError
    ensures !Allowed(review, request)
  {
    if finding.code == SourceCheckFailed {
      var checks := request.checks.value;
      var check :| check in checks && check.status == CheckFail && !check.advisory;
      var k :| 0 <= k < |checks| && checks[k] == check;
      assert CheckBlocks(checks);
    }
  }

  lemma Blocker(review: Review, request: Request) returns (finding: Finding)
    requires !Allowed(review, request)
    ensures Reports(review, request, finding) && finding.level == LevelError
  {
    var code :=
      if request.expectedReviewId != "" && review.id != request.expectedReviewId then NotRecommendedReview
      else if review.changed == [] && review.added == [] && review.deleted == [] then EmptyReview
      else if request.approvalRequired && !request.approved then ApprovalRequired
      else if request.highRiskPaths != [] && !request.allowHighRisk && !request.approved then HighRiskPaths
      else if request.diagnosticErrors != [] && !request.allowDiagnosticErrors then DiagnosticError
      else if request.command == [] && !request.allowNoTests then MissingTestCommand
      else if request.command != [] && request.decision != Allow && (request.decision == Ask ==> !request.approved) then TestPermission
      else if request.checks.None? then SourceChecksError
      else SourceCheckFailed;
    finding := Finding(LevelError, code);
    if code == SourceCheckFailed {
      var checks := request.checks.value;
      var k :| 0 <= k < |checks| && checks[k].status == CheckFail && !checks[k].advisory;
      assert checks[k] in checks;
    }
  }

  lemma HasErrorAppend(a: seq<Finding>, b: seq<Finding>)
    ensures HasError(a + b) <==> HasError(a) || HasError(b)
  {
    if HasError(a) {
      var k :| 0 <= k < |a| && a[k].level == LevelError;
      assert (a + b)[k].level == LevelError;
    }
    if HasError(b) {
      var k :| 0 <= k < |b| && b[k].level == LevelError;
      assert (a + b)[|a| + k].level == LevelError;
    }
  }

  lemma CheckBlocksFirst(checks: seq<CheckResult>)
    requires checks != []
    ensures CheckBlocks(checks) <==> (checks[0].status == CheckFail && !checks[0].advisory) || CheckBlocks(checks[1..])
  {
    if CheckBlocks(checks[1..]) {
      var k :| 0 <= k < |checks[1..]| && checks[1..][k].status == CheckFail && !checks[1..][k].advisory;
      assert checks[k + 1] == checks[1..][k];
    }
    if CheckBlocks(checks) && !(checks[0].status == CheckFail && !checks[0].advisory) {
      var k :| 0 <= k < |checks| && checks[k].status == CheckFail && !checks[k].advisory;
      assert checks[1..][k - 1] == checks[k];
    }
  }

  lemma {:induction false} CheckFindingsMean(checks: seq<CheckResult>)
    ensures HasError(CheckFindings(checks)) <==> CheckBlocks(checks)
  {
    if checks == [] {
    } else {
      CheckFindingsMean(checks[1..]);
      CheckBlocksFirst(checks);
      HasErrorAppend(CheckFinding(checks[0]), CheckFindings(checks[1..]));
      assert CheckFinding(checks[0]) != [] ==> CheckFinding(checks[0])[0] in CheckFinding(checks[0]);
    }
  }

  lemma {:induction false} MergeKeeps(paths: seq<PathArg>, done: seq<PathArg>)
    requires forall i, j :: 0 <= i < j < |done| ==> done[i] != done[j]
    ensures var all := Merge(paths, done);
            && (forall p :: p in all <==> p in paths || p in done)
            && (forall i, j :: 0 <= i < j < |all| ==> all[i] != all[j])
    decreases |paths|
  {
    if paths == [] {
    } else {
      MergeKeeps(paths[1..], if paths[0] in done then done else done + [paths[0]]);
    }
  }

  lemma ChangedPathsMean(review: Review)
    ensures var all := ChangedPaths(review);
            && (forall p :: p in all <==> p in review.changed || p in review.added || p in review.deleted)
            && (forall i, j :: 0 <= i < j < |all| ==> all[i] != all[j])
            && (all == [] <==> review.changed == [] && review.added == [] && review.deleted == [])
  {
    var listed := review.changed + review.added + review.deleted;
    MergeKeeps(listed, []);
    var all := ChangedPaths(review);
    if listed != [] {
      assert listed[0] in all;
    }
  }

  // ---------- What the gate lets through ----------

  // The gate opens for a non-empty review, the expected one, whose risk is approved, with a permitted test command (or none
  // where that is allowed) and no diagnostics or source checks against it.
  ghost predicate Allowed(review: Review, request: Request) {
    && !(review.changed == [] && review.added == [] && review.deleted == [])
    && (request.expectedReviewId == "" || review.id == request.expectedReviewId)
    && (request.approved || (!request.approvalRequired && (request.highRiskPaths == [] || request.allowHighRisk)))
    && (request.diagnosticErrors == [] || request.allowDiagnosticErrors)
    && (if request.command == [] then request.allowNoTests
        else request.decision == Allow || (request.decision == Ask && request.approved))
    && (request.sourceChecksEnabled ==> request.checks.Some? && !CheckBlocks(request.checks.value))
  }

  // ---------- Apply, test, roll back ----------

  // How the test command ends: it may be refused before it runs, end by itself, or be cut off by an exception that nobody
  // catches, as when it takes too long or cannot be started. It may leave any files.
  datatype TestRun = Blocked | Finished(files: Files, returncode: int) | Raised(files: Files)

  datatype GateError =
    | ReviewError(review: ApplyError)
    | NoSuchPreview
    | PreviewFault(fault: Fault)
    | CheckpointError(error: Error)
    | TestRaised

  datatype GateResult = GateResult(
    ok: bool, allowed: bool, applied: bool, checkpointId: string, returncode: Option<int>, rolledBack: bool)

  const BLOCKED_CODE := 126

  predicate Passed(run: TestRun) {
    run.Finished? && run.returncode == 0
  }

  function FilesAfter(run: TestRun, files: Files): Files {
    if run.Blocked? then files else run.files
  }

  function Returncode(run: TestRun): int
    requires !run.Raised?
  {
    if run.Blocked? then BLOCKED_CODE else run.returncode
  }

  // The gate loads the review, and loads its preview or makes one.
  function Prepare(files: Files, review: Review, request: Request): (Files, Option<GateError>) {
    if !IsFile(files, review.recordFile) then (files, Some(ReviewError(NoSuchReview)))
    else
      match request.newPreview
      case None => (files, if IsFile(files, request.preview) then None else Some(NoSuchPreview))
      case Some(text) =>
        var (after, fault) := Write(files, request.preview, Text(text));
        (after, if fault.Some? then Some(PreviewFault(fault.value)) else None)
  }

  // From the test command on; `applied` are the files then.
  function TestAndRollBack(root: Path, applied: Files, run: TestRun, id: string, rollbackOnFailure: bool, applyStatus: string)
    : (Files, Result<GateResult, GateError>)
  {
    var tested := FilesAfter(run, applied);
    if run.Raised? then (tested, Err(TestRaised))
    else
      var result := GateResult(Passed(run), true, applyStatus == "applied", id, Some(Returncode(run)), false);
      if Passed(run) || !rollbackOnFailure then (tested, Ok(result))
      else
        var (restored, outcome) := Restore(root, tested, id);
        (restored, if outcome.Err? then Err(CheckpointError(outcome.error)) else Ok(result.(rolledBack := true)))
  }

  // The gate is open: checkpoint, apply, test.
  function Go(
    root: Path, files: Files, review: Review, request: Request, test: Files -> TestRun, id: string, rollbackOnFailure: bool)
    : (Files, Result<GateResult, GateError>)
  {
    var (saved, created) := Create(root, files, ChangedPaths(review), id);
    if created.Err? then (saved, Err(CheckpointError(created.error)))
    else
      var (applied, status) := ApplyReview(root, saved, review);
      if status.Err? then (applied, Err(ReviewError(status.error)))
      else if !IsFile(applied, request.preview) then (applied, Err(NoSuchPreview))
      else if request.command == [] then (applied, Ok(GateResult(true, true, true, id, None, false)))
      else TestAndRollBack(root, applied, test(applied), id, rollbackOnFailure, status.value)
  }

  ghost function Gated(
    root: Path, files: Files, review: Review, request: Request, test: Files -> TestRun, id: string, rollbackOnFailure: bool)
    : (Files, Result<GateResult, GateError>)
  {
    var (start, failure) := Prepare(files, review, request);
    if failure.Some? then (start, Err(failure.value))
    else if !Allowed(review, request) then (start, Ok(GateResult(false, false, false, "", None, false)))
    else Go(root, start, review, request, test, id, rollbackOnFailure)
  }

  method ApplyReviewWithGate(
    project: Project, review: Review, request: Request, test: Files -> TestRun, id: string, rollbackOnFailure: bool)
    returns (result: Result<GateResult, GateError>)
    modifies project
    ensures (project.files, result) == Gated(project.root, old(project.files), review, request, test, id, rollbackOnFailure)
  {
    var (start, failure) := Prepare(project.files, review, request);
    project.files := start;
    if failure.Some? {
      return Err(failure.value);
    }
    var verdict := EvaluateApplyGate(review, request);
    if !verdict.allowed {
      return Ok(GateResult(false, false, false, "", None, false));
    }
    var checkpoint := project.CreateCheckpoint(verdict.checkpointPaths, id);
    if checkpoint.Err? {
      return Err(CheckpointError(checkpoint.error));
    }
    var status := ApplyIsolationReview(project, review);
    if status.Err? {
      return Err(ReviewError(status.error));
    }
    if !IsFile(project.files, request.preview) {
      return Err(NoSuchPreview);
    }
    if request.command == [] {
      return Ok(GateResult(true, true, true, id, None, false));
    }
    var run := test(project.files);
    project.files := FilesAfter(run, project.files);
    if run.Raised? {
      return Err(TestRaised);
    }
    var testOk := Passed(run);
    var rolledBack := false;
    if !testOk && rollbackOnFailure {
      var restored := project.RestoreCheckpoint(id);
      if restored.Err? {
        return Err(CheckpointError(restored.error));
      }
      rolledBack := true;
    }
    result := Ok(GateResult(testOk, true, status.value == "applied", id, Some(Returncode(run)), rolledBack));
  }
}
