/**
 The task runner of quantagent/coding_bench.py: an agent command, a tamper check, a validation and a scope check, until the
 validation passes or the attempts run out.
 */
module CodingBench {
  // A path below the workspace, as its components.
  type Path = seq<string>

  // The regular files of a workspace.
  type Workspace = map<Path, string>

  // What a command leaves behind and says.
  datatype Run = Run(files: Workspace, ok: bool, output: string)

  datatype Attempt = Attempt(index: nat, agent: Run, validation: Run)

  // `referenced` are the task files that the test command names.
  datatype Task = Task(files: Workspace, referenced: set<Path>, maxIterations: int)

  // The commands as they behave: the agent sees the attempt's number and the last failure.
  datatype Commands = Commands(agent: (nat, string, Workspace) -> Run, validate: (nat, Workspace) -> Run)

  datatype Status = InvalidFixture | Cheated | Solved | Failed

  // `blamed` are the files named in the message of a cheated result.
  datatype Result = Result(status: Status, baseline: Run, attempts: seq<Attempt>, blamed: set<Path>)

  // The hash of a file; an absent file has one of its own, and hashing is injective.
  datatype Hash = Absent | Digest(text: string)

  function FileHash(ws: Workspace, p: Path): Hash {
    if p in ws then Digest(ws[p]) else Absent
  }

  // ---------- Names ----------

  const FAILURE_FILE := ".mako_bench_last_failure.txt"
  const HANDOFF_DIR := "AI_\U{534F}\U{4F5C}\U{4EA4}\U{63A5}"

  function Name(p: Path): string {
    if p == [] then "" else p[|p| - 1]
  }

  function LastDot(name: string): int {
    if name == "" then -1 else if name[|name| - 1] == '.' then |name| - 1 else LastDot(name[..|name| - 1])
  }

  predicate HasSuffix(name: string) {
    0 < LastDot(name) < |name| - 1
  }

  function Stem(name: string): string {
    if HasSuffix(name) then name[..LastDot(name)] else name
  }

  function Suffix(name: string): string {
    if HasSuffix(name) then name[LastDot(name)..] else ""
  }

  function Lower(s: string): string {
    seq(|s|, i requires 0 <= i < |s| => if 'A' <= s[i] <= 'Z' then (s[i] as int + 32) as char else s[i])
  }

  predicate LooksLikeTestFile(p: Path) {
    || "test_" <= Lower(Name(p))
    || (|Stem(Name(p))| >= 5 && Lower(Stem(Name(p)))[|Stem(Name(p))| - 5..] == "_test")
    || exists k :: 0 <= k < |p| && Lower(p[k]) in {"test", "tests"}
  }

  predicate IgnoredWorkspacePath(p: Path) {
    || "__pycache__" in p || ".pytest_cache" in p
    || Name(p) == FAILURE_FILE
    || Suffix(Name(p)) in {".pyc", ".pyo"}
    || (p != [] && p[0] in {HANDOFF_DIR, ".quantagent", "quantagent_sessions", "quantagent_tasks"})
  }

  function ProtectedFiles(task: Task): set<Path> {
    set p | p in task.files && (LooksLikeTestFile(p) || p in task.referenced)
  }

  function AllowedFiles(task: Task): set<Path> {
    task.files.Keys - ProtectedFiles(task)
  }

  // ---------- Workspaces ----------

  // Deletes the directories named __pycache__.
  function PurgePycache(ws: Workspace): Workspace {
    map p | p in ws && !(p != [] && "__pycache__" in p[..|p| - 1]) :: ws[p]
  }

  function WorkspaceHashes(ws: Workspace): map<Path, Hash> {
    map p | p in ws && !IgnoredWorkspacePath(p) :: FileHash(ws, p)
  }

  function OutOfScope(ws: Workspace, before: map<Path, Hash>, allowed: set<Path>): set<Path> {
    var after := WorkspaceHashes(ws);
    var added := after.Keys - before.Keys;
    var deleted := before.Keys - after.Keys;
    var modified := set p | p in before.Keys * after.Keys && before[p] != after[p];
    (added + modified + deleted) - allowed
  }

  function Tampered(ws: Workspace, hashes: map<Path, Hash>): set<Path> {
    set p | p in hashes && FileHash(ws, p) != hashes[p]
  }

  function ProtectedHashes(task: Task): map<Path, Hash> {
    map p | p in ProtectedFiles(task) :: FileHash(task.files, p)
  }

  function Limit(task: Task): nat {
    if task.maxIterations < 1 then 1 else task.maxIterations
  }

  // ---------- The run ----------

  // The rounds from attempt `k` on, `done` being the ones before it.
  function Rounds(
    task: Task, commands: Commands, baseline: Run, k: nat, ws: Workspace, failure: string, done: seq<Attempt>)
    : (Workspace, Result)
    decreases Limit(task) + 1 - k
  {
    if k > Limit(task) then (ws, Result(Failed, baseline, done, {}))
    else
      var before := WorkspaceHashes(baseline.files);
      var allowed := AllowedFiles(task);
      var agent := commands.agent(k, failure, ws[[FAILURE_FILE] := failure]);
      var tampered := Tampered(agent.files, ProtectedHashes(task));
      var strayed := OutOfScope(agent.files, before, allowed);
      if tampered != {} then (agent.files, Result(Cheated, baseline, done, tampered))
      else if strayed != {} then (agent.files, Result(Cheated, baseline, done, strayed))
      else
        var validation := commands.validate(k, PurgePycache(agent.files));
        var attempts := done + [Attempt(k, agent, validation)];
        var strayedLater := OutOfScope(validation.files, before, allowed);
        if strayedLater != {} then (validation.files, Result(Cheated, baseline, attempts, strayedLater))
        else if validation.ok then (validation.files, Result(Solved, baseline, attempts, {}))
        else Rounds(task, commands, baseline, k + 1, validation.files, validation.output, attempts)
  }

  function Play(task: Task, commands: Commands): (Workspace, Result) {
    var baseline := commands.validate(0, PurgePycache(task.files));
    if baseline.ok then (baseline.files, Result(InvalidFixture, baseline, [], {}))
    else Rounds(task, commands, baseline, 1, baseline.files, baseline.output, [])
  }

  method RunCodingBenchTask(task: Task, commands: Commands) returns (workspace: Workspace, result: Result)
    ensures (workspace, result) == Play(task, commands)
  {
    workspace := task.files;
    var allowed := AllowedFiles(task);
    var protectedHashes := ProtectedHashes(task);
    workspace := PurgePycache(workspace);
    var baseline := commands.validate(0, workspace);
    workspace := baseline.files;
    if baseline.ok {
      return workspace, Result(InvalidFixture, baseline, [], {});
    }
    var before := WorkspaceHashes(workspace);
    var attempts: seq<Attempt> := [];
    var lastFailure := baseline.output;
    for index := 1 to Limit(task) + 1
      invariant Play(task, commands) == Rounds(task, commands, baseline, index, workspace, lastFailure, attempts)
    {
      workspace := workspace[[FAILURE_FILE] := lastFailure];
      var agent := commands.agent(index, lastFailure, workspace);
      workspace := agent.files;
      var tampered := Tampered(workspace, protectedHashes);
      if tampered != {} {
        return workspace, Result(Cheated, baseline, attempts, tampered);
      }
      var strayed := OutOfScope(workspace, before, allowed);
      if strayed != {} {
        return workspace, Result(Cheated, baseline, attempts, strayed);
      }
      workspace := PurgePycache(workspace);
      var validation := commands.validate(index, workspace);
      workspace := validation.files;
      attempts := attempts + [Attempt(index, agent, validation)];
      strayed := OutOfScope(workspace, before, allowed);
      if strayed != {} {
        return workspace, Result(Cheated, baseline, attempts, strayed);
      }
      if validation.ok {
        return workspace, Result(Solved, baseline, attempts, {});
      }
      lastFailure := validation.output;
    }
    result := Result(Failed, baseline, attempts, {});
  }

  // ---------- What the checks mean ----------

  // Both hold the same at `p`: nothing, or the same text.
  ghost predicate SameAt(p: Path, a: Workspace, b: Workspace) {
    (p in a <==> p in b) && (p in a ==> a[p] == b[p])
  }

  // Out of scope are the files that changed, outside ignored paths and allowed files.
  lemma OutOfScopeMeans(ws: Workspace, before: Workspace, allowed: set<Path>, p: Path)
    ensures p in OutOfScope(ws, WorkspaceHashes(before), allowed) <==>
            !IgnoredWorkspacePath(p) && p !in allowed && !SameAt(p, ws, before)
  {
    var a, b := WorkspaceHashes(ws), WorkspaceHashes(before);
    assert p in a <==> p in ws && !IgnoredWorkspacePath(p);
    assert p in b <==> p in before && !IgnoredWorkspacePath(p);
  }

  lemma TamperedMeans(ws: Workspace, task: Task, p: Path)
    ensures p in Tampered(ws, ProtectedHashes(task)) <==> p in ProtectedFiles(task) && !SameAt(p, ws, task.files)
  {
  }

  ghost predicate InScope(task: Task, base: Workspace, ws: Workspace) {
    forall p :: !IgnoredWorkspacePath(p) && p !in AllowedFiles(task) ==> SameAt(p, ws, base)
  }

  ghost predicate Untouched(task: Task, ws: Workspace) {
    forall p :: p in ProtectedFiles(task) ==> SameAt(p, ws, task.files)
  }

  lemma ChecksMean(task: Task, base: Workspace, ws: Workspace)
    ensures OutOfScope(ws, WorkspaceHashes(base), AllowedFiles(task)) == {} <==> InScope(task, base, ws)
    ensures Tampered(ws, ProtectedHashes(task)) == {} <==> Untouched(task, ws)
  {
    forall p ensures p in OutOfScope(ws, WorkspaceHashes(base), AllowedFiles(task)) <==>
                     !IgnoredWorkspacePath(p) && p !in AllowedFiles(task) && !SameAt(p, ws, base)
    {
      OutOfScopeMeans(ws, base, AllowedFiles(task), p);
    }
    forall p ensures p in Tampered(ws, ProtectedHashes(task)) <==> p in ProtectedFiles(task) && !SameAt(p, ws, task.files) {
      TamperedMeans(ws, task, p);
    }
  }

  // An attempt that went through: the agent left the protected files alone, and neither it nor the validation left the scope.
  ghost predicate Clean(task: Task, base: Workspace, attempt: Attempt) {
    && Untouched(task, attempt.agent.files)
    && InScope(task, base, attempt.agent.files)
    && InScope(task, base, attempt.validation.files)
  }

  // The two baselines chained: a file seen unchanged since the fixture and since the first validation holds its fixture text
  // after the last one too.
  lemma FixtureTextAfter(task: Task, base: Workspace, attempt: Attempt, p: Path)
    requires Clean(task, base, attempt) && p in ProtectedFiles(task) && !IgnoredWorkspacePath(p)
    ensures SameAt(p, attempt.validation.files, task.files)
  {
    assert SameAt(p, attempt.agent.files, task.files);
    assert SameAt(p, attempt.agent.files, base);
  }

  ghost predicate CleanFailures(task: Task, base: Workspace, attempts: seq<Attempt>) {
    forall i :: 0 <= i < |attempts| ==> attempts[i].index == i + 1 && !attempts[i].validation.ok && Clean(task, base, attempts[i])
  }

  // The run of the test command before attempt `i + 1`.
  function Before(baseline: Run, attempts: seq<Attempt>, i: nat): Run
    requires i <= |attempts|
  {
    if i == 0 then baseline else attempts[i - 1].validation
  }

  // The agent's run in attempt `i + 1`: it starts from what the test command left, with that command's output in a file.
  function NextAgent(commands: Commands, baseline: Run, attempts: seq<Attempt>, i: nat): Run
    requires i <= |attempts|
  {
    var last := Before(baseline, attempts, i);
    commands.agent(i + 1, last.output, last.files[[FAILURE_FILE] := last.output])
  }

  // Each command ran where the one before it ended.
  ghost predicate Chained(commands: Commands, baseline: Run, attempts: seq<Attempt>) {
    forall i :: 0 <= i < |attempts| ==> Link(commands, baseline, attempts, i)
  }

  ghost predicate Link(commands: Commands, baseline: Run, attempts: seq<Attempt>, i: nat)
    requires i < |attempts|
  {
    && attempts[i].agent == NextAgent(commands, baseline, attempts, i)
    && attempts[i].validation == commands.validate(i + 1, PurgePycache(attempts[i].agent.files))
  }

  // Why a run was called off in workspace `ws`: the files that stray from the fixture or from the scope.
  ghost predicate Blamed(task: Task, base: Workspace, ws: Workspace, blamed: set<Path>) {
    && blamed != {}
    && (|| (forall p :: p in blamed <==> p in ProtectedFiles(task) && !SameAt(p, ws, task.files))
        || (forall p :: p in blamed <==> !IgnoredWorkspacePath(p) && p !in AllowedFiles(task) && !SameAt(p, ws, base)))
  }

  // What each status says about the attempts and the final workspace.
  ghost predicate Sound(task: Task, commands: Commands, ws: Workspace, result: Result) {
    var n := |result.attempts|;
    var base := result.baseline.files;
    && Chained(commands, result.baseline, result.attempts)
    && match result.status
       case InvalidFixture => result.baseline.ok && n == 0 && ws == base
       case Solved =>
         && !result.baseline.ok && 1 <= n <= Limit(task)
         && CleanFailures(task, base, result.attempts[..n - 1])
         && result.attempts[n - 1].index == n
         && result.attempts[n - 1].validation.ok && Clean(task, base, result.attempts[n - 1])
         && ws == result.attempts[n - 1].validation.files
       case Failed =>
         && !result.baseline.ok && n == Limit(task) && CleanFailures(task, base, result.attempts)
         && ws == Before(result.baseline, result.attempts, n).files
       case Cheated =>
         && !result.baseline.ok
         && Blamed(task, base, ws, result.blamed)
         && (CheatedByAgent(task, commands, ws, result) || CheatedByTest(task, ws, result))
  }

  // The agent of the attempt after the listed ones strayed.
  ghost predicate CheatedByAgent(task: Task, commands: Commands, ws: Workspace, result: Result) {
    var n := |result.attempts|;
    && n < Limit(task)
    && CleanFailures(task, result.baseline.files, result.attempts)
    && ws == NextAgent(commands, result.baseline, result.attempts, n).files
    && !(Untouched(task, ws) && InScope(task, result.baseline.files, ws))
  }

  // The agent of the last attempt did not stray, but the test command after it did.
  ghost predicate CheatedByTest(task: Task, ws: Workspace, result: Result) {
    var n := |result.attempts|;
    var base := result.baseline.files;
    && 1 <= n <= Limit(task)
    && CleanFailures(task, base, result.attempts[..n - 1])
    && Untouched(task, result.attempts[n - 1].agent.files)
    && InScope(task, base, result.attempts[n - 1].agent.files)
    && ws == result.attempts[n - 1].validation.files
    && !InScope(task, base, ws)
  }

  // Where the rounds stand before attempt `k`.
  ghost predicate Standing(
    task: Task, commands: Commands, baseline: Run, k: nat, ws: Workspace, failure: string, done: seq<Attempt>) {
    && !baseline.ok && 1 <= k <= Limit(task) + 1
    && |done| == k - 1 && CleanFailures(task, baseline.files, done) && Chained(commands, baseline, done)
    && Before(baseline, done, k - 1).files == ws && Before(baseline, done, k - 1).output == failure
  }

  lemma {:induction false} RoundsAreSound(
    task: Task, commands: Commands, baseline: Run, k: nat, ws: Workspace, failure: string, done: seq<Attempt>)
    requires Standing(task, commands, baseline, k, ws, failure, done)
    ensures var (after, result) := Rounds(task, commands, baseline, k, ws, failure, done);
            Sound(task, commands, after, result) && result.baseline == baseline
    decreases Limit(task) + 1 - k
  {
    if k > Limit(task) {
    } else {
      var agent := commands.agent(k, failure, ws[[FAILURE_FILE] := failure]);
      var attempt := Attempt(k, agent, commands.validate(k, PurgePycache(agent.files)));
      var before, allowed := WorkspaceHashes(baseline.files), AllowedFiles(task);
      var tampered := Tampered(agent.files, ProtectedHashes(task));
      var strayed := OutOfScope(agent.files, before, allowed);
      var strayedLater := OutOfScope(attempt.validation.files, before, allowed);
      if tampered != {} {
        AgentStrays(task, commands, baseline, k, ws, failure, done, agent, tampered);
      } else if strayed != {} {
        AgentStrays(task, commands, baseline, k, ws, failure, done, agent, strayed);
      } else {
        OneMoreAttempt(task, commands, baseline, k, ws, failure, done, attempt);
        ChecksMean(task, baseline.files, agent.files);
        if strayedLater != {} {
          TestStrays(task, commands, baseline, k, done, attempt, strayedLater);
        } else {
          ChecksMean(task, baseline.files, attempt.validation.files);
          if !attempt.validation.ok {
            RoundsAreSound(task, commands, baseline, k + 1, attempt.validation.files, attempt.validation.output, done + [attempt]);
          }
        }
      }
    }
  }

  lemma AgentStrays(
    task: Task, commands: Commands, baseline: Run, k: nat, ws: Workspace, failure: string, done: seq<Attempt>,
    agent: Run, blamed: set<Path>)
    requires Standing(task, commands, baseline, k, ws, failure, done) && k <= Limit(task)
    requires agent == commands.agent(k, failure, ws[[FAILURE_FILE] := failure])
    requires blamed != {}
    requires || blamed == Tampered(agent.files, ProtectedHashes(task))
             || blamed == OutOfScope(agent.files, WorkspaceHashes(baseline.files), AllowedFiles(task))
    ensures Sound(task, commands, agent.files, Result(Cheated, baseline, done, blamed))
  {
    BlameIsReal(task, baseline.files, agent.files);
    ChecksMean(task, baseline.files, agent.files);
  }

  lemma TestStrays(
    task: Task, commands: Commands, baseline: Run, k: nat, done: seq<Attempt>, attempt: Attempt, blamed: set<Path>)
    requires !baseline.ok && 1 <= k <= Limit(task) && |done| == k - 1
    requires CleanFailures(task, baseline.files, done) && Chained(commands, baseline, done + [attempt])
    requires (done + [attempt])[..k - 1] == done
    requires Untouched(task, attempt.agent.files) && InScope(task, baseline.files, attempt.agent.files)
    requires blamed != {}
    requires blamed == OutOfScope(attempt.validation.files, WorkspaceHashes(baseline.files), AllowedFiles(task))
    ensures Sound(task, commands, attempt.validation.files, Result(Cheated, baseline, done + [attempt], blamed))
  {
    BlameIsReal(task, baseline.files, attempt.validation.files);
    ChecksMean(task, baseline.files, attempt.validation.files);
  }

  lemma OneMoreAttempt(
    task: Task, commands: Commands, baseline: Run, k: nat, ws: Workspace, failure: string, done: seq<Attempt>,
    attempt: Attempt)
    requires Standing(task, commands, baseline, k, ws, failure, done) && k <= Limit(task)
    requires attempt.index == k && attempt.agent == commands.agent(k, failure, ws[[FAILURE_FILE] := failure])
    requires attempt.validation == commands.validate(k, PurgePycache(attempt.agent.files))
    ensures (done + [attempt])[..k - 1] == done
    ensures Chained(commands, baseline, done + [attempt])
    ensures Clean(task, baseline.files, attempt) && !attempt.validation.ok
            ==> Standing(task, commands, baseline, k + 1, attempt.validation.files, attempt.validation.output, done + [attempt])
  {
    ChainedStep(commands, baseline, done, attempt);
  }

  lemma ChainedStep(commands: Commands, baseline: Run, done: seq<Attempt>, attempt: Attempt)
    requires Chained(commands, baseline, done)
    requires Link(commands, baseline, done + [attempt], |done|)
    ensures Chained(commands, baseline, done + [attempt])
  {
    var attempts := done + [attempt];
    forall i | 0 <= i < |done| ensures Link(commands, baseline, attempts, i) {
      assert Link(commands, baseline, done, i);
      assert Before(baseline, attempts, i) == Before(baseline, done, i);
    }
  }

  lemma BlameIsReal(task: Task, base: Workspace, ws: Workspace)
    ensures forall p :: p in OutOfScope(ws, WorkspaceHashes(base), AllowedFiles(task)) <==>
                        !IgnoredWorkspacePath(p) && p !in AllowedFiles(task) && !SameAt(p, ws, base)
    ensures forall p :: p in Tampered(ws, ProtectedHashes(task)) <==> p in ProtectedFiles(task) && !SameAt(p, ws, task.files)
  {
    forall p ensures p in OutOfScope(ws, WorkspaceHashes(base), AllowedFiles(task)) <==>
                     !IgnoredWorkspacePath(p) && p !in AllowedFiles(task) && !SameAt(p, ws, base)
    {
      OutOfScopeMeans(ws, base, AllowedFiles(task), p);
    }
  }

  // Every run, with every agent and every test command: the status is sound.
  lemma RunIsSound(task: Task, commands: Commands)
    ensures Sound(task, commands, Play(task, commands).0, Play(task, commands).1)
    ensures Play(task, commands).1.baseline == commands.validate(0, PurgePycache(task.files))
  {
    var baseline := commands.validate(0, PurgePycache(task.files));
    if !baseline.ok {
      RoundsAreSound(task, commands, baseline, 1, baseline.files, baseline.output, []);
    }
  }
}
