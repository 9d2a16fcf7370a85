/** What a solved task of the coding bench is worth: which files are sure to be as the task had them, by their names. */
module CodingBenchTheorems {
  import opened CodingBench

  // ---------- Names, letter by letter ----------

  // The word "test", in any letter case.
  ghost predicate TestWord(w: string) {
    && |w| == 4
    && w[0] in {'t', 'T'} && w[1] in {'e', 'E'} && w[2] in {'s', 'S'} && w[3] in {'t', 'T'}
  }

  ghost predicate TestDirectory(w: string) {
    || TestWord(w)
    || (|w| == 5 && TestWord(w[..4]) && w[4] in {'s', 'S'})
  }

  // "test_" and anything.
  ghost predicate StartsWithTest(name: string) {
    |name| >= 5 && TestWord(name[..4]) && name[4] == '_'
  }

  // Anything, then "_test".
  ghost predicate EndsWithTest(stem: string) {
    |stem| >= 5 && stem[|stem| - 5] == '_' && TestWord(stem[|stem| - 4..])
  }

  ghost predicate NoDot(s: string) {
    forall k :: 0 <= k < |s| ==> s[k] != '.'
  }

  // A name is a stem and an extension, if a dot inside the name stands before the last part; other names are stems.
  ghost predicate Parts(name: string, stem: string, extension: string) {
    if extension == ""
    then stem == name && (name == "" || NoDot(name[1..]) || name[|name| - 1] == '.')
    else name == stem + "." + extension && stem != "" && NoDot(extension)
  }

  ghost predicate StemEndsWithTest(name: string) {
    exists stem, extension :: Parts(name, stem, extension) && EndsWithTest(stem)
  }

  // The names that mark a test: of the file, or of a directory above it.
  ghost predicate TestFile(p: Path) {
    || (p != [] && (StartsWithTest(p[|p| - 1]) || StemEndsWithTest(p[|p| - 1])))
    || exists k :: 0 <= k < |p| && TestDirectory(p[k])
  }

  // The task files that are guarded: those that are a test by name, and those that the test command names.
  ghost predicate Guarded(task: Task, p: Path) {
    p in task.files && (TestFile(p) || p in task.referenced)
  }

  ghost predicate CompiledPython(name: string) {
    exists stem :: stem != "" && (name == stem + ".pyc" || name == stem + ".pyo")
  }

  // The paths that no check looks at.
  ghost predicate Ignored(p: Path) {
    && p != []
    && (|| (exists k :: 0 <= k < |p| && (p[k] == "__pycache__" || p[k] == ".pytest_cache"))
        || p[|p| - 1] == ".mako_bench_last_failure.txt"
        || CompiledPython(p[|p| - 1])
        || p[0] == "AI_\U{534F}\U{4F5C}\U{4EA4}\U{63A5}" || p[0] == ".quantagent"
        || p[0] == "quantagent_sessions" || p[0] == "quantagent_tasks")
  }

  // ---------- The names as the source computes them ----------

  lemma {:induction false} LastDotMeans(name: string)
    ensures -1 <= LastDot(name) < |name|
    ensures LastDot(name) >= 0 ==> name[LastDot(name)] == '.'
    ensures forall k :: LastDot(name) < k < |name| ==> name[k] != '.'
  {
    if name == "" || name[|name| - 1] == '.' {
    } else {
      LastDotMeans(name[..|name| - 1]);
    }
  }

  // The stem and what follows the last dot are the two parts of a name.
  lemma StemParts(name: string)
    ensures Parts(name, Stem(name), if HasSuffix(name) then name[LastDot(name) + 1..] else "")
  {
    LastDotMeans(name);
    if HasSuffix(name) {
      var d := LastDot(name);
      assert name == name[..d] + "." + name[d + 1..];
    }
  }

  // A name has one stem.
  lemma PartsAreUnique(name: string, stem: string, extension: string)
    requires Parts(name, stem, extension)
    ensures stem == Stem(name)
    ensures extension != "" ==> Suffix(name) == "." + extension
    ensures extension == "" ==> Suffix(name) == ""
  {
    LastDotMeans(name);
    if extension == "" {
      DotInside(name);
    } else {
      var d := |stem|;
      assert name[d] == '.';
      forall k | d < k < |name| ensures name[k] != '.' {
        assert name[k] == extension[k - d - 1];
      }
      assert LastDot(name) == d;
      assert name[..d] == stem && name[d..] == "." + extension;
    }
  }

  lemma DotInside(name: string)
    ensures HasSuffix(name) ==> !NoDot(name[1..]) && name[|name| - 1] != '.'
  {
    LastDotMeans(name);
    if HasSuffix(name) {
      assert name[1..][LastDot(name) - 1] == '.';
    }
  }

  lemma LowerTest(w: string)
    ensures Lower(w) == "test" <==> TestWord(w)
    ensures Lower(w) == "tests" <==> |w| == 5 && TestWord(w[..4]) && w[4] in {'s', 'S'}
  {
    var l := Lower(w);
    assert |l| == 4 ==> l == [l[0], l[1], l[2], l[3]];
    assert |l| == 5 ==> l == [l[0], l[1], l[2], l[3], l[4]];
  }

  lemma LowerSlice(s: string, i: nat, j: nat)
    requires i <= j <= |s|
    ensures Lower(s)[i..j] == Lower(s[i..j])
  {
  }

  lemma LowerStarts(name: string)
    ensures "test_" <= Lower(name) <==> StartsWithTest(name)
  {
    if |name| >= 5 {
      LowerSlice(name, 0, 4);
      LowerTest(name[..4]);
      assert name[0..4] == name[..4];
      var five := "test_";
      assert five == "test" + "_";
      assert Lower(name)[..5] == Lower(name)[..4] + [Lower(name)[4]];
      assert five <= Lower(name) <==> Lower(name)[..5] == five;
    }
  }

  lemma LowerEnds(stem: string)
    requires |stem| >= 5
    ensures Lower(stem)[|stem| - 5..] == "_test" <==> EndsWithTest(stem)
  {
    var n := |stem|;
    LowerSlice(stem, n - 4, n);
    LowerTest(stem[n - 4..]);
    assert stem[n - 4..n] == stem[n - 4..];
    var five := "_test";
    assert five == "_" + "test";
    assert Lower(stem)[n - 5..] == [Lower(stem)[n - 5]] + Lower(stem)[n - 4..n];
  }

  // The source looks for tests where the names say so.
  lemma TestFileMeans(p: Path)
    ensures LooksLikeTestFile(p) <==> TestFile(p)
  {
    var name := Name(p);
    var stem := Stem(name);
    LowerStarts(name);
    StemParts(name);
    if |stem| >= 5 {
      LowerEnds(stem);
    }
    forall s, extension | Parts(name, s, extension) ensures s == stem {
      PartsAreUnique(name, s, extension);
    }
    forall k | 0 <= k < |p| ensures Lower(p[k]) in {"test", "tests"} <==> TestDirectory(p[k]) {
      LowerTest(p[k]);
    }
  }

  lemma ProtectedMeans(task: Task, p: Path)
    ensures p in ProtectedFiles(task) <==> Guarded(task, p)
  {
    TestFileMeans(p);
  }

  lemma SuffixMeans(name: string, extension: string)
    requires extension != "" && NoDot(extension)
    ensures Suffix(name) == "." + extension <==> exists stem :: stem != "" && name == stem + "." + extension
  {
    LastDotMeans(name);
    if Suffix(name) == "." + extension {
      assert name == name[..LastDot(name)] + "." + extension;
    }
    forall stem | stem != "" && name == stem + "." + extension ensures Suffix(name) == "." + extension {
      PartsAreUnique(name, stem, extension);
    }
  }

  lemma IgnoredMeans(p: Path)
    ensures IgnoredWorkspacePath(p) <==> Ignored(p)
  {
    var name := Name(p);
    SuffixMeans(name, "pyc");
    SuffixMeans(name, "pyo");
    forall stem ensures stem + "." + "pyc" == stem + ".pyc" && stem + "." + "pyo" == stem + ".pyo" {
    }
    assert "__pycache__" in p <==> exists k :: 0 <= k < |p| && p[k] == "__pycache__";
    assert ".pytest_cache" in p <==> exists k :: 0 <= k < |p| && p[k] == ".pytest_cache";
  }

  // ---------- Solved tasks ----------

  // A solved task: the baseline failed, only the last validation passed, every change since the baseline outside ignored paths
  // is to a task file that is not guarded, and every guarded file outside ignored paths holds the text that the task has for it.
  lemma SolvedIsSound(task: Task, commands: Commands)
    requires Play(task, commands).1.status == Solved
    ensures var (ws, result) := Play(task, commands);
            var n := |result.attempts|;
            && !result.baseline.ok && 1 <= n <= Limit(task)
            && (forall i :: 0 <= i < n ==> (result.attempts[i].validation.ok <==> i == n - 1))
            && (forall p :: !Ignored(p) && !SameAt(p, ws, result.baseline.files) ==> p in task.files && !Guarded(task, p))
            && (forall p :: Guarded(task, p) && !Ignored(p) ==> SameAt(p, ws, task.files))
  {
    RunIsSound(task, commands);
    var (ws, result) := Play(task, commands);
    var n := |result.attempts|;
    var last := result.attempts[n - 1];
    forall i | 0 <= i < n - 1 ensures !result.attempts[i].validation.ok {
      assert result.attempts[..n - 1][i] == result.attempts[i];
    }
    forall p | !Ignored(p) && !SameAt(p, ws, result.baseline.files) ensures p in task.files && !Guarded(task, p) {
      IgnoredMeans(p);
      ProtectedMeans(task, p);
    }
    forall p | Guarded(task, p) && !Ignored(p) ensures SameAt(p, ws, task.files) {
      IgnoredMeans(p);
      ProtectedMeans(task, p);
      FixtureTextAfter(task, result.baseline.files, last, p);
    }
  }

  // The validation that passed saw every guarded file with its fixture text, ignored paths included; only files below a
  // __pycache__ directory are missing from what it saw.
  lemma ValidatedAgainstFixture(task: Task, commands: Commands, p: Path)
    requires Play(task, commands).1.status == Solved
    requires Guarded(task, p)
    ensures var attempts := Play(task, commands).1.attempts;
            && attempts != []
            && var last := attempts[|attempts| - 1];
               var seen := PurgePycache(last.agent.files);
               && last.validation == commands.validate(|attempts|, seen)
               && (p in seen <==> !(p != [] && "__pycache__" in p[..|p| - 1]))
               && (p in seen ==> seen[p] == task.files[p])
  {
    RunIsSound(task, commands);
    ProtectedMeans(task, p);
    var result := Play(task, commands).1;
    assert Link(commands, result.baseline, result.attempts, |result.attempts| - 1);
  }

  // ---------- Which files may change ----------

  // An agent that does nothing, and a test command that leaves one workspace when it fails first and another when it passes.
  function Staged(base: Workspace, final: Workspace): Commands {
    Commands((k, failure, ws) => Run(base, true, ""), (k, ws) => if k == 0 then Run(base, false, "") else Run(final, true, ""))
  }

  lemma StagedIsSolved(task: Task, base: Workspace, final: Workspace)
    requires Untouched(task, base) && InScope(task, base, final)
    ensures var (ws, result) := Play(task, Staged(base, final));
            result.status == Solved && ws == final && result.baseline.files == base
  {
    ChecksMean(task, base, base);
    ChecksMean(task, base, final);
  }

  ghost predicate HoldsFixtureTextAlways(task: Task, p: Path) {
    forall commands :: Play(task, commands).1.status == Solved ==> SameAt(p, Play(task, commands).0, task.files)
  }

  // Over all agents and test commands, a path is sure to be as the task has it in a solved task exactly when it is a guarded
  // task file outside the ignored paths.
  lemma ProtectedIff(task: Task, p: Path)
    ensures HoldsFixtureTextAlways(task, p) <==> Guarded(task, p) && !Ignored(p)
  {
    IgnoredMeans(p);
    ProtectedMeans(task, p);
    if Guarded(task, p) && !Ignored(p) {
      forall commands | Play(task, commands).1.status == Solved ensures SameAt(p, Play(task, commands).0, task.files) {
        SolvedIsSound(task, commands);
      }
    } else {
      var changed := task.files[p := (if p in task.files then task.files[p] else "") + "#"];
      var base := if p in task.files then task.files else changed;
      StagedIsSolved(task, base, changed);
    }
  }

  ghost predicate MayChange(task: Task, p: Path) {
    exists commands :: Play(task, commands).1.status == Solved
                       && !SameAt(p, Play(task, commands).0, Play(task, commands).1.baseline.files)
  }

  // A path may differ from the baseline in a solved task exactly when no check looks at it or it is a task file that is not
  // guarded.
  lemma MayChangeIff(task: Task, p: Path)
    ensures MayChange(task, p) <==> Ignored(p) || (p in task.files && !Guarded(task, p))
  {
    IgnoredMeans(p);
    ProtectedMeans(task, p);
    forall commands | Play(task, commands).1.status == Solved
                      && !SameAt(p, Play(task, commands).0, Play(task, commands).1.baseline.files)
      ensures Ignored(p) || (p in task.files && !Guarded(task, p))
    {
      SolvedIsSound(task, commands);
    }
    if Ignored(p) || (p in task.files && !Guarded(task, p)) {
      var base := task.files;
      var final := base[p := (if p in base then base[p] else "") + "#"];
      StagedIsSolved(task, base, final);
      var commands := Staged(base, final);
      assert !SameAt(p, Play(task, commands).0, Play(task, commands).1.baseline.files);
    }
  }
}
