/** What a gated apply leaves behind, however its steps end. */
module ApplyGateTheorems {
  import opened FileTree
  import opened Wrappers
  import opened Checkpoints
  import opened Isolation
  import opened ApplyGate

  // File systems before and after testing, and a review whose paths lie alike in the project and in the workspace, none of them
  // above the checkpoint's record.
  ghost predicate Sane(root: Path, files: Files, review: Review, test: Files -> TestRun, id: string) {
    && IsNormal(root) && IsTree(files) && IsTree(review.workspace)
    && Aligned(root, review, review.changed + review.added)
    && (forall rel :: rel in ChangedPaths(review) ==> !(Target(root, rel) < RecordPath(root, id)))
    && forall applied :: IsTree(applied) ==> IsTree(FilesAfter(test(applied), applied))
  }

  lemma PrepareMeans(files: Files, review: Review, request: Request)
    requires IsTree(files)
    ensures var (start, failure) := Prepare(files, review, request);
            && IsTree(start)
            && (failure.None? <==> && IsFile(files, review.recordFile)
                                   && (if request.newPreview.Some? then CanWrite(files, request.preview)
                                       else IsFile(files, request.preview)))
            && (failure.Some? ==> start == files)
            && (failure.None? ==> IsFile(start, request.preview) && IsFile(start, review.recordFile))
            && (forall p :: p != request.preview ==> FileAt(start, p) == FileAt(files, p))
  {
    if request.newPreview.Some? {
      WriteMeans(files, request.preview, Text(request.newPreview.value));
      if CanWrite(files, request.preview) {
        WriteKeepsFiles(files, request.preview, Text(request.newPreview.value));
        var start := Prepare(files, review, request).0;
        assert FileAt(start, review.recordFile).Some? <==> IsFile(start, review.recordFile);
      }
    }
  }

  // A checkpoint cannot be taken: some path leaves the project or is a directory, or there is no place for the record.
  ghost predicate Refused(root: Path, files: Files, review: Review, id: string) {
    (exists rel :: rel in ChangedPaths(review) && !Listable(root, files, rel)) || !CanWrite(files, RecordPath(root, id))
  }

  lemma SavedMeans(root: Path, files: Files, review: Review, id: string)
    requires IsNormal(root) && IsTree(files)
    ensures var (saved, created) := Create(root, files, ChangedPaths(review), id);
            && IsTree(saved)
            && (created.Err? <==> Refused(root, files, review, id))
            && (created.Err? ==> saved == files)
            && (created.Ok? ==> FileAt(saved, RecordPath(root, id)) == Some(Saved(created.value)))
            && (created.Ok? ==> forall p :: p != RecordPath(root, id) ==> FileAt(saved, p) == FileAt(files, p))
            && (created.Ok? ==> forall p :: IsDir(saved, p) ==> IsDir(files, p) || p < RecordPath(root, id))
  {
    var args := ChangedPaths(review);
    CreateRefusedIff(root, files, args, id);
    if rel :| rel in args && !Listable(root, files, rel) {
      var k :| 0 <= k < |args| && args[k] == rel;
    }
    var (saved, created) := Create(root, files, args, id);
    if created.Ok? {
      forall p
        ensures FileAt(saved, p) == if p == RecordPath(root, id) then Some(Saved(created.value)) else FileAt(files, p)
        ensures IsDir(saved, p) ==> IsDir(files, p) || p < RecordPath(root, id)
      {
        LookGivesFile(saved, p);
        LookGivesFile(files, p);
        assert Look(saved, p).Some? <==> p in saved;
      }
    }
  }

  // ---------- The stages of a run ----------

  // The files when the gate decides, after the checkpoint, after applying, and after testing.
  function Started(files: Files, review: Review, request: Request): Files {
    Prepare(files, review, request).0
  }

  function SavedFiles(root: Path, files: Files, review: Review, request: Request, id: string): Files {
    Create(root, Started(files, review, request), ChangedPaths(review), id).0
  }

  function Applied(root: Path, files: Files, review: Review, request: Request, id: string): Files {
    ApplyReview(root, SavedFiles(root, files, review, request, id), review).0
  }

  function Run(root: Path, files: Files, review: Review, request: Request, test: Files -> TestRun, id: string): TestRun {
    test(Applied(root, files, review, request, id))
  }

  function Tested(root: Path, files: Files, review: Review, request: Request, test: Files -> TestRun, id: string): Files {
    FilesAfter(Run(root, files, review, request, test, id), Applied(root, files, review, request, id))
  }

  // The gate lets the review through, and a checkpoint can be taken.
  ghost predicate Opens(root: Path, files: Files, review: Review, request: Request, id: string) {
    && Prepare(files, review, request).1.None? && Allowed(review, request)
    && !Refused(root, Started(files, review, request), review, id)
  }

  // Applying completes, and leaves the preview.
  ghost predicate Applies(root: Path, files: Files, review: Review, request: Request, id: string) {
    && AllCopyable(root, SavedFiles(root, files, review, request, id), review)
    && (request.preview == review.recordFile || !Deletes(root, review, request.preview))
  }

  // The checkpoint's record outlives applying and testing.
  ghost predicate RecordKept(
    root: Path, files: Files, review: Review, request: Request, test: Files -> TestRun, id: string)
  {
    Opens(root, files, review, request, id) ==>
      RecordThere(root, Started(files, review, request), ChangedPaths(review), id, Tested(root, files, review, request, test, id))
  }

  ghost predicate CanRollBack(
    root: Path, files: Files, review: Review, request: Request, test: Files -> TestRun, id: string)
  {
    AllRestorable(root, Started(files, review, request), Tested(root, files, review, request, test, id), ChangedPaths(review))
  }

  lemma ListedIsTarget(root: Path, review: Review, rel: PathArg)
    requires rel in ChangedPaths(review) && Resolve(root, rel).Ok?
    ensures Resolve(root, rel) == Ok(Target(root, rel)) && Lists(ChangedPaths(review), root, Target(root, rel))
  {
    var args := ChangedPaths(review);
    var k :| 0 <= k < |args| && args[k] == rel;
    assert Resolve(root, args[k]) == Ok(Target(root, rel));
  }

  lemma SavedIsAppliable(
    root: Path, files: Files, review: Review, request: Request, test: Files -> TestRun, id: string)
    requires Sane(root, files, review, test, id) && Opens(root, files, review, request, id)
    ensures Appliable(root, SavedFiles(root, files, review, request, id), review)
  {
    var start, saved := Started(files, review, request), SavedFiles(root, files, review, request, id);
    PrepareMeans(files, review, request);
    SavedMeans(root, start, review, id);
    ChangedPathsMean(review);
    assert FileAt(saved, review.recordFile).Some? <==> IsFile(saved, review.recordFile);
    forall rel | rel in review.changed + review.added ensures !IsDir(saved, Target(root, rel)) {
      assert rel in ChangedPaths(review) && Listable(root, start, rel);
    }
  }

  // The files after applying.
  lemma AppliedMeans(root: Path, files: Files, review: Review, request: Request, test: Files -> TestRun, id: string)
    requires Sane(root, files, review, test, id) && Opens(root, files, review, request, id)
    ensures var saved := SavedFiles(root, files, review, request, id);
            var (applied, status) := ApplyReview(root, saved, review);
            && applied == Applied(root, files, review, request, id) && IsTree(applied)
            && (status.Ok? <==> AllCopyable(root, saved, review))
            && (status.Ok? ==> status.value == "applied")
            && (status.Ok? && IsFile(applied, request.preview) <==> Applies(root, files, review, request, id))
  {
    var start, saved := Started(files, review, request), SavedFiles(root, files, review, request, id);
    SavedIsAppliable(root, files, review, request, test, id);
    ApplyMeans(root, saved, review);
    PrepareMeans(files, review, request);
    SavedMeans(root, start, review, id);
    var (applied, status) := ApplyReview(root, saved, review);
    assert FileAt(saved, request.preview).Some?;
    assert FileAt(applied, request.preview).Some? <==> IsFile(applied, request.preview);
  }

  // ---------- How a run ends ----------

  // A run from the test command on.
  lemma TestMeans(
    root: Path, files: Files, review: Review, request: Request, test: Files -> TestRun, id: string, rollback: bool)
    requires Sane(root, files, review, test, id) && Opens(root, files, review, request, id)
    requires RecordKept(root, files, review, request, test, id)
    ensures var run := Run(root, files, review, request, test, id);
            var (after, result) :=
              TestAndRollBack(root, Applied(root, files, review, request, id), run, id, rollback, "applied");
            && (result.Err? <==> run.Raised? || (!Passed(run) && rollback && !CanRollBack(root, files, review, request, test, id)))
            && (run.Raised? ==> after == run.files && result == Err(TestRaised))
            && (result.Ok? ==> result.value == GateResult(Passed(run), true, true, id, Some(Returncode(run)), !Passed(run) && rollback))
  {
    AppliedMeans(root, files, review, request, test, id);
    PrepareMeans(files, review, request);
    RestoreAfterAnything(root, Started(files, review, request), ChangedPaths(review), id, Tested(root, files, review, request, test, id));
  }

  // The review or its preview cannot be loaded, or the new preview cannot be saved.
  ghost predicate Unprepared(files: Files, review: Review, request: Request) {
    || !IsFile(files, review.recordFile)
    || if request.newPreview.Some? then !CanWrite(files, request.preview) else !IsFile(files, request.preview)
  }

  // How a gated apply ends, exactly. It ends with an error when the review or its preview cannot be loaded or saved; or when the
  // gate opens and the checkpoint is refused, some path cannot be copied, the preview is deleted, the test command raises, or a
  // rollback is due and some listed path cannot be put back. Otherwise what was allowed was applied, it is ok if the test command
  // passed or there is none, and it was rolled back if it is not ok and a rollback was asked for.
  lemma GateOutcome(
    root: Path, files: Files, review: Review, request: Request, test: Files -> TestRun, id: string, rollback: bool)
    requires Sane(root, files, review, test, id) && RecordKept(root, files, review, request, test, id)
    ensures var result := Gated(root, files, review, request, test, id, rollback).1;
            var run := Run(root, files, review, request, test, id);
            var opens := Opens(root, files, review, request, id);
            var ok := request.command == [] || (run.Finished? && run.returncode == 0);
            && (result.Err? <==>
                 || Unprepared(files, review, request)
                 || (Allowed(review, request) && !opens)
                 || (opens && !Applies(root, files, review, request, id))
                 || (opens && request.command != [] &&
                     (run.Raised? || (!ok && rollback && !CanRollBack(root, files, review, request, test, id)))))
            && (result.Ok? ==>
                 result.value ==
                 if !Allowed(review, request) then GateResult(false, false, false, "", None, false)
                 else GateResult(ok, true, true, id,
                                 if request.command == [] then None else Some(if run.Blocked? then 126 else run.returncode),
                                 !ok && rollback))
  {
    var start := Started(files, review, request);
    PrepareMeans(files, review, request);
    SavedMeans(root, start, review, id);
    if Opens(root, files, review, request, id) {
      AppliedMeans(root, files, review, request, test, id);
      TestMeans(root, files, review, request, test, id, rollback);
    }
  }

  // Which error ends a gated apply.
  lemma GateErrors(
    root: Path, files: Files, review: Review, request: Request, test: Files -> TestRun, id: string, rollback: bool)
    requires Sane(root, files, review, test, id) && RecordKept(root, files, review, request, test, id)
    requires Gated(root, files, review, request, test, id, rollback).1.Err?
    ensures var error := Gated(root, files, review, request, test, id, rollback).1.error;
            if !IsFile(files, review.recordFile) then error == ReviewError(NoSuchReview)
            else if Unprepared(files, review, request) then
              if request.newPreview.Some? then error.PreviewFault? else error == NoSuchPreview
            else if !Opens(root, files, review, request, id) then error.CheckpointError?
            else if !AllCopyable(root, SavedFiles(root, files, review, request, id), review) then error.ReviewError?
            else if !Applies(root, files, review, request, id) then error == NoSuchPreview
            else if Run(root, files, review, request, test, id).Raised? then error == TestRaised
            else error.CheckpointError?
  {
    GateOutcome(root, files, review, request, test, id, rollback);
    PrepareMeans(files, review, request);
    SavedMeans(root, Started(files, review, request), review, id);
    if Opens(root, files, review, request, id) {
      AppliedMeans(root, files, review, request, test, id);
      TestMeans(root, files, review, request, test, id, rollback);
    }
  }

  // A failing gated apply is rolled back exactly when that was asked for, the test command ended by itself or was blocked, and
  // every listed path can be put back.
  lemma RolledBackIff(
    root: Path, files: Files, review: Review, request: Request, test: Files -> TestRun, id: string, rollback: bool)
    requires Sane(root, files, review, test, id) && RecordKept(root, files, review, request, test, id)
    requires Opens(root, files, review, request, id) && Applies(root, files, review, request, id) && request.command != []
    requires !Passed(Run(root, files, review, request, test, id))
    ensures var result := Gated(root, files, review, request, test, id, rollback).1;
            (result.Ok? && result.value.rolledBack) <==>
            && rollback && !Run(root, files, review, request, test, id).Raised?
            && CanRollBack(root, files, review, request, test, id)
  {
    GateOutcome(root, files, review, request, test, id, rollback);
  }

  // A test command that raises leaves the review applied, whether a rollback was asked for or not.
  lemma RaisedTestStays(
    root: Path, files: Files, review: Review, request: Request, test: Files -> TestRun, id: string, rollback: bool)
    requires Sane(root, files, review, test, id)
    requires Opens(root, files, review, request, id) && Applies(root, files, review, request, id) && request.command != []
    requires Run(root, files, review, request, test, id).Raised?
    ensures Gated(root, files, review, request, test, id, rollback)
         == (Run(root, files, review, request, test, id).files, Err(TestRaised))
  {
    PrepareMeans(files, review, request);
    SavedMeans(root, Started(files, review, request), review, id);
    AppliedMeans(root, files, review, request, test, id);
  }

  // ---------- What a run leaves ----------

  lemma FrontIsPart(root: Path, files: Files, review: Review, rels: seq<PathArg>)
    ensures forall rel :: rel in CopiedFront(root, files, review, rels) ==> rel in rels
  {
  }

  lemma {:induction false} NothingCopied(root: Path, review: Review, rels: seq<PathArg>, path: Path)
    requires forall rel :: rel in rels ==> Target(root, rel) != path
    ensures Copied(root, review, rels, path).None?
  {
    if rels == [] {
    } else {
      NothingCopied(root, review, rels[1..], path);
    }
  }

  // Applying touches only paths of the review and its record, whether it completes or not.
  lemma UnlistedUntouched(
    root: Path, files: Files, review: Review, request: Request, test: Files -> TestRun, id: string, path: Path)
    requires Sane(root, files, review, test, id) && Opens(root, files, review, request, id)
    requires !Lists(ChangedPaths(review), root, path) && path != RecordPath(root, id) && path != review.recordFile
    ensures FileAt(Applied(root, files, review, request, id), path) == FileAt(Started(files, review, request), path)
  {
    var start, saved := Started(files, review, request), SavedFiles(root, files, review, request, id);
    var rels := review.changed + review.added;
    PrepareMeans(files, review, request);
    SavedMeans(root, start, review, id);
    SavedIsAppliable(root, files, review, request, test, id);
    ApplyMeans(root, saved, review);
    ChangedPathsMean(review);
    forall rel | rel in rels || rel in review.deleted ensures Target(root, rel) != path {
      assert Listable(root, start, rel);
      ListedIsTarget(root, review, rel);
    }
    FrontIsPart(root, saved, review, rels);
    NothingCopied(root, review, CopiedFront(root, saved, review, rels), path);
  }

  // A gate that blocks or refuses changes no file but for a preview it saves. A rolled-back apply leaves every path of the review
  // with its earlier text, as read, and every other file as the test command left it.
  lemma GateProtectsFiles(
    root: Path, files: Files, review: Review, request: Request, test: Files -> TestRun, id: string, rollback: bool, path: Path)
    requires Sane(root, files, review, test, id) && RecordKept(root, files, review, request, test, id)
    ensures var (after, result) := Gated(root, files, review, request, test, id, rollback);
            var start := Started(files, review, request);
            && (path != request.preview ==> FileAt(start, path) == FileAt(files, path))
            && (!Opens(root, files, review, request, id) ==> after == start)
            && (result.Ok? && result.value.rolledBack ==>
                 FileAt(after, path) == FileAt(if Lists(ChangedPaths(review), root, path) then AsRead(start)
                                               else Tested(root, files, review, request, test, id), path))
  {
    var start, args := Started(files, review, request), ChangedPaths(review);
    var tested := Tested(root, files, review, request, test, id);
    var (after, result) := Gated(root, files, review, request, test, id, rollback);
    PrepareMeans(files, review, request);
    SavedMeans(root, start, review, id);
    GateOutcome(root, files, review, request, test, id, rollback);
    if result.Ok? && result.value.rolledBack {
      AppliedMeans(root, files, review, request, test, id);
      RestoreAfterAnything(root, start, args, id, tested);
      assert after == Restore(root, tested, id).0;
      assert Look(after, path) == RestoredLook(root, start, args, tested, path);
      LookGivesFile(after, path);
      LookGivesFile(tested, path);
      LookGivesFile(AsRead(start), path);
    }
  }

  // If testing changes no file outside the review, then after a rollback the file at a path other than the three records is as it
  // was before if and only if it is not a file of the review that held a carriage return.
  lemma RollbackRestoresIff(
    root: Path, files: Files, review: Review, request: Request, test: Files -> TestRun, id: string, path: Path)
    requires Sane(root, files, review, test, id) && RecordKept(root, files, review, request, test, id)
    requires path != RecordPath(root, id) && path != review.recordFile && path != request.preview
    requires !Lists(ChangedPaths(review), root, path) ==>
               FileAt(Tested(root, files, review, request, test, id), path) == FileAt(Applied(root, files, review, request, id), path)
    requires var result := Gated(root, files, review, request, test, id, true).1;
             result.Ok? && result.value.rolledBack
    ensures FileAt(Gated(root, files, review, request, test, id, true).0, path) == FileAt(files, path)
            <==> !(Lists(ChangedPaths(review), root, path) && IsFile(files, path) && HoldsReturn(files[path].content))
  {
    var start := Started(files, review, request);
    GateProtectsFiles(root, files, review, request, test, id, true, path);
    GateOutcome(root, files, review, request, test, id, true);
    if Lists(ChangedPaths(review), root, path) {
      AsReadMeans(start, path);
      assert FileAt(start, path) == FileAt(files, path);
      if IsFile(files, path) {
        ReadSameIff(files[path].content);
      }
    } else {
      UnlistedUntouched(root, files, review, request, test, id, path);
    }
  }

  // An apply that stops half-way is not rolled back: the copies before the path that stopped it stay.
  lemma StoppedApplyStays(
    root: Path, files: Files, review: Review, request: Request, test: Files -> TestRun, id: string, rollback: bool, path: Path)
    requires Sane(root, files, review, test, id) && Opens(root, files, review, request, id)
    requires !AllCopyable(root, SavedFiles(root, files, review, request, id), review) && path != RecordPath(root, id)
    ensures var (after, result) := Gated(root, files, review, request, test, id, rollback);
            var front := CopiedFront(root, SavedFiles(root, files, review, request, id), review, review.changed + review.added);
            && result.Err? && result.error.ReviewError?
            && FileAt(after, path) == FileAfter(root, Started(files, review, request), review, front, path)
  {
    PrepareMeans(files, review, request);
    SavedMeans(root, Started(files, review, request), review, id);
    AppliedMeans(root, files, review, request, test, id);
    SavedIsAppliable(root, files, review, request, test, id);
    ApplyMeans(root, SavedFiles(root, files, review, request, id), review);
  }

  // ---------- Three runs that are not undone ----------

  lemma PlainTargets(root: Path, rel: PathArg)
    requires IsNormal(root) && !rel.absolute && IsNormal(rel.parts)
    ensures Target(root, rel) == root + rel.parts
  {
    NormalizeKeepsNormal(root + rel.parts, []);
    assert [] + (root + rel.parts) == root + rel.parts;
  }

  // Relative paths without ".." lie alike in the project and in the workspace.
  lemma PlainIsAligned(root: Path, review: Review, rels: seq<PathArg>)
    requires IsNormal(root) && IsNormal(review.workspaceRoot)
    requires forall rel :: rel in rels ==> !rel.absolute && IsNormal(rel.parts)
    ensures Aligned(root, review, rels)
  {
    forall a, b | a in rels && b in rels && Target(root, a) < Target(root, b) ensures Source(review, a) < Source(review, b) {
      PlainTargets(root, a);
      PlainTargets(root, b);
      PlainTargets(review.workspaceRoot, a);
      PlainTargets(review.workspaceRoot, b);
      assert (root + b.parts)[|root|..] == b.parts && (root + a.parts)[|root|..] == a.parts;
      assert b.parts[..|a.parts|] == (root + b.parts)[|root|..|root| + |a.parts|] == a.parts;
    }
  }

  // Of two changed files the workspace has lost the second: the first stays overwritten, whether a rollback was asked for or not.
  lemma HalfAppliedStays(
    root: Path, files: Files, review: Review, request: Request, test: Files -> TestRun, id: string, rollback: bool,
    a: PathArg, b: PathArg)
    requires Sane(root, files, review, test, id) && Opens(root, files, review, request, id)
    requires review.changed == [a, b] && review.added == []
    requires CanCopy(root, SavedFiles(root, files, review, request, id), review, a)
    requires !Copyable(review, b) && Target(root, a) != RecordPath(root, id)
    ensures var (after, result) := Gated(root, files, review, request, test, id, rollback);
            result.Err? && FileAt(after, Target(root, a)) == FileAt(review.workspace, Source(review, a)) != None
  {
    var saved := SavedFiles(root, files, review, request, id);
    assert [a, b] + [] == [a, b] && [a, b][1] == b && b in [a, b];
    assert !CanCopy(root, saved, review, b);
    FrontOfTwo(root, saved, review, a, b);
    OneCopied(root, Started(files, review, request), review, a);
    StoppedApplyStays(root, files, review, request, test, id, rollback, Target(root, a));
  }

  // A file that became a directory: "a" is deleted and "a/b" is new. Deletions come after the copies, so the copy finds the file
  // in its way and applying stops, with no other file touched if it was the only copy.
  lemma FileBecomesDirectory(
    root: Path, files: Files, review: Review, request: Request, test: Files -> TestRun, id: string, rollback: bool, path: Path)
    requires Sane(root, files, review, test, id) && Opens(root, files, review, request, id)
    requires review.changed == [] && review.added == [PathArg(false, ["a", "b"])] && review.deleted == [PathArg(false, ["a"])]
    requires IsFile(Started(files, review, request), root + ["a"]) && root + ["a"] != RecordPath(root, id)
    requires path != RecordPath(root, id)
    ensures var (after, result) := Gated(root, files, review, request, test, id, rollback);
            result.Err? && FileAt(after, path) == FileAt(Started(files, review, request), path)
  {
    var start, saved := Started(files, review, request), SavedFiles(root, files, review, request, id);
    var rel, rels := PathArg(false, ["a", "b"]), review.changed + review.added;
    PrepareMeans(files, review, request);
    SavedMeans(root, start, review, id);
    assert rels == [rel] && rel in [rel];
    PlainTargets(root, rel);
    assert root + ["a", "b"] == root + ["a"] + ["b"] && root + ["a"] < root + ["a", "b"];
    assert FileAt(saved, root + ["a"]).Some?;
    BelowFileIff(saved, Target(root, rel));
    assert !CanCopy(root, saved, review, rel);
    FrontOfOne(root, saved, review, rel);
    StoppedApplyStays(root, files, review, request, test, id, rollback, path);
  }

  // A test command that takes too long and changes nothing: a new or changed file stays as applied although a rollback was asked for.
  lemma SlowTestStays(
    root: Path, files: Files, review: Review, request: Request, test: Files -> TestRun, id: string, a: PathArg)
    requires Sane(root, files, review, test, id) && request.command == ["sleep", "300"]
    requires Opens(root, files, review, request, id) && Applies(root, files, review, request, id)
    requires test(Applied(root, files, review, request, id)) == Raised(Applied(root, files, review, request, id))
    requires review.changed == [a] && review.added == [] && review.deleted == []
    requires Target(root, a) != review.recordFile
    ensures var (after, result) := Gated(root, files, review, request, test, id, true);
            result == Err(TestRaised) && FileAt(after, Target(root, a)) == FileAt(review.workspace, Source(review, a)) != None
  {
    var saved := SavedFiles(root, files, review, request, id);
    assert [a] + [] == [a] && a in [a];
    assert CanCopy(root, saved, review, a);
    FrontOfOne(root, saved, review, a);
    OneCopied(root, saved, review, a);
    RaisedTestStays(root, files, review, request, test, id, true);
    SavedIsAppliable(root, files, review, request, test, id);
    ApplyMeans(root, saved, review);
  }
}
