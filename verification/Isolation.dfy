/**
 Applying an isolation review (quantagent/worktree_isolation.py): its files are copied from the isolated workspace and deleted
 one at a time, and the review is marked applied.
 */
module Isolation {
  import opened FileTree
  import opened Wrappers
  import opened Checkpoints

  // `workspace` are the files as seen from the isolated workspace; `recordFile` is where the review is kept, and `applied` its
  // text once it is marked applied.
  datatype Review = Review(
    id: string, changed: seq<PathArg>, added: seq<PathArg>, deleted: seq<PathArg>, workspaceRoot: Path, workspace: Files,
    recordFile: Path, applied: string)

  datatype ApplyError =
    | NoSuchReview
    | SourceMissing(rel: PathArg)
    | SameFile(rel: PathArg)
    | CopyFault(rel: PathArg, fault: Fault)
    | RecordFault(fault: Fault)

  function Target(root: Path, rel: PathArg): Path {
    Normalize(if rel.absolute then rel.parts else root + rel.parts, [])
  }

  function Source(review: Review, rel: PathArg): Path {
    Target(review.workspaceRoot, rel)
  }

  // Copying onto a directory copies into it.
  function Destination(files: Files, target: Path, source: Path): Path {
    if IsDir(files, target) && source != [] then target + [source[|source| - 1]] else target
  }

  // Copies one path. An absolute path is the same file in the workspace and in the project.
  function CopyFile(root: Path, files: Files, review: Review, rel: PathArg): (Files, Option<ApplyError>) {
    var source, target := Source(review, rel), Target(root, rel);
    if rel.absolute then (files, Some(if target in files then SameFile(rel) else SourceMissing(rel)))
    else if source !in review.workspace then (files, Some(SourceMissing(rel)))
    else if BelowFile(files, target) then (files, Some(CopyFault(rel, NotADirectory)))
    else
      match review.workspace[source]
      case Directory => (WithParents(files, target), Some(CopyFault(rel, IsADirectory)))
      case File(content) =>
        var grown := WithParents(files, target);
        var (after, fault) := Write(grown, Destination(grown, target, source), content);
        (after, if fault.Some? then Some(CopyFault(rel, fault.value)) else None)
  }

  // Copies one path after the other, up to the first that cannot be copied.
  function CopyFiles(root: Path, files: Files, review: Review, rels: seq<PathArg>): (Files, Option<ApplyError>)
    decreases |rels|
  {
    if rels == [] then (files, None)
    else
      var (next, failure) := CopyFile(root, files, review, rels[0]);
      if failure.Some? then (next, failure) else CopyFiles(root, next, review, rels[1..])
  }

  // Deletes files; a directory is left alone.
  function DeleteFiles(root: Path, files: Files, rels: seq<PathArg>): Files
    decreases |rels|
  {
    if rels == [] then files else DeleteFiles(root, DeleteFile(files, Target(root, rels[0])), rels[1..])
  }

  function DeleteFile(files: Files, path: Path): Files {
    if IsFile(files, path) then files - {path} else files
  }

  // The new status of the review, or the error that stopped it.
  function ApplyReview(root: Path, files: Files, review: Review): (Files, Result<string, ApplyError>) {
    if !IsFile(files, review.recordFile) then (files, Err(NoSuchReview))
    else
      var (copied, failure) := CopyFiles(root, files, review, review.changed + review.added);
      if failure.Some? then (copied, Err(failure.value))
      else
        var (after, fault) := Write(DeleteFiles(root, copied, review.deleted), review.recordFile, Text(review.applied));
        (after, if fault.Some? then Err(RecordFault(fault.value)) else Ok("applied"))
  }

  method ApplyIsolationReview(project: Project, review: Review) returns (status: Result<string, ApplyError>)
    modifies project
    ensures (project.files, status) == ApplyReview(project.root, old(project.files), review)
  {
    if !IsFile(project.files, review.recordFile) {
      return Err(NoSuchReview);
    }
    var failure := CopyListed(project, review, review.changed + review.added);
    if failure.Some? {
      return Err(failure.value);
    }
    DeleteListed(project, review.deleted);
    var (after, fault) := Write(project.files, review.recordFile, Text(review.applied));
    project.files := after;
    status := if fault.Some? then Err(RecordFault(fault.value)) else Ok("applied");
  }

  method CopyListed(project: Project, review: Review, rels: seq<PathArg>) returns (failure: Option<ApplyError>)
    modifies project
    ensures (project.files, failure) == CopyFiles(project.root, old(project.files), review, rels)
  {
    var i := 0;
    assert rels[0..] == rels;
    while i < |rels|
      invariant 0 <= i <= |rels|
      invariant CopyFiles(project.root, old(project.files), review, rels)
             == CopyFiles(project.root, project.files, review, rels[i..])
    {
      assert rels[i..][0] == rels[i] && rels[i..][1..] == rels[i + 1..];
      var (next, fault) := CopyFile(project.root, project.files, review, rels[i]);
      project.files := next;
      if fault.Some? {
        return fault;
      }
      i := i + 1;
    }
    failure := None;
  }

  method DeleteListed(project: Project, deleted: seq<PathArg>)
    modifies project
    ensures project.files == DeleteFiles(project.root, old(project.files), deleted)
  {
    var i := 0;
    assert deleted[0..] == deleted;
    while i < |deleted|
      invariant 0 <= i <= |deleted|
      invariant DeleteFiles(project.root, old(project.files), deleted) == DeleteFiles(project.root, project.files, deleted[i..])
    {
      assert deleted[i..][0] == deleted[i] && deleted[i..][1..] == deleted[i + 1..];
      var target := Target(project.root, deleted[i]);
      if IsFile(project.files, target) {
        project.files := project.files - {target};
      }
      i := i + 1;
    }
  }

  // The workspace holds a file to copy.
  predicate Copyable(review: Review, rel: PathArg) {
    !rel.absolute && IsFile(review.workspace, Source(review, rel))
  }

  // The workspace has a file to copy, and no file of the project stands in the way of the directories above its place.
  predicate CanCopy(root: Path, files: Files, review: Review, rel: PathArg) {
    Copyable(review, rel) && !BelowFile(files, Target(root, rel))
  }

  // Paths that lie below one another in the project do so in the workspace.
  ghost predicate Aligned(root: Path, review: Review, rels: seq<PathArg>) {
    forall a, b :: a in rels && b in rels && Target(root, a) < Target(root, b) ==> Source(review, a) < Source(review, b)
  }

  // No file is copied onto a directory.
  ghost predicate NoDirectories(root: Path, files: Files, review: Review, rels: seq<PathArg>) {
    forall rel :: rel in rels && Copyable(review, rel) ==> !IsDir(files, Target(root, rel))
  }

  // The paths before the first that cannot be copied.
  function CopiedFront(root: Path, files: Files, review: Review, rels: seq<PathArg>): seq<PathArg> {
    if rels == [] || !CanCopy(root, files, review, rels[0]) then []
    else [rels[0]] + CopiedFront(root, files, review, rels[1..])
  }

  // What copying these paths writes at `path`; a later one overwrites an earlier one.
  function Copied(root: Path, review: Review, rels: seq<PathArg>, path: Path): Option<Content> {
    if rels == [] then None
    else
      var later := Copied(root, review, rels[1..], path);
      if later.None? && Target(root, rels[0]) == path then FileAt(review.workspace, Source(review, rels[0])) else later
  }

  // The file at `path` after these copies.
  function FileAfter(root: Path, files: Files, review: Review, rels: seq<PathArg>, path: Path): Option<Content> {
    var copied := Copied(root, review, rels, path);
    if copied.Some? then copied else FileAt(files, path)
  }

  lemma CopyFileMeans(root: Path, files: Files, review: Review, rel: PathArg)
    requires IsTree(files) && (Copyable(review, rel) ==> !IsDir(files, Target(root, rel)))
    ensures var (after, failure) := CopyFile(root, files, review, rel);
            && IsTree(after)
            && (failure.None? <==> CanCopy(root, files, review, rel))
            && (forall p :: FileAt(after, p) == if failure.None? && p == Target(root, rel)
                                                then FileAt(review.workspace, Source(review, rel)) else FileAt(files, p))
            && (forall p :: IsDir(files, p) ==> IsDir(after, p))
            && (failure.None? ==> forall p :: IsDir(after, p) ==> IsDir(files, p) || p < Target(root, rel))
  {
    var target := Target(root, rel);
    var (after, failure) := CopyFile(root, files, review, rel);
    forall p
      ensures Look(WithParents(files, target), p) == if p in files then Some(files[p]) else if p < target then Some(Directory) else None
    {
      WithParentsMeans(files, target, p);
    }
    if !BelowFile(files, target) {
      WithParentsIsTree(files, target);
      var grown := WithParents(files, target);
      assert forall p :: FileAt(grown, p) == FileAt(files, p) by {
        forall p ensures FileAt(grown, p) == FileAt(files, p) {
          LookGivesFile(grown, p);
          LookGivesFile(files, p);
        }
      }
      assert forall p :: IsDir(files, p) ==> Look(grown, p) == Some(Directory);
      if Copyable(review, rel) {
        GrownCanWrite(files, target);
        WriteMeans(grown, target, review.workspace[Source(review, rel)].content);
        assert Look(grown, target).Some? <==> target in grown;
        assert forall p :: Look(after, p).Some? <==> p in after;
        assert forall p :: Look(grown, p).Some? <==> p in grown;
      }
    }
  }

  lemma GrownCanWrite(files: Files, target: Path)
    requires IsTree(files) && !BelowFile(files, target) && !IsDir(files, target)
    ensures CanWrite(WithParents(files, target), target)
  {
    WithParentsIsTree(files, target);
    WithParentsMeans(files, target, target);
    BelowFileIff(WithParents(files, target), target);
    assert Look(WithParents(files, target), target).Some? <==> target in WithParents(files, target);
  }

  // One copy does not decide about another: what lies above or below it in the project does so in the workspace, where both
  // cannot be files.
  lemma CopyKeepsOthers(root: Path, files: Files, next: Files, review: Review, done: PathArg, rel: PathArg)
    requires IsTree(files) && IsTree(review.workspace) && Aligned(root, review, [done, rel])
    requires CanCopy(root, files, review, done) && (Copyable(review, rel) ==> !IsDir(files, Target(root, rel)))
    requires forall p :: FileAt(next, p) == if p == Target(root, done) then FileAt(review.workspace, Source(review, done))
                                            else FileAt(files, p)
    requires forall p :: IsDir(next, p) ==> IsDir(files, p) || p < Target(root, done)
    ensures Copyable(review, rel) ==> !IsDir(next, Target(root, rel))
    ensures CanCopy(root, next, review, rel) <==> CanCopy(root, files, review, rel)
  {
    assert done in [done, rel] && rel in [done, rel];
    if Copyable(review, rel) {
      var target := Target(root, rel);
      FilesAreLeaves(review.workspace, Source(review, done), Source(review, rel));
      FilesAreLeaves(review.workspace, Source(review, rel), Source(review, done));
      BelowFileIff(files, target);
      BelowFileIff(next, target);
      forall above | above < target ensures IsFile(next, above) ==> IsFile(files, above) {
        assert above != Target(root, done);
        assert FileAt(next, above).Some? <==> IsFile(next, above);
      }
      forall above | above < target ensures IsFile(files, above) ==> IsFile(next, above) {
        assert FileAt(next, above).Some? <==> IsFile(next, above);
      }
    }
  }

  lemma {:induction false} SameFront(root: Path, a: Files, b: Files, review: Review, rels: seq<PathArg>)
    requires forall rel :: rel in rels ==> (CanCopy(root, a, review, rel) <==> CanCopy(root, b, review, rel))
    ensures CopiedFront(root, a, review, rels) == CopiedFront(root, b, review, rels)
  {
    if rels == [] {
    } else {
      assert rels[0] in rels;
      SameFront(root, a, b, review, rels[1..]);
    }
  }

  lemma FrontFirst(root: Path, files: Files, review: Review, rels: seq<PathArg>)
    requires rels != []
    ensures CopiedFront(root, files, review, rels) ==
            if CanCopy(root, files, review, rels[0]) then [rels[0]] + CopiedFront(root, files, review, rels[1..]) else []
  {
  }

  lemma FrontOfOne(root: Path, files: Files, review: Review, rel: PathArg)
    ensures CopiedFront(root, files, review, [rel]) == if CanCopy(root, files, review, rel) then [rel] else []
  {
    assert [rel][1..] == [];
  }

  lemma FrontOfTwo(root: Path, files: Files, review: Review, first: PathArg, second: PathArg)
    requires CanCopy(root, files, review, first) && !CanCopy(root, files, review, second)
    ensures CopiedFront(root, files, review, [first, second]) == [first]
  {
    FrontOfOne(root, files, review, second);
    assert [first, second][1..] == [second];
  }

  lemma OneCopied(root: Path, files: Files, review: Review, rel: PathArg)
    requires Copyable(review, rel)
    ensures FileAfter(root, files, review, [rel], Target(root, rel)) == FileAt(review.workspace, Source(review, rel)) != None
  {
    assert Copied(root, review, [rel][1..], Target(root, rel)) == None;
  }

  lemma FileAfterFirst(root: Path, files: Files, next: Files, review: Review, rel: PathArg, rest: seq<PathArg>, path: Path)
    requires Copyable(review, rel)
    requires FileAt(next, path) == if path == Target(root, rel) then FileAt(review.workspace, Source(review, rel)) else FileAt(files, path)
    ensures FileAfter(root, next, review, rest, path) == FileAfter(root, files, review, [rel] + rest, path)
  {
    assert ([rel] + rest)[1..] == rest;
  }

  lemma RestCanStill(root: Path, files: Files, next: Files, review: Review, rels: seq<PathArg>)
    requires rels != [] && CopyReady(root, files, review, rels) && CopyFile(root, files, review, rels[0]) == (next, None)
    ensures CopyReady(root, next, review, rels[1..])
    ensures forall rel :: rel in rels[1..] ==> (CanCopy(root, next, review, rel) <==> CanCopy(root, files, review, rel))
  {
    assert rels[0] in rels;
    CopyFileMeans(root, files, review, rels[0]);
    forall rel | rel in rels[1..]
      ensures Copyable(review, rel) ==> !IsDir(next, Target(root, rel))
      ensures CanCopy(root, next, review, rel) <==> CanCopy(root, files, review, rel)
    {
      assert rel in rels;
      CopyKeepsOthers(root, files, next, review, rels[0], rel);
    }
  }

  ghost predicate CanCopyAll(root: Path, files: Files, review: Review, rels: seq<PathArg>) {
    forall rel :: rel in rels ==> CanCopy(root, files, review, rel)
  }

  // `after` holds the files of `files` and what these copies write, and still all directories.
  ghost predicate HoldsCopies(root: Path, files: Files, review: Review, rels: seq<PathArg>, after: Files) {
    && (forall p :: FileAt(after, p) == FileAfter(root, files, review, rels, p))
    && (forall p :: IsDir(files, p) ==> IsDir(after, p))
  }

  // Copying stopped exactly at a path that cannot be copied, and left the copies made before.
  ghost predicate CopyOutcome(root: Path, files: Files, review: Review, rels: seq<PathArg>, after: Files, stopped: bool) {
    && IsTree(after)
    && (stopped <==> !CanCopyAll(root, files, review, rels))
    && HoldsCopies(root, files, review, CopiedFront(root, files, review, rels), after)
  }

  ghost predicate CopyReady(root: Path, files: Files, review: Review, rels: seq<PathArg>) {
    && IsTree(files) && IsTree(review.workspace)
    && Aligned(root, review, rels) && NoDirectories(root, files, review, rels)
  }

  lemma {:induction false} CopyFilesMean(root: Path, files: Files, review: Review, rels: seq<PathArg>)
    requires CopyReady(root, files, review, rels)
    ensures var (after, failure) := CopyFiles(root, files, review, rels);
            CopyOutcome(root, files, review, rels, after, failure.Some?)
    decreases |rels|
  {
    if rels == [] {
      assert CopyOutcome(root, files, review, rels, files, false);
    } else {
      var (next, failure) := CopyFile(root, files, review, rels[0]);
      if failure.None? {
        RestCanStill(root, files, next, review, rels);
        CopyFilesMean(root, next, review, rels[1..]);
        var (after, later) := CopyFiles(root, next, review, rels[1..]);
        CopiesCompose(root, files, next, review, rels, after, later.Some?);
      } else {
        FirstFails(root, files, review, rels);
      }
    }
  }

  lemma FirstFails(root: Path, files: Files, review: Review, rels: seq<PathArg>)
    requires rels != [] && CopyReady(root, files, review, rels) && CopyFile(root, files, review, rels[0]).1.Some?
    ensures CopyOutcome(root, files, review, rels, CopyFile(root, files, review, rels[0]).0, true)
  {
    assert rels[0] in rels;
    CopyFileMeans(root, files, review, rels[0]);
    FrontFirst(root, files, review, rels);
  }

  lemma CopiesCompose(
    root: Path, files: Files, next: Files, review: Review, rels: seq<PathArg>, after: Files, stopped: bool)
    requires rels != [] && CopyReady(root, files, review, rels) && CopyFile(root, files, review, rels[0]) == (next, None)
    requires forall rel :: rel in rels[1..] ==> (CanCopy(root, next, review, rel) <==> CanCopy(root, files, review, rel))
    requires CopyOutcome(root, next, review, rels[1..], after, stopped)
    ensures CopyOutcome(root, files, review, rels, after, stopped)
  {
    assert rels[0] in rels && forall rel :: rel in rels <==> rel == rels[0] || rel in rels[1..];
    CopyFileMeans(root, files, review, rels[0]);
    SameFront(root, next, files, review, rels[1..]);
    FrontFirst(root, files, review, rels);
    var later := CopiedFront(root, next, review, rels[1..]);
    forall p ensures FileAfter(root, next, review, later, p) == FileAfter(root, files, review, [rels[0]] + later, p) {
      FileAfterFirst(root, files, next, review, rels[0], later, p);
    }
  }

  ghost predicate Deletes(root: Path, review: Review, path: Path) {
    exists rel :: rel in review.deleted && Target(root, rel) == path
  }

  lemma {:induction false} DeleteFilesMean(root: Path, files: Files, rels: seq<PathArg>)
    requires IsTree(files)
    ensures var after := DeleteFiles(root, files, rels);
            && IsTree(after)
            && (forall p :: FileAt(after, p) ==
                 if exists rel :: rel in rels && Target(root, rel) == p then None else FileAt(files, p))
            && (forall p :: IsDir(after, p) <==> IsDir(files, p))
    decreases |rels|
  {
    if rels == [] {
    } else {
      var next := DeleteFile(files, Target(root, rels[0]));
      DeleteFileMeans(files, Target(root, rels[0]));
      DeleteFilesMean(root, next, rels[1..]);
      assert forall rel :: rel in rels <==> rel == rels[0] || rel in rels[1..];
    }
  }

  lemma DeleteFileMeans(files: Files, path: Path)
    requires IsTree(files)
    ensures var after := DeleteFile(files, path);
            && IsTree(after)
            && (forall p :: FileAt(after, p) == if p == path then None else FileAt(files, p))
            && (forall p :: IsDir(after, p) <==> IsDir(files, p))
  {
    var after := DeleteFile(files, path);
    forall p, above | p in after && above < p ensures IsDir(after, above) {
      assert IsDir(files, above);
    }
  }

  ghost predicate AllCopyable(root: Path, files: Files, review: Review) {
    CanCopyAll(root, files, review, review.changed + review.added)
  }

  // The review is kept in a file, its paths lie in the workspace as they do in the project, and no copy goes onto a directory.
  ghost predicate Appliable(root: Path, files: Files, review: Review) {
    && IsTree(files) && IsTree(review.workspace) && IsFile(files, review.recordFile)
    && Aligned(root, review, review.changed + review.added)
    && NoDirectories(root, files, review, review.changed + review.added)
  }

  // Applying completes if and only if the workspace holds a file for every changed and new path, and no file stands above the
  // place of one. It then copies, deletes and marks the review; otherwise only the copies before the first such path are made.
  lemma ApplyMeans(root: Path, files: Files, review: Review)
    requires Appliable(root, files, review)
    ensures var (after, status) := ApplyReview(root, files, review);
            var front := CopiedFront(root, files, review, review.changed + review.added);
            && IsTree(after)
            && (status.Ok? <==> AllCopyable(root, files, review))
            && (status.Ok? ==> status.value == "applied")
            && (forall p :: FileAt(after, p) ==
                 if status.Ok? && p == review.recordFile then Some(Text(review.applied))
                 else if status.Ok? && Deletes(root, review, p) then None
                 else FileAfter(root, files, review, front, p))
            && (forall p :: IsDir(files, p) ==> IsDir(after, p))
  {
    var (copied, failure) := CopyFiles(root, files, review, review.changed + review.added);
    CopyFilesMean(root, files, review, review.changed + review.added);
    if failure.None? {
      var cleared := DeleteFiles(root, copied, review.deleted);
      DeleteFilesMean(root, copied, review.deleted);
      assert FileAt(copied, review.recordFile).Some? && !IsDir(copied, review.recordFile);
      RecordStaysWritable(files, cleared, review.recordFile);
      WriteKeepsFiles(cleared, review.recordFile, Text(review.applied));
    }
  }

  // Nothing that was a directory above the record, and not the record itself, has become something else to write on.
  lemma RecordStaysWritable(files: Files, after: Files, path: Path)
    requires IsTree(files) && IsTree(after) && IsFile(files, path)
    requires forall p :: IsDir(files, p) ==> IsDir(after, p)
    requires !IsDir(after, path)
    ensures CanWrite(after, path)
  {
    BelowFileIff(after, path);
    forall above | above < path ensures !IsFile(after, above) {
      assert IsDir(files, above);
    }
  }

  lemma WriteKeepsFiles(files: Files, path: Path, content: Content)
    requires IsTree(files) && CanWrite(files, path)
    ensures var (after, fault) := Write(files, path, content);
            && IsTree(after) && fault.None?
            && (forall p :: FileAt(after, p) == if p == path then Some(content) else FileAt(files, p))
            && (forall p :: IsDir(files, p) ==> IsDir(after, p))
  {
    WriteMeans(files, path, content);
    var after := Write(files, path, content).0;
    forall p
      ensures FileAt(after, p) == if p == path then Some(content) else FileAt(files, p)
      ensures IsDir(files, p) ==> IsDir(after, p)
    {
      LookGivesFile(after, p);
      LookGivesFile(files, p);
    }
  }

  // ---------- The cases that a checkpoint rules out ----------

  lemma NothingNew(files: Files, target: Path)
    requires IsTree(files) && IsDir(files, target)
    ensures WithParents(files, target) == files
  {
    forall p ensures Look(WithParents(files, target), p) == Look(files, p) {
      WithParentsMeans(files, target, p);
      assert p < target ==> IsDir(files, p);
    }
    SameLooks(WithParents(files, target), files);
  }

  // A file copied onto a directory lands in it, under its name in the workspace.
  lemma CopyIntoDirectory(root: Path, files: Files, review: Review, rel: PathArg)
    requires IsTree(files) && Copyable(review, rel) && IsDir(files, Target(root, rel)) && Source(review, rel) != []
    ensures var place := Target(root, rel) + [Source(review, rel)[|Source(review, rel)| - 1]];
            var (after, failure) := CopyFile(root, files, review, rel);
            && (failure.None? <==> !IsDir(files, place))
            && forall p :: FileAt(after, p) == if failure.None? && p == place
                                               then FileAt(review.workspace, Source(review, rel)) else FileAt(files, p)
  {
    var target, source := Target(root, rel), Source(review, rel);
    var place := target + [source[|source| - 1]];
    NothingNew(files, target);
    BelowFileIff(files, target);
    BelowFileIff(files, place);
    forall above | above < place ensures !IsFile(files, above) {
      assert above < target || above == target;
      assert above < target ==> IsDir(files, above);
    }
    WriteMeans(files, place, review.workspace[source].content);
    var after := CopyFile(root, files, review, rel).0;
    forall p ensures FileAt(after, p) == if !IsDir(files, place) && p == place then FileAt(review.workspace, source) else FileAt(files, p) {
      LookGivesFile(after, p);
      LookGivesFile(files, p);
    }
  }

  // Which error stops a copy.
  lemma WhyNotCopied(root: Path, files: Files, review: Review, rel: PathArg)
    requires CopyFile(root, files, review, rel).1.Some?
    ensures match CopyFile(root, files, review, rel).1.value
            case SourceMissing(r) =>
              r == rel && if rel.absolute then Target(root, rel) !in files else Source(review, rel) !in review.workspace
            case SameFile(r) => r == rel && rel.absolute && Target(root, rel) in files
            case CopyFault(r, NotADirectory) => r == rel && !rel.absolute && BelowFile(files, Target(root, rel))
            case CopyFault(r, IsADirectory) =>
              r == rel && !rel.absolute && (IsDir(review.workspace, Source(review, rel)) || IsDir(files, Target(root, rel)))
            case _ => false
  {
    var target := Target(root, rel);
    var grown, place := WithParents(files, target), Destination(WithParents(files, target), target, Source(review, rel));
    if !BelowFile(files, target) && IsDir(grown, target) {
      forall k | 0 <= k < |place| ensures !IsFile(grown, place[..k]) {
        assert k < |target| ==> place[..k] == target[..k];
        assert k >= |target| ==> place[..k] == target;
        WithParentsMeans(files, target, target[..if k < |target| then k else 0]);
      }
    }
  }
}
