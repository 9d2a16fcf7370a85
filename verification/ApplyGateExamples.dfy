/** Three reviews on which a gated apply ends with an error and is not undone, as whole file systems. */
module ApplyGateExamples {
  import opened FileTree
  import opened Wrappers
  import opened Checkpoints
  import opened Isolation
  import opened ApplyGate
  import opened ApplyGateTheorems

  const ROOT: Path := ["p"]
  const WORKSPACE: Path := ["w"]
  const RECORD: Path := ["p", "review.json"]
  const PREVIEW: Path := ["p", "preview.json"]
  const A := PathArg(false, ["a"])
  const B := PathArg(false, ["b"])
  const A_B := PathArg(false, ["a", "b"])

  // One directory with a few files.
  function Folder(root: Path, files: map<string, Content>): Files {
    var places := set name | name in files :: root + [name];
    (map path | path in places :: File(files[path[|path| - 1]])) + map[[] := Directory, root := Directory]
  }

  lemma FolderMeans(root: Path, files: map<string, Content>, path: Path)
    requires |root| == 1
    ensures Look(Folder(root, files), path) ==
            if path == [] || path == root then Some(Directory)
            else if |path| == 2 && path[..1] == root && path[1] in files then Some(File(files[path[1]]))
            else None
  {
    if |path| == 2 && path[..1] == root && path[1] in files {
      assert path == root + [path[1]];
    }
  }

  lemma FolderIsTree(root: Path, files: map<string, Content>)
    requires |root| == 1
    ensures IsTree(Folder(root, files))
  {
    var folder := Folder(root, files);
    forall path, above | path in folder && above < path ensures IsDir(folder, above) {
      FolderMeans(root, files, path);
      FolderMeans(root, files, above);
      assert above == path[..|above|];
    }
  }

  // A review of plain paths below the first names given.
  function ReviewOf(changed: seq<PathArg>, added: seq<PathArg>, deleted: seq<PathArg>, workspace: Files): Review {
    Review("r", changed, added, deleted, WORKSPACE, workspace, RECORD, "applied")
  }

  // A request that the gate grants.
  function Granted(command: seq<string>): Request {
    Request(PREVIEW, None, "", true, true, true, true, false, false, [], [], command, Allow, None)
  }

  ghost predicate PlainIn(review: Review, files: map<string, Content>) {
    forall rel :: rel in ChangedPaths(review) ==>
      && !rel.absolute && IsNormal(rel.parts) && rel.parts != [] && rel.parts[0] != ".quantagent"
      && !IsDir(Folder(ROOT, files), ROOT + rel.parts)
  }

  lemma RecordIsFree(files: map<string, Content>, id: string)
    requires ".quantagent" !in files
    ensures CanWrite(Folder(ROOT, files), RecordPath(ROOT, id))
  {
    var record := RecordPath(ROOT, id);
    assert record[1] == ".quantagent" && |record| == 4;
    BelowFileIff(Folder(ROOT, files), record);
    forall above | above <= record ensures !IsFile(Folder(ROOT, files), above) {
      FolderMeans(ROOT, files, above);
      assert |above| >= 2 ==> above[1] == record[1];
    }
    FolderMeans(ROOT, files, record);
  }

  // Such a project, review and request are what the theorems about the gate ask for, and the gate opens.
  lemma GateOpens(files: map<string, Content>, review: Review, command: seq<string>, test: Files -> TestRun, id: string)
    requires "review.json" in files && "preview.json" in files && ".quantagent" !in files
    requires review.recordFile == RECORD && review.workspaceRoot == WORKSPACE && IsTree(review.workspace)
    requires !(review.changed == [] && review.added == [] && review.deleted == []) && PlainIn(review, files)
    requires forall applied :: IsTree(applied) ==> IsTree(FilesAfter(test(applied), applied))
    ensures Sane(ROOT, Folder(ROOT, files), review, test, id)
    ensures Opens(ROOT, Folder(ROOT, files), review, Granted(command), id)
    ensures Started(Folder(ROOT, files), review, Granted(command)) == Folder(ROOT, files)
  {
    var project := Folder(ROOT, files);
    FolderIsTree(ROOT, files);
    FolderMeans(ROOT, files, RECORD);
    FolderMeans(ROOT, files, PREVIEW);
    assert RECORD[..1] == ROOT && PREVIEW[..1] == ROOT;
    RecordIsFree(files, id);
    ChangedPathsMean(review);
    PlainIsAligned(ROOT, review, review.changed + review.added);
    forall rel | rel in ChangedPaths(review)
      ensures Listable(ROOT, project, rel) && !(Target(ROOT, rel) < RecordPath(ROOT, id))
    {
      PlainTargets(ROOT, rel);
      assert Inside(ROOT + rel.parts, ROOT) && Resolve(ROOT, rel) == Ok(ROOT + rel.parts);
      assert (ROOT + rel.parts)[1] == rel.parts[0] && RecordPath(ROOT, id)[1] == ".quantagent";
    }
  }

  lemma OnlyChanged(review: Review, rels: seq<PathArg>)
    requires review.changed + review.added + review.deleted == rels
    ensures forall rel :: rel in ChangedPaths(review) <==> rel in rels
  {
    ChangedPathsMean(review);
  }

  lemma APath()
    ensures Target(ROOT, A) == ["p", "a"] && Target(WORKSPACE, A) == ["w", "a"]
    ensures Target(ROOT, B) == ["p", "b"] && Target(WORKSPACE, B) == ["w", "b"]
  {
    PlainTargets(ROOT, A);
    PlainTargets(WORKSPACE, A);
    PlainTargets(ROOT, B);
    PlainTargets(WORKSPACE, B);
  }

  function TestDoing(raises: bool): Files -> TestRun {
    (files: Files) => if raises then Raised(files) else Finished(files, 1)
  }

  // The checkpoint leaves the project as it is, but for its own record.
  lemma SavedFolder(files: map<string, Content>, review: Review, command: seq<string>, id: string, path: Path)
    requires Opens(ROOT, Folder(ROOT, files), review, Granted(command), id)
    requires path != RecordPath(ROOT, id)
    ensures Started(Folder(ROOT, files), review, Granted(command)) == Folder(ROOT, files)
    ensures FileAt(SavedFiles(ROOT, Folder(ROOT, files), review, Granted(command), id), path) == FileAt(Folder(ROOT, files), path)
  {
    FolderIsTree(ROOT, files);
    SavedMeans(ROOT, Folder(ROOT, files), review, id);
  }

  lemma CanCopyA(files: map<string, Content>, review: Review, command: seq<string>, id: string)
    requires Opens(ROOT, Folder(ROOT, files), review, Granted(command), id)
    requires review.workspaceRoot == WORKSPACE && IsFile(review.workspace, ["w", "a"])
    ensures CanCopy(ROOT, SavedFiles(ROOT, Folder(ROOT, files), review, Granted(command), id), review, A)
  {
    APath();
    var saved := SavedFiles(ROOT, Folder(ROOT, files), review, Granted(command), id);
    BelowFileIff(saved, ["p", "a"]);
    forall above | above < ["p", "a"] ensures !IsFile(saved, above) {
      assert |above| < 2 && |RecordPath(ROOT, id)| == 4;
      SavedFolder(files, review, command, id, above);
      FolderMeans(ROOT, files, above);
      assert above == [] || above == ROOT by { assert above == ["p", "a"][..|above|]; }
      assert FileAt(saved, above).Some? <==> IsFile(saved, above);
    }
  }

  // A project folder that holds "a" beside the gate's own files.
  predicate IsProject(files: map<string, Content>) {
    "a" in files && "review.json" in files && "preview.json" in files && ".quantagent" !in files
  }

  lemma InFolder(root: Path, files: map<string, Content>, name: string)
    requires |root| == 1
    ensures FileAt(Folder(root, files), root + [name]) == if name in files then Some(files[name]) else None
    ensures !IsDir(Folder(root, files), root + [name]) && (root + [name] in Folder(root, files) <==> name in files)
  {
    var path := root + [name];
    FolderMeans(root, files, path);
    assert |path| == 2 && path[..1] == root && path[1] == name;
    assert Look(Folder(root, files), path).Some? <==> path in Folder(root, files);
  }

  lemma ChangedIsPlain(review: Review, files: map<string, Content>, rels: seq<PathArg>)
    requires review.changed + review.added + review.deleted == rels
    requires forall rel :: rel in rels ==>
               && !rel.absolute && IsNormal(rel.parts) && rel.parts != [] && rel.parts[0] != ".quantagent"
               && !IsDir(Folder(ROOT, files), ROOT + rel.parts)
    ensures PlainIn(review, files)
  {
    OnlyChanged(review, rels);
  }

  // The test command takes longer than it may: the changed file stays as in the workspace, although a rollback was asked for.
  lemma SlowTest(files: map<string, Content>, workspace: Files, edited: Content, id: string)
    requires IsProject(files) && IsTree(workspace) && FileAt(workspace, ["w", "a"]) == Some(edited)
    ensures var review := ReviewOf([A], [], [], workspace);
            var (after, result) :=
              Gated(ROOT, Folder(ROOT, files), review, Granted(["sleep", "300"]), TestDoing(true), id, true);
            result == Err(TestRaised) && FileAt(after, ["p", "a"]) == Some(edited)
  {
    var review, command := ReviewOf([A], [], [], workspace), ["sleep", "300"];
    APath();
    InFolder(ROOT, files, "a");
    assert [A] + [] + [] == [A];
    ChangedIsPlain(review, files, [A]);
    GateOpens(files, review, command, TestDoing(true), id);
    AppliesA(files, review, command, id);
    assert ["p", "a"] != RECORD by { assert |"a"| != |"review.json"|; }
    SlowTestStays(ROOT, Folder(ROOT, files), review, Granted(command), TestDoing(true), id, A);
  }

  lemma AppliesA(files: map<string, Content>, review: Review, command: seq<string>, id: string)
    requires Opens(ROOT, Folder(ROOT, files), review, Granted(command), id)
    requires review.changed == [A] && review.added == [] && review.deleted == []
    requires review.workspaceRoot == WORKSPACE && IsFile(review.workspace, ["w", "a"])
    ensures Applies(ROOT, Folder(ROOT, files), review, Granted(command), id)
  {
    CanCopyA(files, review, command, id);
    assert [A] + [] == [A];
  }

  // The workspace has lost the second of two changed files: the first stays as in the workspace.
  lemma LostSecondFile(files: map<string, Content>, workspace: Files, edited: Content, id: string, rollback: bool)
    requires IsProject(files) && "b" in files
    requires IsTree(workspace) && FileAt(workspace, ["w", "a"]) == Some(edited) && ["w", "b"] !in workspace
    ensures var review := ReviewOf([A, B], [], [], workspace);
            var (after, result) := Gated(ROOT, Folder(ROOT, files), review, Granted([]), TestDoing(false), id, rollback);
            result.Err? && FileAt(after, ["p", "a"]) == Some(edited)
  {
    var review := ReviewOf([A, B], [], [], workspace);
    APath();
    InFolder(ROOT, files, "a");
    InFolder(ROOT, files, "b");
    assert [A, B] + [] + [] == [A, B];
    ChangedIsPlain(review, files, [A, B]);
    GateOpens(files, review, [], TestDoing(false), id);
    CanCopyA(files, review, [], id);
    assert |["p", "a"]| != |RecordPath(ROOT, id)|;
    HalfAppliedStays(ROOT, Folder(ROOT, files), review, Granted([]), TestDoing(false), id, rollback, A, B);
  }

  // The file "a" has become a directory with a file "b": nothing is applied, and the gate ends with an error.
  lemma DirectoryForFile(files: map<string, Content>, workspace: Files, id: string, rollback: bool, path: Path)
    requires IsProject(files) && IsTree(workspace) && IsFile(workspace, ["w", "a", "b"]) && path != RecordPath(ROOT, id)
    ensures var review := ReviewOf([], [A_B], [A], workspace);
            var (after, result) := Gated(ROOT, Folder(ROOT, files), review, Granted([]), TestDoing(false), id, rollback);
            result.Err? && FileAt(after, path) == FileAt(Folder(ROOT, files), path)
  {
    var review := ReviewOf([], [A_B], [A], workspace);
    InFolder(ROOT, files, "a");
    FolderMeans(ROOT, files, ROOT + ["a", "b"]);
    assert [] + [A_B] + [A] == [A_B, A];
    ChangedIsPlain(review, files, [A_B, A]);
    GateOpens(files, review, [], TestDoing(false), id);
    assert |ROOT + ["a"]| != |RecordPath(ROOT, id)|;
    FileBecomesDirectory(ROOT, Folder(ROOT, files), review, Granted([]), TestDoing(false), id, rollback, path);
  }
}
