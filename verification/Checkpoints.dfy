/**
 Checkpoints of quantagent/checkpoints.py: snapshots of files inside a project, kept as a record in the project itself,
 and put back by restoring.
 */
module Checkpoints {
  import opened FileTree
  import opened Wrappers

  // A path as a caller writes it; ".." components are still in it.
  datatype PathArg = PathArg(absolute: bool, parts: seq<string>)

  // What a file holds. A record is kept as its JSON text, which is taken to be injective.
  datatype Content = Text(text: string) | Saved(record: Record)

  datatype Record = Record(id: string, files: seq<Snapshot>)

  datatype Snapshot = Snapshot(path: Path, existed: bool, text: Content)

  type Files = Tree<Content>

  datatype Error = PathEscapesProject | NoSuchCheckpoint | NotACheckpoint | FileFault(fault: Fault)

  // ---------- Paths ----------

  // `done` followed by `parts`, with each ".." taken away together with the component before it.
  function Normalize(parts: seq<string>, done: Path): Path
    decreases |parts|
  {
    if parts == [] then done
    else Normalize(parts[1..], if parts[0] != ".." then done + [parts[0]] else if done == [] then [] else done[..|done| - 1])
  }

  predicate IsNormal(path: Path) {
    forall k :: 0 <= k < |path| ==> path[k] != ".."
  }

  predicate Inside(path: Path, root: Path) {
    root <= path
  }

  function Resolve(root: Path, arg: PathArg): Result<Path, Error> {
    var resolved := Normalize(if arg.absolute then arg.parts else root + arg.parts, []);
    if Inside(resolved, root) then Ok(resolved) else Err(PathEscapesProject)
  }

  lemma {:induction false} NormalizeKeepsNormal(parts: seq<string>, done: Path)
    requires IsNormal(done)
    ensures IsNormal(Normalize(parts, done))
    ensures IsNormal(parts) ==> Normalize(parts, done) == done + parts
    decreases |parts|
  {
    if parts == [] {
    } else {
      var next := if parts[0] != ".." then done + [parts[0]] else if done == [] then [] else done[..|done| - 1];
      NormalizeKeepsNormal(parts[1..], next);
      assert [parts[0]] + parts[1..] == parts;
      assert IsNormal(parts) ==> IsNormal(parts[1..]) && next + parts[1..] == done + parts;
    }
  }

  // A resolved path lies inside the project without any "..", and the path stored for it leads back to it.
  lemma ResolvesInside(root: Path, arg: PathArg)
    requires IsNormal(root) && Resolve(root, arg).Ok?
    ensures var target := Resolve(root, arg).value;
            && root <= target && IsNormal(target)
            && Resolve(root, PathArg(false, target[|root|..])) == Ok(target)
  {
    NormalizeKeepsNormal(if arg.absolute then arg.parts else root + arg.parts, []);
    var target := Resolve(root, arg).value;
    assert root + target[|root|..] == target == [] + target;
    NormalizeKeepsNormal(target, []);
  }

  // ---------- Reading text ----------

  // What reading a text file makes of it: both "\r\n" and "\r" become "\n". Writing changes nothing.
  function Newlines(text: string): string
    decreases |text|
  {
    if text == "" then ""
    else if text[0] != '\r' then [text[0]] + Newlines(text[1..])
    else "\n" + Newlines(if |text| > 1 && text[1] == '\n' then text[2..] else text[1..])
  }

  // A record is JSON text, in which every carriage return is escaped.
  function ReadText(content: Content): Content {
    match content
    case Text(text) => Text(Newlines(text))
    case Saved(record) => content
  }

  function AsRead(files: Files): Files {
    map path | path in files ::
      match files[path] { case Directory => Directory case File(content) => File(ReadText(content)) }
  }

  predicate HoldsReturn(content: Content) {
    content.Text? && '\r' in content.text
  }

  lemma {:induction false} NewlinesSameIff(text: string)
    ensures '\r' !in Newlines(text)
    ensures Newlines(text) == text <==> '\r' !in text
    decreases |text|
  {
    if text == "" {
    } else if text[0] != '\r' {
      NewlinesSameIff(text[1..]);
      assert text == [text[0]] + text[1..];
    } else {
      NewlinesSameIff(if |text| > 1 && text[1] == '\n' then text[2..] else text[1..]);
      assert Newlines(text)[0] == '\n';
    }
  }

  // Reading keeps a content exactly when it holds no carriage return.
  lemma ReadSameIff(content: Content)
    ensures ReadText(content) == content <==> !HoldsReturn(content)
  {
    if content.Text? {
      NewlinesSameIff(content.text);
    }
  }

  // ---------- Snapshots and records ----------

  // A directory cannot be read.
  function TakeSnapshot(root: Path, files: Files, arg: PathArg): Result<Snapshot, Error> {
    match Resolve(root, arg)
    case Err(error) => Err(error)
    case Ok(target) =>
      assert root <= target;
      if IsDir(files, target) then Err(FileFault(IsADirectory))
      else if IsFile(files, target) then Ok(Snapshot(target[|root|..], true, ReadText(files[target].content)))
      else Ok(Snapshot(target[|root|..], false, Text("")))
  }

  function TakeSnapshots(root: Path, files: Files, args: seq<PathArg>): Result<seq<Snapshot>, Error> {
    if args == [] then Ok([])
    else
      match TakeSnapshot(root, files, args[0])
      case Err(error) => Err(error)
      case Ok(first) =>
        match TakeSnapshots(root, files, args[1..])
        case Err(error) => Err(error)
        case Ok(rest) => Ok([first] + rest)
  }

  function RecordPath(root: Path, id: string): Path {
    root + [".quantagent", "checkpoints", id + ".json"]
  }

  function Create(root: Path, files: Files, args: seq<PathArg>, id: string): (Files, Result<Record, Error>) {
    match TakeSnapshots(root, files, args)
    case Err(error) => (files, Err(error))
    case Ok(snapshots) =>
      var (after, fault) := Write(files, RecordPath(root, id), Saved(Record(id, snapshots)));
      (after, if fault.Some? then Err(FileFault(fault.value)) else Ok(Record(id, snapshots)))
  }

  function PutBack(files: Files, target: Path, snapshot: Snapshot): (Files, Option<Fault>) {
    if snapshot.existed then Write(files, target, snapshot.text) else Unlink(files, target)
  }

  // Puts the snapshots back in order, up to the first that cannot be.
  function PutBackAll(root: Path, files: Files, snapshots: seq<Snapshot>): (Files, Option<Error>)
    decreases |snapshots|
  {
    if snapshots == [] then (files, None)
    else
      match Resolve(root, PathArg(false, snapshots[0].path))
      case Err(error) => (files, Some(error))
      case Ok(target) =>
        var (next, fault) := PutBack(files, target, snapshots[0]);
        if fault.Some? then (next, Some(FileFault(fault.value))) else PutBackAll(root, next, snapshots[1..])
  }

  function LoadRecord(root: Path, files: Files, id: string): Result<Record, Error> {
    var path := RecordPath(root, id);
    if path !in files then Err(NoSuchCheckpoint)
    else
      match files[path]
      case Directory => Err(FileFault(IsADirectory))
      case File(Text(_)) => Err(NotACheckpoint)
      case File(Saved(record)) => Ok(record)
  }

  function Restore(root: Path, files: Files, id: string): (Files, Result<Record, Error>) {
    match LoadRecord(root, files, id)
    case Err(error) => (files, Err(error))
    case Ok(record) =>
      var (after, failure) := PutBackAll(root, files, record.files);
      (after, if failure.Some? then Err(failure.value) else Ok(record))
  }

  class Project {
    const root: Path
    var files: Files

    constructor (root: Path, files: Files)
      ensures this.root == root && this.files == files
    {
      this.root := root;
      this.files := files;
    }

    method CreateCheckpoint(args: seq<PathArg>, id: string) returns (result: Result<Record, Error>)
      modifies this
      ensures (files, result) == Create(root, old(files), args, id)
    {
      var snapshots: seq<Snapshot> := [];
      var i := 0;
      ghost var all := TakeSnapshots(root, files, args);
      assert args[0..] == args;
      assert all.Ok? ==> [] + all.value == all.value;
      while i < |args|
        invariant 0 <= i <= |args|
        invariant files == old(files) && all == TakeSnapshots(root, files, args)
        invariant all ==
                  match TakeSnapshots(root, files, args[i..]) { case Err(error) => Err(error) case Ok(rest) => Ok(snapshots + rest) }
      {
        var snapshot := TakeSnapshot(root, files, args[i]);
        assert args[i..][0] == args[i] && args[i..][1..] == args[i + 1..];
        if snapshot.Err? {
          return Err(snapshot.error);
        }
        ghost var rest := TakeSnapshots(root, files, args[i + 1..]);
        assert rest.Ok? ==> snapshots + ([snapshot.value] + rest.value) == snapshots + [snapshot.value] + rest.value;
        snapshots := snapshots + [snapshot.value];
        i := i + 1;
      }
      assert args[i..] == [] && snapshots + [] == snapshots;
      var record := Record(id, snapshots);
      var (after, fault) := Write(files, RecordPath(root, id), Saved(record));
      files := after;
      result := if fault.Some? then Err(FileFault(fault.value)) else Ok(record);
    }

    method RestoreCheckpoint(id: string) returns (result: Result<Record, Error>)
      modifies this
      ensures (files, result) == Restore(root, old(files), id)
    {
      var loaded := LoadRecord(root, files, id);
      if loaded.Err? {
        return loaded;
      }
      var snapshots := loaded.value.files;
      var i := 0;
      while i < |snapshots|
        invariant 0 <= i <= |snapshots|
        invariant PutBackAll(root, old(files), snapshots) == PutBackAll(root, files, snapshots[i..])
      {
        var target := Resolve(root, PathArg(false, snapshots[i].path));
        if target.Err? {
          return Err(target.error);
        }
        var (next, fault) := PutBack(files, target.value, snapshots[i]);
        assert snapshots[i..][1..] == snapshots[i + 1..];
        files := next;
        if fault.Some? {
          return Err(FileFault(fault.value));
        }
        i := i + 1;
      }
      result := loaded;
    }
  }

  // ---------- The round trip ----------

  // The snapshot is of a path inside the project that is no directory, and says what `files` holds there.
  ghost predicate Describes(root: Path, files: Files, snapshot: Snapshot) {
    var target := root + snapshot.path;
    && Resolve(root, PathArg(false, snapshot.path)) == Ok(target)
    && !IsDir(files, target)
    && snapshot.existed == IsFile(files, target)
    && (snapshot.existed ==> snapshot.text == files[target].content)
  }

  ghost predicate Lists(args: seq<PathArg>, root: Path, path: Path) {
    exists k :: 0 <= k < |args| && Resolve(root, args[k]) == Ok(path)
  }

  ghost predicate Covers(snapshots: seq<Snapshot>, root: Path, path: Path) {
    exists k :: 0 <= k < |snapshots| && root + snapshots[k].path == path
  }

  // A checkpoint can be taken of a path that stays in the project and is no directory.
  predicate Listable(root: Path, files: Files, arg: PathArg) {
    var target := Resolve(root, arg);
    target.Ok? && !IsDir(files, target.value)
  }

  lemma AsReadMeans(files: Files, path: Path)
    ensures IsDir(AsRead(files), path) == IsDir(files, path) && IsFile(AsRead(files), path) == IsFile(files, path)
    ensures FileAt(AsRead(files), path) == match FileAt(files, path) { case None => None case Some(content) => Some(ReadText(content)) }
  {
  }

  lemma SnapshotDescribes(root: Path, files: Files, arg: PathArg)
    requires IsNormal(root) && Listable(root, files, arg)
    ensures TakeSnapshot(root, files, arg).Ok?
    ensures Matches(root, files, arg, TakeSnapshot(root, files, arg).value)
  {
    ResolvesInside(root, arg);
    var target := Resolve(root, arg).value;
    assert root + target[|root|..] == target;
    AsReadMeans(files, target);
  }

  // The snapshot is the one of the listed path.
  ghost predicate Matches(root: Path, files: Files, arg: PathArg, snapshot: Snapshot) {
    Describes(root, AsRead(files), snapshot) && Resolve(root, arg) == Ok(root + snapshot.path)
  }

  // Snapshots are taken of the listed paths and no others, unless some path cannot be listed.
  lemma {:induction false} SnapshotsMatchList(root: Path, files: Files, args: seq<PathArg>)
    requires IsNormal(root)
    ensures var taken := TakeSnapshots(root, files, args);
            && (taken.Ok? <==> forall k :: 0 <= k < |args| ==> Listable(root, files, args[k]))
            && (taken.Ok? ==> |taken.value| == |args|)
            && (taken.Ok? ==> forall k :: 0 <= k < |args| ==> Matches(root, files, args[k], taken.value[k]))
  {
    if args == [] {
    } else {
      SnapshotsMatchList(root, files, args[1..]);
      assert forall k :: 0 < k < |args| ==> args[k] == args[1..][k - 1];
      if Listable(root, files, args[0]) {
        SnapshotDescribes(root, files, args[0]);
        var first := TakeSnapshot(root, files, args[0]).value;
        var taken, rest := TakeSnapshots(root, files, args), TakeSnapshots(root, files, args[1..]);
        assert taken.Ok? ==> rest.Ok? && taken.value == [first] + rest.value;
      }
    }
  }

  lemma SnapshotsCoverList(root: Path, files: Files, args: seq<PathArg>, path: Path)
    requires IsNormal(root) && TakeSnapshots(root, files, args).Ok?
    ensures var snapshots := TakeSnapshots(root, files, args).value;
            && (forall k :: 0 <= k < |snapshots| ==> Describes(root, AsRead(files), snapshots[k]))
            && (Covers(snapshots, root, path) <==> Lists(args, root, path))
  {
    var snapshots := TakeSnapshots(root, files, args).value;
    SnapshotsMatchList(root, files, args);
    forall k | 0 <= k < |snapshots|
      ensures Describes(root, AsRead(files), snapshots[k])
      ensures root + snapshots[k].path == path <==> Resolve(root, args[k]) == Ok(path)
    {
      assert Matches(root, files, args[k], snapshots[k]);
    }
  }

  // A checkpoint is refused exactly when some listed path escapes the project or is a directory, or its record cannot be
  // written; and then nothing is. Otherwise the record is there, and nothing else has changed but directories made for it.
  lemma CreateRefusedIff(root: Path, files: Files, args: seq<PathArg>, id: string)
    requires IsNormal(root) && IsTree(files)
    ensures var (after, result) := Create(root, files, args, id);
            var record := RecordPath(root, id);
            && IsTree(after)
            && (result.Err? <==> (exists k :: 0 <= k < |args| && !Listable(root, files, args[k])) || !CanWrite(files, record))
            && (result.Err? ==> after == files)
            && (result.Ok? ==> FileAt(after, record) == Some(Saved(result.value)))
            && (result.Ok? ==> forall path :: path != record ==>
                 Look(after, path) == if path in files then Some(files[path]) else if path < record then Some(Directory) else None)
  {
    SnapshotsMatchList(root, files, args);
    var taken := TakeSnapshots(root, files, args);
    if taken.Ok? {
      WriteMeans(files, RecordPath(root, id), Saved(Record(id, taken.value)));
      assert taken.Ok? ==> Look(Create(root, files, args, id).0, RecordPath(root, id)).Some? || !CanWrite(files, RecordPath(root, id));
    }
  }

  // A listed path can be put back to what it was: it is no directory now, and a file can be written there again.
  predicate Restorable(before: Files, now: Files, path: Path) {
    !IsDir(now, path) && (IsFile(before, path) ==> !BelowFile(now, path))
  }

  ghost predicate SnapshotsRestorable(root: Path, before: Files, now: Files, snapshots: seq<Snapshot>) {
    forall k :: 0 <= k < |snapshots| ==> Restorable(before, now, root + snapshots[k].path)
  }

  // What putting back one path leaves at `p`.
  ghost function LookAfterPut(before: Files, now: Files, put: Path, p: Path): Option<Node<Content>> {
    if p == put then Look(before, put)
    else if p in now then Some(now[p])
    else if IsFile(before, put) && p < put then Some(Directory)
    else None
  }

  // What putting back all of them leaves at `path`.
  ghost function PutBackLook(root: Path, before: Files, now: Files, snapshots: seq<Snapshot>, path: Path): Option<Node<Content>> {
    if Covers(snapshots, root, path) then Look(before, path)
    else if path in now then Some(now[path])
    else if exists k :: 0 <= k < |snapshots| && path < root + snapshots[k].path && IsFile(before, root + snapshots[k].path) then
      Some(Directory)
    else None
  }

  // Putting back one path does not change which others can be put back.
  lemma PutBackKeepsRestorable(before: Files, now: Files, next: Files, put: Path, path: Path)
    requires IsTree(before) && IsTree(now)
    requires !IsDir(before, put) && !IsDir(before, path) && Restorable(before, now, put)
    requires forall p :: Look(next, p) == LookAfterPut(before, now, put, p)
    ensures Restorable(before, next, path) <==> Restorable(before, now, path)
  {
    assert Look(next, path).Some? <==> path in next;
    assert IsDir(next, path) <==> IsDir(now, path);
    BelowFileIff(now, path);
    BelowFileIff(next, path);
    if IsFile(before, path) {
      forall above | above < path ensures IsFile(next, above) <==> IsFile(now, above) {
        assert IsDir(before, above) && above != put;
        assert Look(next, above).Some? <==> above in next;
      }
    }
  }

  // Snapshots that describe `before` are put back if and only if each can be; then every covered path is as it was before, and
  // only directories needed for that are made anew.
  lemma {:induction false} PutBackMeans(root: Path, before: Files, now: Files, snapshots: seq<Snapshot>)
    requires IsTree(before) && IsTree(now)
    requires forall k :: 0 <= k < |snapshots| ==> Describes(root, before, snapshots[k])
    ensures var (after, failure) := PutBackAll(root, now, snapshots);
            && IsTree(after)
            && (failure.None? <==> SnapshotsRestorable(root, before, now, snapshots))
            && (failure.None? ==> forall path :: Look(after, path) == PutBackLook(root, before, now, snapshots, path))
    decreases |snapshots|
  {
    if snapshots == [] {
    } else {
      var rest, put := snapshots[1..], root + snapshots[0].path;
      assert Describes(root, before, snapshots[0]);
      PutBackFirst(root, before, now, snapshots[0]);
      var (next, fault) := PutBack(now, put, snapshots[0]);
      if fault.None? {
        PutBackMeans(root, before, next, rest);
        forall k | 0 <= k < |rest|
          ensures Restorable(before, next, root + rest[k].path) <==> Restorable(before, now, root + snapshots[k + 1].path)
        {
          PutBackKeepsRestorable(before, now, next, put, root + rest[k].path);
        }
        if PutBackAll(root, next, rest).1.None? {
          forall path ensures PutBackLook(root, before, next, rest, path) == PutBackLook(root, before, now, snapshots, path) {
            PutBackLookCons(root, before, now, next, snapshots, path);
          }
        }
      }
    }
  }

  lemma PutBackFirst(root: Path, before: Files, now: Files, snapshot: Snapshot)
    requires IsTree(before) && IsTree(now) && Describes(root, before, snapshot)
    ensures var put := root + snapshot.path;
            var (next, fault) := PutBack(now, put, snapshot);
            && IsTree(next)
            && (fault.None? <==> Restorable(before, now, put))
            && (fault.None? ==> forall p :: Look(next, p) == LookAfterPut(before, now, put, p))
  {
    WriteMeans(now, root + snapshot.path, snapshot.text);
    UnlinkMeans(now, root + snapshot.path);
  }

  lemma PutBackLookCons(root: Path, before: Files, now: Files, next: Files, snapshots: seq<Snapshot>, path: Path)
    requires snapshots != [] && IsTree(before)
    requires forall k :: 0 <= k < |snapshots| ==> Describes(root, before, snapshots[k])
    requires var put := root + snapshots[0].path;
             forall p :: Look(next, p) == LookAfterPut(before, now, put, p)
    ensures PutBackLook(root, before, next, snapshots[1..], path) == PutBackLook(root, before, now, snapshots, path)
  {
    var put, rest := root + snapshots[0].path, snapshots[1..];
    CoversFirst(snapshots, root, path);
    assert Describes(root, before, snapshots[0]);
    assert Look(next, path).Some? <==> path in next;
    var some := exists k :: 0 <= k < |rest| && path < root + rest[k].path && IsFile(before, root + rest[k].path);
    if some {
      var k :| 0 <= k < |rest| && path < root + rest[k].path && IsFile(before, root + rest[k].path);
      assert snapshots[k + 1] == rest[k] && IsDir(before, path);
    }
    if k :| 0 <= k < |snapshots| && path < root + snapshots[k].path && IsFile(before, root + snapshots[k].path) {
      assert k > 0 ==> rest[k - 1] == snapshots[k];
    }
  }

  lemma CoversFirst(snapshots: seq<Snapshot>, root: Path, path: Path)
    requires snapshots != []
    ensures Covers(snapshots, root, path) <==> root + snapshots[0].path == path || Covers(snapshots[1..], root, path)
  {
    if Covers(snapshots, root, path) && root + snapshots[0].path != path {
      var k :| 0 <= k < |snapshots| && root + snapshots[k].path == path;
      assert snapshots[1..][k - 1] == snapshots[k];
    }
    if Covers(snapshots[1..], root, path) {
      var k :| 0 <= k < |snapshots[1..]| && root + snapshots[1..][k].path == path;
      assert snapshots[k + 1] == snapshots[1..][k];
    }
  }

  lemma AsReadKeeps(files: Files)
    ensures IsTree(files) ==> IsTree(AsRead(files))
    ensures forall now, path :: Restorable(AsRead(files), now, path) <==> Restorable(files, now, path)
  {
    forall path ensures IsDir(AsRead(files), path) == IsDir(files, path) && IsFile(AsRead(files), path) == IsFile(files, path) {
      AsReadMeans(files, path);
    }
  }

  ghost predicate AllRestorable(root: Path, before: Files, now: Files, args: seq<PathArg>) {
    forall k :: 0 <= k < |args| && Resolve(root, args[k]).Ok? ==> Restorable(before, now, Resolve(root, args[k]).value)
  }

  // The record of a checkpoint is still what was written.
  ghost predicate RecordThere(root: Path, before: Files, args: seq<PathArg>, id: string, now: Files) {
    && Create(root, before, args, id).1.Ok?
    && FileAt(now, RecordPath(root, id)) == Some(Saved(Create(root, before, args, id).1.value))
  }

  // A directory above a listed file.
  ghost predicate AboveListed(root: Path, before: Files, args: seq<PathArg>, path: Path) {
    exists p :: Lists(args, root, p) && path < p && IsFile(before, p)
  }

  // What restoring the checkpoint leaves at `path`: listed paths as they were, their text as read, and directories made again.
  ghost function RestoredLook(root: Path, before: Files, args: seq<PathArg>, now: Files, path: Path): Option<Node<Content>> {
    if Lists(args, root, path) then Look(AsRead(before), path)
    else if path in now then Some(now[path])
    else if AboveListed(root, before, args, path) then Some(Directory)
    else None
  }

  // Whatever was written or deleted after a checkpoint, as long as its record is still there: restoring completes if and only if
  // each listed path is no directory now and, if it was a file, has no file above it. Then every listed path is as it was before,
  // its text as read, and nothing else changes but directories made again. A path may be listed twice.
  lemma RestoreAfterAnything(root: Path, before: Files, args: seq<PathArg>, id: string, now: Files)
    requires IsNormal(root) && IsTree(before) && IsTree(now) && RecordThere(root, before, args, id, now)
    ensures var (after, result) := Restore(root, now, id);
            && IsTree(after)
            && (result.Ok? <==> AllRestorable(root, before, now, args))
            && (result.Ok? ==> result == Create(root, before, args, id).1)
            && (result.Ok? ==> forall path :: Look(after, path) == RestoredLook(root, before, args, now, path))
  {
    var snapshots := TakeSnapshots(root, before, args).value;
    RestoreIsPutBack(root, before, args, id, now, snapshots);
    PutBackRestorable(root, before, args, now, snapshots);
    AsReadKeeps(before);
    SnapshotsDescribe(root, before, args);
    PutBackMeans(root, AsRead(before), now, snapshots);
    assert Restore(root, now, id).1.Ok? <==> PutBackAll(root, now, snapshots).1.None?;
    assert Restore(root, now, id).1.Ok? <==> SnapshotsRestorable(root, AsRead(before), now, snapshots);
    assert Restore(root, now, id).1.Ok? <==> AllRestorable(root, before, now, args);
    forall path ensures PutBackLook(root, AsRead(before), now, snapshots, path) == RestoredLook(root, before, args, now, path) {
      RestoredLookIs(root, before, args, now, snapshots, path);
    }
  }

  lemma RestoreIsPutBack(root: Path, before: Files, args: seq<PathArg>, id: string, now: Files, snapshots: seq<Snapshot>)
    requires RecordThere(root, before, args, id, now) && TakeSnapshots(root, before, args) == Ok(snapshots)
    ensures var (after, failure) := PutBackAll(root, now, snapshots);
            Restore(root, now, id) ==
            (after, if failure.Some? then Err(failure.value) else Create(root, before, args, id).1)
  {
  }

  lemma PutBackRestorable(root: Path, before: Files, args: seq<PathArg>, now: Files, snapshots: seq<Snapshot>)
    requires IsNormal(root) && TakeSnapshots(root, before, args) == Ok(snapshots)
    ensures SnapshotsRestorable(root, AsRead(before), now, snapshots) <==> AllRestorable(root, before, now, args)
  {
    SnapshotsDescribe(root, before, args);
    AsReadKeeps(before);
  }

  lemma RestoredLookIs(root: Path, before: Files, args: seq<PathArg>, now: Files, snapshots: seq<Snapshot>, path: Path)
    requires IsNormal(root) && TakeSnapshots(root, before, args) == Ok(snapshots)
    ensures PutBackLook(root, AsRead(before), now, snapshots, path) == RestoredLook(root, before, args, now, path)
  {
    SnapshotsCoverList(root, before, args, path);
    AboveIffCovered(root, before, args, path);
  }

  lemma SnapshotsDescribe(root: Path, before: Files, args: seq<PathArg>)
    requires IsNormal(root) && TakeSnapshots(root, before, args).Ok?
    ensures var snapshots := TakeSnapshots(root, before, args).value;
            && |snapshots| == |args|
            && (forall k :: 0 <= k < |args| ==> Describes(root, AsRead(before), snapshots[k]))
            && (forall k :: 0 <= k < |args| ==> Resolve(root, args[k]) == Ok(root + snapshots[k].path))
  {
    SnapshotsMatchList(root, before, args);
    var snapshots := TakeSnapshots(root, before, args).value;
    forall k | 0 <= k < |args|
      ensures Describes(root, AsRead(before), snapshots[k]) && Resolve(root, args[k]) == Ok(root + snapshots[k].path)
    {
      assert Matches(root, before, args[k], snapshots[k]);
    }
  }

  lemma AboveIffCovered(root: Path, before: Files, args: seq<PathArg>, path: Path)
    requires IsNormal(root) && TakeSnapshots(root, before, args).Ok?
    ensures var snapshots := TakeSnapshots(root, before, args).value;
            AboveListed(root, before, args, path) <==>
            exists k :: 0 <= k < |snapshots| && path < root + snapshots[k].path && IsFile(AsRead(before), root + snapshots[k].path)
  {
    var snapshots := TakeSnapshots(root, before, args).value;
    SnapshotsDescribe(root, before, args);
    if AboveListed(root, before, args, path) {
      var p :| Lists(args, root, p) && path < p && IsFile(before, p);
      var k :| 0 <= k < |args| && Resolve(root, args[k]) == Ok(p);
      AsReadMeans(before, p);
      assert root + snapshots[k].path == p;
    }
    if k :| 0 <= k < |snapshots| && path < root + snapshots[k].path && IsFile(AsRead(before), root + snapshots[k].path) {
      var p := root + snapshots[k].path;
      AsReadMeans(before, p);
      assert Resolve(root, args[k]) == Ok(p);
    }
  }

  // A restore that stops leaves the paths listed before the first that cannot be put back as they were, and all other files as
  // they are.
  lemma RestoreStopsAt(root: Path, before: Files, args: seq<PathArg>, id: string, now: Files, k: nat, path: Path)
    requires IsNormal(root) && IsTree(before) && IsTree(now) && RecordThere(root, before, args, id, now)
    requires k < |args| && AllRestorable(root, before, now, args[..k])
    requires Resolve(root, args[k]).Ok? && !Restorable(before, now, Resolve(root, args[k]).value)
    ensures var (after, result) := Restore(root, now, id);
            && result.Err?
            && FileAt(after, path) == FileAt(if Lists(args[..k], root, path) then AsRead(before) else now, path)
  {
    var snapshots := TakeSnapshots(root, before, args).value;
    RestoreIsPutBack(root, before, args, id, now, snapshots);
    AsReadKeeps(before);
    SnapshotsDescribe(root, before, args);
    forall j | 0 <= j < k ensures Restorable(AsRead(before), now, root + snapshots[j].path) {
      assert args[..k][j] == args[j];
    }
    PutBackStops(root, AsRead(before), now, snapshots, k);
    FrontPutBack(root, before, args, now, snapshots, k, path);
  }

  lemma FrontPutBack(root: Path, before: Files, args: seq<PathArg>, now: Files, snapshots: seq<Snapshot>, k: nat, path: Path)
    requires IsTree(AsRead(before)) && IsTree(now) && k <= |args| == |snapshots|
    requires forall j :: 0 <= j < |args| ==> Describes(root, AsRead(before), snapshots[j])
    requires forall j :: 0 <= j < |args| ==> Resolve(root, args[j]) == Ok(root + snapshots[j].path)
    requires forall j :: 0 <= j < k ==> Restorable(AsRead(before), now, root + snapshots[j].path)
    ensures FileAt(PutBackAll(root, now, snapshots[..k]).0, path)
         == FileAt(if Lists(args[..k], root, path) then AsRead(before) else now, path)
  {
    PutBackMeans(root, AsRead(before), now, snapshots[..k]);
    CoversFront(root, snapshots, args, k, path);
    var after := PutBackAll(root, now, snapshots[..k]).0;
    assert Look(after, path) == PutBackLook(root, AsRead(before), now, snapshots[..k], path);
    LookGivesFile(after, path);
    LookGivesFile(AsRead(before), path);
    LookGivesFile(now, path);
  }

  lemma LookGivesFile(files: Files, path: Path)
    ensures FileAt(files, path) == match Look(files, path) {
              case Some(File(content)) => Some(content)
              case _ => None
            }
  {
  }

  lemma CoversFront(root: Path, snapshots: seq<Snapshot>, args: seq<PathArg>, k: nat, path: Path)
    requires k <= |args| == |snapshots|
    requires forall j :: 0 <= j < |args| ==> Resolve(root, args[j]) == Ok(root + snapshots[j].path)
    ensures Covers(snapshots[..k], root, path) <==> Lists(args[..k], root, path)
  {
    if Covers(snapshots[..k], root, path) {
      var j :| 0 <= j < k && root + snapshots[..k][j].path == path;
      assert Resolve(root, args[..k][j]) == Ok(path);
    }
    if Lists(args[..k], root, path) {
      var j :| 0 <= j < k && Resolve(root, args[..k][j]) == Ok(path);
      assert root + snapshots[..k][j].path == path;
    }
  }

  lemma {:induction false} PutBackStops(root: Path, before: Files, now: Files, snapshots: seq<Snapshot>, k: nat)
    requires IsTree(before) && IsTree(now) && k < |snapshots|
    requires forall j :: 0 <= j < |snapshots| ==> Describes(root, before, snapshots[j])
    requires forall j :: 0 <= j < k ==> Restorable(before, now, root + snapshots[j].path)
    requires !Restorable(before, now, root + snapshots[k].path)
    ensures PutBackAll(root, now, snapshots).0 == PutBackAll(root, now, snapshots[..k]).0
    ensures PutBackAll(root, now, snapshots).1.Some?
    decreases k
  {
    assert Describes(root, before, snapshots[0]);
    PutBackFirst(root, before, now, snapshots[0]);
    var put := root + snapshots[0].path;
    var (next, fault) := PutBack(now, put, snapshots[0]);
    if k == 0 {
      FailedPutChangesNothing(root, before, now, snapshots[0]);
    } else {
      var rest := snapshots[1..];
      forall j | 0 <= j < |rest|
        ensures Restorable(before, next, root + rest[j].path) <==> Restorable(before, now, root + snapshots[j + 1].path)
      {
        assert Describes(root, before, snapshots[j + 1]);
        PutBackKeepsRestorable(before, now, next, put, root + rest[j].path);
      }
      PutBackStops(root, before, next, rest, k - 1);
      assert snapshots[..k][1..] == rest[..k - 1];
    }
  }

  lemma FailedPutChangesNothing(root: Path, before: Files, now: Files, snapshot: Snapshot)
    requires IsTree(before) && IsTree(now) && Describes(root, before, snapshot)
    requires !Restorable(before, now, root + snapshot.path)
    ensures PutBack(now, root + snapshot.path, snapshot).0 == now
  {
    WriteMeans(now, root + snapshot.path, snapshot.text);
    UnlinkMeans(now, root + snapshot.path);
  }

  // After a restore that completes, a listed path is exactly as it was if and only if it held no file with a carriage return.
  lemma RestoredExactlyIff(root: Path, before: Files, args: seq<PathArg>, id: string, now: Files, path: Path)
    requires IsNormal(root) && IsTree(before) && IsTree(now) && RecordThere(root, before, args, id, now)
    requires Lists(args, root, path) && AllRestorable(root, before, now, args)
    ensures Look(Restore(root, now, id).0, path) == Look(before, path)
            <==> !(IsFile(before, path) && HoldsReturn(before[path].content))
  {
    RestoreAfterAnything(root, before, args, id, now);
    if IsFile(before, path) {
      ReadSameIff(before[path].content);
    }
  }

  // Right after a checkpoint everything can be put back, unless its own record made a listed path a directory.
  lemma UntouchedRestorableIff(root: Path, before: Files, args: seq<PathArg>, id: string)
    requires IsNormal(root) && IsTree(before) && Create(root, before, args, id).1.Ok?
    ensures AllRestorable(root, before, Create(root, before, args, id).0, args)
            <==> forall path :: Lists(args, root, path) ==> !(path < RecordPath(root, id))
  {
    var saved, record := Create(root, before, args, id).0, RecordPath(root, id);
    CreateRefusedIff(root, before, args, id);
    forall k | 0 <= k < |args|
      ensures var path := Resolve(root, args[k]).value; Restorable(before, saved, path) <==> !(path < record)
      ensures Lists(args, root, Resolve(root, args[k]).value)
    {
      assert Listable(root, before, args[k]);
      SavedRestorableIff(before, saved, record, Resolve(root, args[k]).value);
    }
  }

  lemma SavedRestorableIff(before: Files, saved: Files, record: Path, path: Path)
    requires IsTree(before) && IsTree(saved) && IsFile(saved, record) && !IsDir(before, path)
    requires forall p :: p != record ==>
               Look(saved, p) == if p in before then Some(before[p]) else if p < record then Some(Directory) else None
    ensures Restorable(before, saved, path) <==> !(path < record)
  {
    assert path < record ==> IsDir(saved, path);
    assert Look(saved, path).Some? <==> path in saved;
    if IsFile(before, path) {
      BelowFileIff(saved, path);
      forall above | above < path ensures !IsFile(saved, above) {
        assert IsDir(before, above) && (path in saved ==> IsDir(saved, above));
        assert path != record ==> Look(saved, path) == Some(before[path]);
      }
    }
  }

  // A file with Windows line ends that nobody touched is changed by restoring it.
  lemma LineEndsAreLost(root: Path, before: Files, args: seq<PathArg>, id: string, path: Path)
    requires IsNormal(root) && IsTree(before) && Create(root, before, args, id).1.Ok?
    requires Lists(args, root, path) && FileAt(before, path) == Some(Text("a\r\nb"))
    requires forall p :: Lists(args, root, p) ==> !(p < RecordPath(root, id))
    ensures var (after, result) := Restore(root, Create(root, before, args, id).0, id);
            result.Ok? && FileAt(after, path) == Some(Text("a\nb"))
  {
    var saved := Create(root, before, args, id).0;
    UntouchedRestorableIff(root, before, args, id);
    CreateRefusedIff(root, before, args, id);
    RestoreAfterAnything(root, before, args, id, saved);
    assert Look(Restore(root, saved, id).0, path) == Look(AsRead(before), path);
    CrlfIsRead();
  }

  lemma CrlfIsRead()
    ensures Newlines("a\r\nb") == "a\nb"
  {
    assert Newlines("a\r\nb") == "a" + Newlines("\r\nb");
    assert "a\r\nb"[1..] == "\r\nb" && "\r\nb"[2..] == "b" && "b"[1..] == "";
  }

  // Whatever a record on disk says, restoring it changes no file outside the project, and there only makes directories above it.
  lemma {:induction false} RestoreStaysInside(root: Path, files: Files, snapshots: seq<Snapshot>, path: Path)
    requires IsTree(files) && !Inside(path, root)
    ensures var after := PutBackAll(root, files, snapshots).0;
            IsTree(after) && (Look(after, path) == Look(files, path) || (path !in files && path < root && IsDir(after, path)))
    decreases |snapshots|
  {
    if snapshots == [] {
    } else {
      var target := Resolve(root, PathArg(false, snapshots[0].path));
      if target.Ok? {
        WriteMeans(files, target.value, snapshots[0].text);
        UnlinkMeans(files, target.value);
        RestoreStaysInside(root, PutBack(files, target.value, snapshots[0]).0, snapshots[1..], path);
      }
    }
  }
}
