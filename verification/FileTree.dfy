/** A file system as a map from paths to files and directories, with the operations that can fail on a mix-up of the two. */
module FileTree {
  import opened Wrappers

  // A path, as its components.
  type Path = seq<string>

  datatype Node<T> = Directory | File(content: T)

  type Tree<T> = map<Path, Node<T>>

  datatype Fault = IsADirectory | NotADirectory

  predicate IsFile<T>(tree: Tree<T>, path: Path) {
    path in tree && tree[path].File?
  }

  predicate IsDir<T>(tree: Tree<T>, path: Path) {
    path in tree && tree[path].Directory?
  }

  // Everything above a file or directory is a directory.
  ghost predicate IsTree<T>(tree: Tree<T>) {
    forall path, above :: path in tree && above < path ==> IsDir(tree, above)
  }

  // A file stands where a directory above the path is needed.
  predicate BelowFile<T>(tree: Tree<T>, path: Path) {
    exists k :: 0 <= k < |path| && IsFile(tree, path[..k])
  }

  predicate CanWrite<T>(tree: Tree<T>, path: Path) {
    !BelowFile(tree, path) && !IsDir(tree, path)
  }

  function Look<T>(tree: Tree<T>, path: Path): Option<Node<T>> {
    if path in tree then Some(tree[path]) else None
  }

  function FileAt<T>(tree: Tree<T>, path: Path): Option<T> {
    if IsFile(tree, path) then Some(tree[path].content) else None
  }

  // Nothing lies below a file.
  lemma FilesAreLeaves<T>(tree: Tree<T>, a: Path, b: Path)
    requires IsTree(tree) && IsFile(tree, a) && b in tree
    ensures !(a < b)
  {
    assert a < b ==> IsDir(tree, a);
  }

  // Makes the directories above a path that are missing.
  function WithParents<T>(tree: Tree<T>, path: Path): Tree<T> {
    var above := set k | 0 <= k < |path| :: path[..k];
    tree + map p | p in above && p !in tree :: Directory
  }

  // Writes a file, making the directories above it.
  function Write<T>(tree: Tree<T>, path: Path, content: T): (Tree<T>, Option<Fault>) {
    if BelowFile(tree, path) then (tree, Some(NotADirectory))
    else if IsDir(tree, path) then (WithParents(tree, path), Some(IsADirectory))
    else (WithParents(tree, path)[path := File(content)], None)
  }

  // Deletes a file if there is one.
  function Unlink<T>(tree: Tree<T>, path: Path): (Tree<T>, Option<Fault>) {
    if path !in tree then (tree, None)
    else if IsDir(tree, path) then (tree, Some(IsADirectory))
    else (tree - {path}, None)
  }

  lemma BelowFileIff<T>(tree: Tree<T>, path: Path)
    ensures BelowFile(tree, path) <==> exists above :: above < path && IsFile(tree, above)
  {
    if BelowFile(tree, path) {
      var k :| 0 <= k < |path| && IsFile(tree, path[..k]);
      assert path[..k] < path;
    }
    if above :| above < path && IsFile(tree, above) {
      assert path[..|above|] == above;
    }
  }

  lemma AboveIff(path: Path, p: Path)
    ensures p in (set k | 0 <= k < |path| :: path[..k]) <==> p < path
  {
    if p < path {
      assert path[..|p|] == p;
    }
  }

  lemma WithParentsMeans<T>(tree: Tree<T>, path: Path, p: Path)
    ensures Look(WithParents(tree, path), p) ==
            if p in tree then Some(tree[p]) else if p < path then Some(Directory) else None
  {
    AboveIff(path, p);
  }

  lemma WithParentsIsTree<T>(tree: Tree<T>, path: Path)
    requires IsTree(tree) && !BelowFile(tree, path)
    ensures IsTree(WithParents(tree, path))
    ensures forall above :: above < path ==> IsDir(WithParents(tree, path), above)
  {
    var grown := WithParents(tree, path);
    forall p ensures Look(grown, p) == if p in tree then Some(tree[p]) else if p < path then Some(Directory) else None {
      WithParentsMeans(tree, path, p);
    }
    BelowFileIff(tree, path);
    forall above | above < path ensures IsDir(grown, above) {
      assert Look(grown, above).Some? && !IsFile(tree, above);
    }
    forall p, above | p in grown && above < p ensures IsDir(grown, above) {
      assert Look(grown, p).Some?;
      if p in tree {
        assert IsDir(tree, above) && Look(grown, above) == Some(tree[above]);
      } else {
        assert above < path;
      }
    }
  }

  // Writing fails exactly on the two mix-ups, and then changes nothing; else the file is there, and the directories above it.
  lemma WriteMeans<T>(tree: Tree<T>, path: Path, content: T)
    requires IsTree(tree)
    ensures var (after, fault) := Write(tree, path, content);
            && IsTree(after)
            && (fault.None? <==> CanWrite(tree, path))
            && (fault.Some? ==> after == tree)
            && (fault.None? ==> forall p ::
                 Look(after, p) == if p == path then Some(File(content)) else if p in tree then Some(tree[p])
                                   else if p < path then Some(Directory) else None)
  {
    if !BelowFile(tree, path) {
      WithParentsIsTree(tree, path);
      forall p ensures Look(WithParents(tree, path), p) ==
                       if p in tree then Some(tree[p]) else if p < path then Some(Directory) else None
      {
        WithParentsMeans(tree, path, p);
      }
      if IsDir(tree, path) {
        forall p ensures Look(WithParents(tree, path), p) == Look(tree, p) {
          assert p < path ==> IsDir(tree, p);
        }
        SameLooks(WithParents(tree, path), tree);
      } else {
        FileKeepsTree(WithParents(tree, path), path, content);
      }
    }
  }

  lemma SameLooks<T>(a: Tree<T>, b: Tree<T>)
    requires forall p :: Look(a, p) == Look(b, p)
    ensures a == b
  {
    forall p ensures p in a <==> p in b {
      assert Look(a, p) == Look(b, p);
    }
    forall p | p in a ensures a[p] == b[p] {
      assert Look(a, p) == Look(b, p);
    }
  }

  lemma FileKeepsTree<T>(tree: Tree<T>, path: Path, content: T)
    requires IsTree(tree) && !IsDir(tree, path) && forall above :: above < path ==> IsDir(tree, above)
    ensures IsTree(tree[path := File(content)])
  {
    var after := tree[path := File(content)];
    forall p, above | p in after && above < p ensures IsDir(after, above) {
      assert IsDir(tree, above);
    }
  }

  lemma UnlinkMeans<T>(tree: Tree<T>, path: Path)
    requires IsTree(tree)
    ensures var (after, fault) := Unlink(tree, path);
            && IsTree(after)
            && (fault.None? <==> !IsDir(tree, path))
            && (fault.Some? ==> after == tree)
            && (fault.None? ==> forall p :: Look(after, p) == if p == path then None else Look(tree, p))
  {
    var after := Unlink(tree, path).0;
    forall p, above | p in after && above < p ensures IsDir(after, above) {
      assert IsDir(tree, above);
    }
  }
}
