/**
 The directory walk of the media garbage collector (`walk_files` in
 crates/server/src/worker.rs): an explicit stack of directories still to be read.
 */
module FileWalk {
  import opened Basics

  /** A path relative to the media directory, component by component. */
  type Path = seq<string>

  datatype Entry = Dir | File(mtime: Option<nat>)

  type FileSystem = map<Path, Entry>

  /** Every entry sits in a directory that exists. */
  ghost predicate Tree(fs: FileSystem) {
    forall p :: p in fs ==> InTree(fs, p)
  }

  ghost predicate InTree(fs: FileSystem, p: Path) {
    p != [] && (|p| > 1 ==> p[..|p| - 1] in fs && fs[p[..|p| - 1]].Dir?)
  }

  /** What `read_dir` lists. */
  function Children(fs: FileSystem, dir: Path): (r: set<Path>) {
    set p | p in fs && |p| == |dir| + 1 && dir <= p
  }

  /** The regular files at or below `root`. */
  function FilesUnder(fs: FileSystem, root: Path): (r: set<Path>) {
    set p | p in fs && fs[p].File? && root <= p
  }

  ghost predicate Distinct(s: seq<Path>) {
    forall i, j :: 0 <= i < j < |s| ==> Differ(s, i, j)
  }

  ghost predicate Differ(s: seq<Path>, i: int, j: int)
    requires 0 <= i < j < |s|
  {
    s[i] != s[j]
  }

  ghost predicate Below(stack: seq<Path>, p: Path) {
    exists i :: 0 <= i < |stack| && stack[i] <= p
  }

  /** A directory under `root` that cannot be read (or a `root` that is no directory). */
  ghost predicate Blocked(fs: FileSystem, unreadable: set<Path>, root: Path, d: Path) {
    d in fs && root <= d && ((d in unreadable && fs[d].Dir?) || (d == root && fs[d].File?))
  }

  // ------------------------------------------------------------ the tree

  lemma {:induction false} AncestorIsDir(fs: FileSystem, p: Path, n: nat)
    requires Tree(fs) && p in fs && 0 < n < |p|
    ensures p[..n] in fs && fs[p[..n]].Dir?
    decreases |p|
  {
    assert InTree(fs, p);
    var parent := p[..|p| - 1];
    if n >= |p| - 1 {
    } else {
      AncestorIsDir(fs, parent, n);
      assert parent[..n] == p[..n];
    }
  }

  /** Whatever lies strictly below a directory is one of its entries or lies below one that is a directory. */
  lemma BelowIsBelowAChild(fs: FileSystem, dir: Path, p: Path)
    requires Tree(fs) && p in fs && dir <= p && dir != p
    ensures var c := p[..|dir| + 1];
            c in Children(fs, dir) && c <= p && (c == p || fs[c].Dir?)
  {
    var n := |dir| + 1;
    if n < |p| {
      AncestorIsDir(fs, p, n);
    } else {
      assert p[..n] == p;
    }
    assert dir <= p[..n];
  }

  lemma RootExists(fs: FileSystem, root: Path, p: Path)
    requires Tree(fs) && p in fs && root <= p && root != []
    ensures root in fs
  {
    if |root| < |p| {
      AncestorIsDir(fs, p, |root|);
      assert p[..|root|] == root;
    } else {
      assert p == root;
    }
  }

  // ------------------------------------------------------------ the state of the walk

  ghost predicate Separate(stack: seq<Path>, i: int, j: int)
    requires 0 <= i < |stack| && 0 <= j < |stack|
  {
    i != j ==> !(stack[i] <= stack[j])
  }

  /** Directories still to be read: under the root, none inside another. */
  ghost predicate StackOk(fs: FileSystem, root: Path, stack: seq<Path>) {
    && (forall i :: 0 <= i < |stack| ==> stack[i] in fs && root <= stack[i] && (stack[i] == root || fs[stack[i]].Dir?))
    && (forall i, j :: 0 <= i < |stack| && 0 <= j < |stack| ==> Separate(stack, i, j))
  }

  /** The files collected: exactly those under the root and below nothing on the stack, each once. */
  ghost predicate OutOk(fs: FileSystem, root: Path, stack: seq<Path>, out: seq<Path>) {
    && Distinct(out)
    && (forall p :: p in out <==> p in FilesUnder(fs, root) && !Below(stack, p))
  }

  /** Every directory that blocks the walk is still to come. */
  ghost predicate BlockedAhead(fs: FileSystem, unreadable: set<Path>, root: Path, stack: seq<Path>) {
    forall d :: Blocked(fs, unreadable, root, d) ==> Below(stack, d)
  }

  ghost function Pending(fs: FileSystem, stack: seq<Path>): (r: set<Path>) {
    set p | p in fs && Below(stack, p)
  }

  /** The entries of `dir`, split into directories and files, each listed once. */
  ghost predicate Listing(fs: FileSystem, dir: Path, dirs: seq<Path>, files: seq<Path>) {
    && Distinct(dirs) && Distinct(files)
    && (forall p :: p in dirs <==> p in Children(fs, dir) && fs[p].Dir?)
    && (forall p :: p in files <==> p in Children(fs, dir) && fs[p].File?)
  }

  lemma BelowConcat(a: seq<Path>, b: seq<Path>, p: Path)
    ensures Below(a + b, p) <==> Below(a, p) || Below(b, p)
  {
    var s := a + b;
    if Below(a, p) {
      var i :| 0 <= i < |a| && a[i] <= p;
      assert s[i] <= p;
    }
    if Below(b, p) {
      var i :| 0 <= i < |b| && b[i] <= p;
      assert s[|a| + i] <= p;
    }
    if Below(s, p) {
      var i :| 0 <= i < |s| && s[i] <= p;
      assert if i < |a| then a[i] <= p else b[i - |a|] <= p;
    }
  }

  /** Replacing a directory by its subdirectories on the stack leaves out itself and the files directly in it. */
  lemma BelowAfterRead(fs: FileSystem, rest: seq<Path>, dir: Path, dirs: seq<Path>,
                       files: seq<Path>, p: Path)
    requires Tree(fs) && Listing(fs, dir, dirs, files) && p in fs
    ensures Below(rest + [dir], p) <==> Below(rest, p) || dir <= p
    ensures Below(rest + dirs, p) <==> Below(rest, p) || (dir <= p && p != dir && p !in files)
  {
    BelowConcat(rest, [dir], p);
    BelowConcat(rest, dirs, p);
    assert Below([dir], p) <==> dir <= p by {
      assert dir <= p ==> [dir][0] <= p;
    }
    if Below(dirs, p) {
      var i :| 0 <= i < |dirs| && dirs[i] <= p;
      assert dirs[i] in Children(fs, dir);
      assert p in files ==> p == dirs[i];
    }
    if dir <= p && p != dir && p !in files {
      BelowIsBelowAChild(fs, dir, p);
      var c := p[..|dir| + 1];
      assert c in dirs;
      var i :| 0 <= i < |dirs| && dirs[i] == c;
      assert dirs[i] <= p;
    }
  }

  lemma DistinctConcat(a: seq<Path>, b: seq<Path>)
    requires Distinct(a) && Distinct(b) && forall p :: p in a ==> p !in b
    ensures Distinct(a + b)
  {
    var s := a + b;
    forall i, j | 0 <= i < j < |s| ensures Differ(s, i, j) {
      if j < |a| {
        assert Differ(a, i, j);
      } else if i >= |a| {
        assert Differ(b, i - |a|, j - |a|);
      } else {
        assert s[i] in a && s[j] in b;
      }
    }
  }

  lemma ReadKeepsStackOk(fs: FileSystem, root: Path, rest: seq<Path>, dir: Path, dirs: seq<Path>,
                         files: seq<Path>)
    requires Tree(fs) && StackOk(fs, root, rest + [dir]) && Listing(fs, dir, dirs, files)
    ensures StackOk(fs, root, rest + dirs)
  {
    var old', new' := rest + [dir], rest + dirs;
    assert old'[|rest|] == dir;
    forall i | 0 <= i < |new'| ensures new'[i] in fs && root <= new'[i] && (new'[i] == root || fs[new'[i]].Dir?) {
      if i < |rest| {
        assert new'[i] == old'[i];
      } else {
        assert new'[i] in dirs;
      }
    }
    forall i, j | 0 <= i < |new'| && 0 <= j < |new'| ensures Separate(new', i, j) {
      if i < |rest| && j < |rest| {
        assert Separate(old', i, j);
      } else if i < |rest| {
        assert new'[j] in dirs;
        assert Separate(old', i, |rest|) && Separate(old', |rest|, i);
      } else if j < |rest| {
        assert new'[i] in dirs;
        assert Separate(old', |rest|, j);
      } else if i != j {
        assert new'[i] in dirs && new'[j] in dirs;
        assert if i < j then Differ(dirs, i - |rest|, j - |rest|) else Differ(dirs, j - |rest|, i - |rest|);
      }
    }
  }

  /** An entry of the last directory on the stack lies below nothing else on it. */
  lemma EntryNotBelowRest(fs: FileSystem, root: Path, rest: seq<Path>, dir: Path, p: Path)
    requires StackOk(fs, root, rest + [dir]) && dir <= p && |p| <= |dir| + 1
    ensures !Below(rest, p)
  {
    var stack := rest + [dir];
    assert stack[|rest|] == dir;
    forall i | 0 <= i < |rest| ensures !(rest[i] <= p) {
      assert stack[i] == rest[i] && Separate(stack, i, |rest|) && Separate(stack, |rest|, i);
    }
  }

  lemma ReadKeepsOutOk(fs: FileSystem, root: Path, rest: seq<Path>, dir: Path, dirs: seq<Path>,
                       files: seq<Path>, out: seq<Path>)
    requires Tree(fs) && StackOk(fs, root, rest + [dir]) && Listing(fs, dir, dirs, files) && dir in fs && fs[dir].Dir?
    requires OutOk(fs, root, rest + [dir], out)
    ensures OutOk(fs, root, rest + dirs, out + files)
  {
    var stack := rest + [dir];
    assert stack[|rest|] == dir;
    forall p | p in files ensures p in FilesUnder(fs, root) && !Below(rest, p) && p !in out {
      BelowAfterRead(fs, rest, dir, dirs, files, p);
      EntryNotBelowRest(fs, root, rest, dir, p);
    }
    DistinctConcat(out, files);
    forall p ensures p in out + files <==> p in FilesUnder(fs, root) && !Below(rest + dirs, p) {
      if p in fs {
        BelowAfterRead(fs, rest, dir, dirs, files, p);
      }
    }
  }

  /** Reading a directory leaves fewer entries pending. */
  lemma ReadShrinks(fs: FileSystem, root: Path, rest: seq<Path>, dir: Path, dirs: seq<Path>,
                    files: seq<Path>)
    requires Tree(fs) && StackOk(fs, root, rest + [dir]) && Listing(fs, dir, dirs, files)
    ensures Pending(fs, rest + dirs) < Pending(fs, rest + [dir])
  {
    var stack := rest + [dir];
    assert stack[|rest|] == dir;
    forall p | p in Pending(fs, rest + dirs) ensures p in Pending(fs, stack) {
      BelowAfterRead(fs, rest, dir, dirs, files, p);
    }
    BelowAfterRead(fs, rest, dir, dirs, files, dir);
    EntryNotBelowRest(fs, root, rest, dir, dir);
    assert dir in Pending(fs, stack) && dir !in Pending(fs, rest + dirs);
  }

  lemma ReadKeepsBlockedAhead(fs: FileSystem, unreadable: set<Path>, root: Path, rest: seq<Path>,
                              dir: Path, dirs: seq<Path>, files: seq<Path>)
    requires Tree(fs) && Listing(fs, dir, dirs, files) && dir in fs && fs[dir].Dir? && dir !in unreadable && root <= dir
    requires BlockedAhead(fs, unreadable, root, rest + [dir])
    ensures BlockedAhead(fs, unreadable, root, rest + dirs)
  {
    forall d | Blocked(fs, unreadable, root, d) ensures Below(rest + dirs, d) {
      BelowAfterRead(fs, rest, dir, dirs, files, d);
    }
  }

  // ------------------------------------------------------------ the walk

  lemma StartOfWalk(fs: FileSystem, unreadable: set<Path>, root: Path)
    requires root in fs
    ensures StackOk(fs, root, [root]) && OutOk(fs, root, [root], []) && BlockedAhead(fs, unreadable, root, [root])
  {
    forall p | root <= p ensures Below([root], p) {
      assert [root][0] <= p;
    }
  }

  /**
   `walk_files`: the regular files under `root`, each once and none missing; `None` exactly
   when a directory on the way cannot be read.  A root that cannot be examined counts as absent.
   */
  method WalkFiles(fs: FileSystem, unreadable: set<Path>, hidden: set<Path>, root: Path) returns (r: Option<seq<Path>>)
    requires Tree(fs) && root != []
    ensures root in hidden ==> r == Some([])
    ensures root !in hidden ==> (r.None? <==> exists d :: Blocked(fs, unreadable, root, d))
    ensures root !in hidden && r.Some? ==> Distinct(r.value) && forall p :: p in r.value <==> p in FilesUnder(fs, root)
  {
    if root in hidden {
      return Some([]);
    }
    if root !in fs {
      forall p | p in fs ensures !(root <= p) {
        if root <= p {
          RootExists(fs, root, p);
        }
      }
      return Some([]);
    }
    var stack, out: seq<Path> := [root], [];
    StartOfWalk(fs, unreadable, root);
    while stack != []
      invariant StackOk(fs, root, stack) && OutOk(fs, root, stack, out) && BlockedAhead(fs, unreadable, root, stack)
      decreases Pending(fs, stack)
    {
      var rest, dir := stack[..|stack| - 1], stack[|stack| - 1];
      assert stack == rest + [dir];
      if fs[dir].File? || dir in unreadable {
        assert Blocked(fs, unreadable, root, dir);
        return None;
      }
      var dirs, files := ReadDir(fs, dir);
      ReadKeepsStackOk(fs, root, rest, dir, dirs, files);
      ReadKeepsOutOk(fs, root, rest, dir, dirs, files, out);
      ReadKeepsBlockedAhead(fs, unreadable, root, rest, dir, dirs, files);
      ReadShrinks(fs, root, rest, dir, dirs, files);
      stack, out := rest + dirs, out + files;
    }
    return Some(out);
  }

  /** One directory: its entries in any order, subdirectories to the stack and files to the result. */
  method ReadDir(fs: FileSystem, dir: Path) returns (dirs: seq<Path>, files: seq<Path>)
    ensures Listing(fs, dir, dirs, files)
  {
    dirs, files := [], [];
    var entries := Children(fs, dir);
    while entries != {}
      invariant entries <= Children(fs, dir) && Distinct(dirs) && Distinct(files)
      invariant forall p :: p in dirs <==> p in Children(fs, dir) && p !in entries && fs[p].Dir?
      invariant forall p :: p in files <==> p in Children(fs, dir) && p !in entries && fs[p].File?
      decreases entries
    {
      var entry :| entry in entries;
      entries := entries - {entry};
      if fs[entry].Dir? {
        DistinctConcat(dirs, [entry]);
        dirs := dirs + [entry];
      } else {
        DistinctConcat(files, [entry]);
        files := files + [entry];
      }
    }
  }
}
