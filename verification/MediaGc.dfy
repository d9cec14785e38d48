/**
 The media garbage collector (`media_gc` and `is_stale` in crates/server/src/worker.rs) over
 the asset rows and the files below the media directory.  Which removals, row deletions and
 directory reads fail, and the order in which the database lists the rows, are parameters.
 */
module MediaGc {
  import opened Basics
  import opened FileWalk

  type AssetId = nat

  /** A row of `media_assets` joined with its clip. */
  datatype Asset = Asset(path: Path, clipDeleted: bool)

  type Assets = map<AssetId, Asset>

  /**
   Files that cannot be removed, rows that cannot be deleted, directories that cannot be read,
   paths that cannot be examined.
   */
  datatype Faults = Faults(stuck: set<Path>, locked: set<AssetId>, unreadable: set<Path>, hidden: set<Path>)

  const NO_FAULTS: Faults := Faults({}, {}, {}, {})

  const GC_GRACE_SECS: nat := 3600
  const ORIGINAL: Path := ["original"]
  const RENDITIONS: Path := ["renditions"]

  /** `is_stale`: an unknown or future modification time counts as young. */
  predicate IsStale(e: Entry, now: nat) {
    e.File? && e.mtime.Some? && e.mtime.value <= now && now - e.mtime.value >= GC_GRACE_SECS
  }

  function Referenced(rows: Assets): (r: set<Path>) {
    set id | id in rows :: rows[id].path
  }

  /** A file that the collector can examine and remove. */
  predicate Removable(fs: FileSystem, faults: Faults, p: Path) {
    p in fs && fs[p].File? && p !in faults.stuck && p !in faults.hidden
  }

  /** `metadata` succeeds. */
  predicate Visible(fs: FileSystem, faults: Faults, p: Path) {
    p in fs && p !in faults.hidden
  }

  // ------------------------------------------------------------ the rows, in the order listed

  predicate InRows(rows: Assets, order: seq<AssetId>) {
    forall i :: 0 <= i < |order| ==> order[i] in rows
  }

  /** The files removed with the first `n` rows. */
  function Gone(rows: Assets, fs: FileSystem, faults: Faults, order: seq<AssetId>, n: nat): (r: set<Path>)
    requires n <= |order| && InRows(rows, order)
    decreases n, order
  {
    if n == 0 then {}
    else
      var row := rows[order[n - 1]];
      Gone(rows, fs, faults, order, n - 1)
      + if row.clipDeleted && Removable(fs, faults, row.path) then {row.path} else {}
  }

  /** The rows deleted among the first `n`. */
  function Dropped(rows: Assets, fs: FileSystem, faults: Faults, order: seq<AssetId>, n: nat): (r: set<AssetId>)
    requires n <= |order| && InRows(rows, order)
    decreases n, order
  {
    if n == 0 then {}
    else
      var row := rows[order[n - 1]];
      var fileGone := !Visible(fs, faults, row.path) || row.path in Gone(rows, fs, faults, order, n - 1);
      Dropped(rows, fs, faults, order, n - 1)
      + if (fileGone || row.clipDeleted) && order[n - 1] !in faults.locked then {order[n - 1]} else {}
  }

  // ------------------------------------------------------------ files nobody refers to

  ghost predicate WalkBlocked(fs: FileSystem, faults: Faults, root: Path) {
    exists d :: Blocked(fs, faults.unreadable, root, d)
  }

  /** The files removed under one root. */
  ghost function Orphans(referenced: set<Path>, fs: FileSystem, faults: Faults, now: nat, root: Path): (r: set<Path>) {
    if root in faults.hidden || WalkBlocked(fs, faults, root) then {}
    else set p | p in FilesUnder(fs, root) && p !in referenced && IsStale(fs[p], now) && Removable(fs, faults, p)
  }

  /** The file system after a whole pass. */
  ghost function Collected(rows: Assets, fs: FileSystem, faults: Faults, order: seq<AssetId>, now: nat): (r: FileSystem)
    requires InRows(rows, order)
  {
    var swept := fs - Gone(rows, fs, faults, order, |order|);
    var first := swept - Orphans(Referenced(rows), swept, faults, now, ORIGINAL);
    first - Orphans(Referenced(rows), first, faults, now, RENDITIONS)
  }

  lemma RemovingFilesKeepsTree(fs: FileSystem, gone: set<Path>)
    requires Tree(fs) && forall p :: p in gone && p in fs ==> fs[p].File?
    ensures Tree(fs - gone)
  {
    forall p | p in fs - gone ensures InTree(fs - gone, p) {
      assert InTree(fs, p);
    }
  }

  lemma {:induction false} GoneAreFiles(rows: Assets, fs: FileSystem, faults: Faults, order: seq<AssetId>, n: nat,
                                        p: Path)
    requires n <= |order| && InRows(rows, order) && p in Gone(rows, fs, faults, order, n)
    ensures Removable(fs, faults, p)
    decreases n
  {
    if n > 0 && p in Gone(rows, fs, faults, order, n - 1) {
      GoneAreFiles(rows, fs, faults, order, n - 1, p);
    }
  }

  class MediaStore {
    var rows: Assets
    var fs: FileSystem

    constructor (rows: Assets, fs: FileSystem)
      ensures this.rows == rows && this.fs == fs
    {
      this.rows, this.fs := rows, fs;
    }

    /** The loop over the asset rows. */
    method SweepRows(order: seq<AssetId>, faults: Faults)
      requires InRows(rows, order)
      modifies this
      ensures rows == old(rows) - Dropped(old(rows), old(fs), faults, order, |order|)
      ensures fs == old(fs) - Gone(old(rows), old(fs), faults, order, |order|)
    {
      var listed := rows;
      ghost var before := fs;
      for i := 0 to |order|
        invariant rows == listed - Dropped(listed, before, faults, order, i)
        invariant fs == before - Gone(listed, before, faults, order, i)
      {
        var row := listed[order[i]];
        var fileGone := row.path !in fs || row.path in faults.hidden;
        if !fileGone && !row.clipDeleted {
          continue;
        }
        if !fileGone && fs[row.path].File? && row.path !in faults.stuck {
          fs := fs - {row.path};
        }
        if order[i] !in faults.locked {
          rows := rows - {order[i]};
        }
      }
    }

    /** The loop over the files of one root. */
    method SweepOrphans(referenced: set<Path>, faults: Faults, now: nat, root: Path)
      requires Tree(fs) && root != []
      modifies this`fs
      ensures fs == old(fs) - Orphans(referenced, old(fs), faults, now, root)
    {
      ghost var before := fs;
      var files := WalkFiles(fs, faults.unreadable, faults.hidden, root);
      if files.None? {
        return;
      }
      var list := files.value;
      for i := 0 to |list|
        invariant fs.Keys <= before.Keys && forall p :: p in fs ==> fs[p] == before[p]
        invariant forall p :: p in before ==>
                    (p in list[..i] && p !in referenced && IsStale(before[p], now) && Removable(before, faults, p) <==>
                       p !in fs)
      {
        var file := list[i];
        assert list[..i + 1] == list[..i] + [file];
        if file !in referenced && file in fs && file !in faults.hidden && IsStale(fs[file], now)
          && file !in faults.stuck {
          fs := fs - {file};
        }
      }
      assert list[..|list|] == list;
      assert fs == before - Orphans(referenced, before, faults, now, root);
    }

    /** `media_gc` */
    method Collect(order: seq<AssetId>, faults: Faults, now: nat)
      requires Tree(fs) && InRows(rows, order)
      modifies this
      ensures rows == old(rows) - Dropped(old(rows), old(fs), faults, order, |order|)
      ensures fs == Collected(old(rows), old(fs), faults, order, now)
    {
      var referenced := Referenced(rows);
      ghost var rows0, fs0 := rows, fs;
      SweepRows(order, faults);
      assert Tree(fs) by {
        forall p | p in Gone(rows0, fs0, faults, order, |order|) ensures p in fs0 && fs0[p].File? {
          GoneAreFiles(rows0, fs0, faults, order, |order|, p);
        }
        RemovingFilesKeepsTree(fs0, Gone(rows0, fs0, faults, order, |order|));
      }
      ghost var swept := fs;
      SweepOrphans(referenced, faults, now, ORIGINAL);
      RemovingFilesKeepsTree(swept, Orphans(referenced, swept, faults, now, ORIGINAL));
      SweepOrphans(referenced, faults, now, RENDITIONS);
    }
  }
}
