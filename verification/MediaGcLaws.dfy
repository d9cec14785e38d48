/**
 What one pass of the media garbage collector removes and what it never touches, whatever the
 order of the rows and whatever fails on the way.
 */
module MediaGcLaws {
  import opened Basics
  import opened FileWalk
  import opened MediaGc

  /** The rows as the database lists them: all of them, in any order. */
  ghost predicate IsListing(rows: Assets, order: seq<AssetId>) {
    InRows(rows, order) && forall id :: id in rows ==> id in order
  }

  ghost predicate OfDeletedClip(rows: Assets, p: Path) {
    exists id :: id in rows && rows[id].clipDeleted && rows[id].path == p
  }

  /** Removed with its row: the file of a deleted clip. */
  ghost predicate Doomed(rows: Assets, fs: FileSystem, faults: Faults, p: Path) {
    Removable(fs, faults, p) && OfDeletedClip(rows, p)
  }

  ghost predicate Searched(fs: FileSystem, faults: Faults, p: Path) {
    || (ORIGINAL <= p && ORIGINAL !in faults.hidden && !WalkBlocked(fs, faults, ORIGINAL))
    || (RENDITIONS <= p && RENDITIONS !in faults.hidden && !WalkBlocked(fs, faults, RENDITIONS))
  }

  /** Removed because no row refers to it: old enough, and under a root that could be searched. */
  ghost predicate Orphaned(rows: Assets, fs: FileSystem, faults: Faults, now: nat, p: Path) {
    Removable(fs, faults, p) && p !in Referenced(rows) && IsStale(fs[p], now) && Searched(fs, faults, p)
  }

  // ------------------------------------------------------------ which files a pass removes

  lemma {:induction false} GoneUpTo(rows: Assets, fs: FileSystem, faults: Faults, order: seq<AssetId>, n: nat, p: Path)
    requires n <= |order| && InRows(rows, order)
    ensures p in Gone(rows, fs, faults, order, n) <==>
              && Removable(fs, faults, p)
              && exists j :: 0 <= j < n && rows[order[j]].clipDeleted && rows[order[j]].path == p
    decreases n
  {
    if n == 0 {
    } else {
      GoneUpTo(rows, fs, faults, order, n - 1, p);
    }
  }

  lemma GoneIsDoomed(rows: Assets, fs: FileSystem, faults: Faults, order: seq<AssetId>, p: Path)
    requires IsListing(rows, order)
    ensures p in Gone(rows, fs, faults, order, |order|) <==> Doomed(rows, fs, faults, p)
  {
    GoneUpTo(rows, fs, faults, order, |order|, p);
    if OfDeletedClip(rows, p) {
      var id :| id in rows && rows[id].clipDeleted && rows[id].path == p;
      assert id in order;
    }
  }

  /** Removing other files does not change whether a root can be searched. */
  lemma StillSearched(fs: FileSystem, less: FileSystem, faults: Faults, root: Path, p: Path)
    requires Tree(fs) && p in less && root <= p && root != []
    requires less.Keys <= fs.Keys && forall q :: q in less ==> less[q] == fs[q]
    requires forall q :: q in fs && fs[q].Dir? ==> q in less
    ensures WalkBlocked(less, faults, root) <==> WalkBlocked(fs, faults, root)
  {
    RootExists(fs, root, p);
    if |root| < |p| {
      AncestorIsDir(fs, p, |root|);
      assert p[..|root|] == root;
    } else {
      assert p == root;
    }
    if WalkBlocked(less, faults, root) {
      var d :| Blocked(less, faults.unreadable, root, d);
      assert Blocked(fs, faults.unreadable, root, d);
    }
    if WalkBlocked(fs, faults, root) {
      var d :| Blocked(fs, faults.unreadable, root, d);
      assert Blocked(less, faults.unreadable, root, d);
    }
  }

  /** One root: of the files still there, the orphans under it go. */
  lemma OrphansUnderRoot(rows: Assets, fs: FileSystem, less: FileSystem, faults: Faults, now: nat,
                         root: Path, p: Path)
    requires Tree(fs) && p in less && root != []
    requires less.Keys <= fs.Keys && forall q :: q in less ==> less[q] == fs[q]
    requires forall q :: q in fs && fs[q].Dir? ==> q in less
    ensures p in Orphans(Referenced(rows), less, faults, now, root) <==>
              Removable(fs, faults, p) && p !in Referenced(rows) && IsStale(fs[p], now) && root <= p
                && root !in faults.hidden && !WalkBlocked(fs, faults, root)
  {
    if root <= p {
      StillSearched(fs, less, faults, root, p);
    }
  }

  /** After a pass a file is gone exactly if it was doomed or orphaned; all other entries are as before. */
  lemma CollectedExactly(rows: Assets, fs: FileSystem, faults: Faults, order: seq<AssetId>,
                         now: nat, p: Path)
    requires Tree(fs) && IsListing(rows, order)
    ensures var after := Collected(rows, fs, faults, order, now);
            && (p in after <==> p in fs && !Doomed(rows, fs, faults, p) && !Orphaned(rows, fs, faults, now, p))
            && (p in after ==> after[p] == fs[p])
  {
    var gone := Gone(rows, fs, faults, order, |order|);
    var swept := fs - gone;
    var first := swept - Orphans(Referenced(rows), swept, faults, now, ORIGINAL);
    GoneIsDoomed(rows, fs, faults, order, p);
    forall q | q in fs && fs[q].Dir? ensures q in swept {
      GoneIsDoomed(rows, fs, faults, order, q);
    }
    if p in swept {
      OrphansUnderRoot(rows, fs, swept, faults, now, ORIGINAL, p);
      if p in first {
        OrphansUnderRoot(rows, fs, first, faults, now, RENDITIONS, p);
      }
    }
    if p in gone {
      assert p in Referenced(rows);
    }
  }

  /**
   A file that a live clip's row refers to survives, whatever fails and in whatever order,
   exactly when no row of a deleted clip names the same path (or it cannot be removed).
   */
  lemma LiveFileSurvivesExactlyWhen(rows: Assets, fs: FileSystem, faults: Faults,
                                    order: seq<AssetId>, now: nat, id: AssetId)
    requires Tree(fs) && IsListing(rows, order) && id in rows && !rows[id].clipDeleted
    requires Removable(fs, faults, rows[id].path)
    ensures rows[id].path in Collected(rows, fs, faults, order, now) <==> !OfDeletedClip(rows, rows[id].path)
  {
    CollectedExactly(rows, fs, faults, order, now, rows[id].path);
  }

  /** An unreferenced file younger than an hour, or dated in the future or not at all, survives. */
  lemma YoungFileSurvives(rows: Assets, fs: FileSystem, faults: Faults, order: seq<AssetId>,
                          now: nat, p: Path)
    requires Tree(fs) && IsListing(rows, order) && p in fs && p !in Referenced(rows)
    requires fs[p].File? && (fs[p].mtime.Some? ==> now < fs[p].mtime.value + 3600)
    ensures p in Collected(rows, fs, faults, order, now)
  {
    CollectedExactly(rows, fs, faults, order, now, p);
  }

  /** Every stale orphan under the two roots is removed. */
  lemma StaleOrphanRemoved(rows: Assets, fs: FileSystem, faults: Faults, order: seq<AssetId>,
                           now: nat, p: Path)
    requires Tree(fs) && IsListing(rows, order) && Removable(fs, faults, p) && p !in Referenced(rows)
    requires fs[p].mtime.Some? && now >= fs[p].mtime.value + 3600
    requires || (["original"] <= p && ["original"] !in faults.hidden && !WalkBlocked(fs, faults, ["original"]))
             || (["renditions"] <= p && ["renditions"] !in faults.hidden && !WalkBlocked(fs, faults, ["renditions"]))
    ensures p !in Collected(rows, fs, faults, order, now)
  {
    CollectedExactly(rows, fs, faults, order, now, p);
  }

  /** A file that cannot be removed or examined survives. */
  lemma FaultyFileSurvives(rows: Assets, fs: FileSystem, faults: Faults, order: seq<AssetId>, now: nat, p: Path)
    requires Tree(fs) && IsListing(rows, order) && p in fs && (p in faults.stuck || p in faults.hidden)
    ensures p in Collected(rows, fs, faults, order, now)
  {
    CollectedExactly(rows, fs, faults, order, now, p);
  }

  /** Files elsewhere under the media directory are never touched as orphans. */
  lemma ElsewhereSurvives(rows: Assets, fs: FileSystem, faults: Faults, order: seq<AssetId>, now: nat, p: Path)
    requires Tree(fs) && IsListing(rows, order) && p in fs && p !in Referenced(rows)
    requires !(["original"] <= p) && !(["renditions"] <= p)
    ensures p in Collected(rows, fs, faults, order, now)
  {
    CollectedExactly(rows, fs, faults, order, now, p);
  }

  // ------------------------------------------------------------ which rows a pass keeps

  /** No path is shared by a deleted clip and a live one. */
  ghost predicate PathsSeparate(rows: Assets) {
    forall id :: id in rows && !rows[id].clipDeleted ==> !OfDeletedClip(rows, rows[id].path)
  }

  lemma {:induction false} DroppedUpTo(rows: Assets, fs: FileSystem, faults: Faults, order: seq<AssetId>, n: nat,
                                       id: AssetId)
    requires n <= |order| && InRows(rows, order) && PathsSeparate(rows)
    ensures id in Dropped(rows, fs, faults, order, n) <==>
              id in order[..n] && id !in faults.locked && (rows[id].clipDeleted || !Visible(fs, faults, rows[id].path))
    decreases n
  {
    if n == 0 {
    } else {
      DroppedUpTo(rows, fs, faults, order, n - 1, id);
      assert order[..n] == order[..n - 1] + [order[n - 1]];
      var row := rows[order[n - 1]];
      if !row.clipDeleted {
        GoneUpTo(rows, fs, faults, order, n - 1, row.path);
        assert row.path !in Gone(rows, fs, faults, order, n - 1);
      }
    }
  }

  /**
   With separate paths a pass keeps exactly the rows whose file it sees and whose clip is live
   (and those it cannot delete).
   */
  lemma RowsKept(rows: Assets, fs: FileSystem, faults: Faults, order: seq<AssetId>)
    requires IsListing(rows, order) && PathsSeparate(rows)
    ensures var after := rows - Dropped(rows, fs, faults, order, |order|);
            forall id :: id in after <==>
                id in rows && (id in faults.locked || (!rows[id].clipDeleted && Visible(fs, faults, rows[id].path)))
  {
    forall id ensures id in Dropped(rows, fs, faults, order, |order|) <==>
                        id in order && id !in faults.locked
                          && (rows[id].clipDeleted || !Visible(fs, faults, rows[id].path)) {
      DroppedUpTo(rows, fs, faults, order, |order|, id);
      assert order[..|order|] == order;
    }
  }

  /** A row that shares its path with a deleted clip's is left behind without a file if it is listed first. */
  lemma SharedPathLeavesDanglingRow(p: Path, mtime: nat, now: nat)
    requires p != [] && |p| == 1
    ensures var rows: Assets := map[1 := Asset(p, false), 2 := Asset(p, true)];
            var fs: FileSystem := map[p := File(Some(mtime))];
            var none := NO_FAULTS;
            && IsListing(rows, [1, 2]) && Tree(fs)
            && p !in Collected(rows, fs, none, [1, 2], now)
            && 1 in rows - Dropped(rows, fs, none, [1, 2], 2)
  {
    var rows: Assets := map[1 := Asset(p, false), 2 := Asset(p, true)];
    var fs: FileSystem := map[p := File(Some(mtime))];
    var none := NO_FAULTS;
    var order: seq<AssetId> := [1, 2];
    assert order[0] == 1 && order[1] == 2;
    assert InTree(fs, p);
    assert OfDeletedClip(rows, p) by {
      assert rows[2].clipDeleted;
    }
    CollectedExactly(rows, fs, none, order, now, p);
    assert Gone(rows, fs, none, order, 0) == {};
    assert Dropped(rows, fs, none, order, 1) == {};
    assert 1 !in Dropped(rows, fs, none, order, 2);
  }

  // ------------------------------------------------------------ a second pass

  /** When nothing fails and paths are separate, a second pass at the same time, in any order, changes nothing. */
  lemma {:induction false} SecondPassChangesNothing(rows: Assets, fs: FileSystem, order: seq<AssetId>,
                                                    again: seq<AssetId>, now: nat)
    requires Tree(fs) && IsListing(rows, order) && PathsSeparate(rows)
    requires IsListing(rows - Dropped(rows, fs, NO_FAULTS, order, |order|), again)
    ensures var none := NO_FAULTS;
            var rows', fs' := rows - Dropped(rows, fs, none, order, |order|), Collected(rows, fs, none, order, now);
            && Dropped(rows', fs', none, again, |again|) == {}
            && Collected(rows', fs', none, again, now) == fs'
  {
    var none := NO_FAULTS;
    var rows', fs' := rows - Dropped(rows, fs, none, order, |order|), Collected(rows, fs, none, order, now);
    RowsKept(rows, fs, none, order);
    forall id | id in rows' ensures !rows'[id].clipDeleted && rows'[id].path in fs' {
      CollectedExactly(rows, fs, none, order, now, rows[id].path);
    }
    forall id ensures id !in Dropped(rows', fs', none, again, |again|) {
      RowsKept(rows', fs', none, again);
      DroppedUpTo(rows', fs', none, again, |again|, id);
    }
    forall p | p in fs' ensures !Doomed(rows', fs', none, p) && !Orphaned(rows', fs', none, now, p) {
      SurvivorStays(rows, fs, order, now, rows', fs', p);
    }
    TreeKept(rows, fs, none, order, now);
    forall p ensures p in Collected(rows', fs', none, again, now) <==> p in fs' {
      CollectedExactly(rows', fs', none, again, now, p);
    }
    forall p | p in fs' ensures Collected(rows', fs', none, again, now)[p] == fs'[p] {
      CollectedExactly(rows', fs', none, again, now, p);
    }
  }

  lemma TreeKept(rows: Assets, fs: FileSystem, faults: Faults, order: seq<AssetId>, now: nat)
    requires Tree(fs) && IsListing(rows, order)
    ensures Tree(Collected(rows, fs, faults, order, now))
  {
    var after := Collected(rows, fs, faults, order, now);
    forall p | p in after ensures InTree(after, p) {
      CollectedExactly(rows, fs, faults, order, now, p);
      assert InTree(fs, p);
      if |p| > 1 {
        CollectedExactly(rows, fs, faults, order, now, p[..|p| - 1]);
      }
    }
  }

  /** A file that survived a pass without faults is neither doomed nor orphaned afterwards. */
  lemma SurvivorStays(rows: Assets, fs: FileSystem, order: seq<AssetId>, now: nat, rows': Assets,
                      fs': FileSystem, p: Path)
    requires Tree(fs) && IsListing(rows, order) && PathsSeparate(rows)
    requires fs' == Collected(rows, fs, NO_FAULTS, order, now)
    requires forall id :: id in rows' <==> id in rows && !rows[id].clipDeleted && rows[id].path in fs
    requires forall id :: id in rows' ==> rows'[id] == rows[id]
    requires p in fs'
    ensures !Doomed(rows', fs', NO_FAULTS, p) && !Orphaned(rows', fs', NO_FAULTS, now, p)
  {
    var none := NO_FAULTS;
    CollectedExactly(rows, fs, none, order, now, p);
    assert !OfDeletedClip(rows', p);
    if Orphaned(rows', fs', none, now, p) {
      assert Removable(fs, none, p) && IsStale(fs[p], now);
      NothingBlocked(fs, fs', none, p);
    }
  }

  /** Without unreadable directories, what is searched after a pass was searched before it. */
  lemma NothingBlocked(fs: FileSystem, fs': FileSystem, faults: Faults, p: Path)
    requires Tree(fs) && faults.unreadable == {} && p in fs && fs'.Keys <= fs.Keys && p in fs'
    requires forall q :: q in fs' ==> fs'[q] == fs[q]
    requires Searched(fs', faults, p)
    ensures Searched(fs, faults, p)
  {
    forall root | (root == ORIGINAL || root == RENDITIONS) && root <= p
      ensures WalkBlocked(fs, faults, root) ==> WalkBlocked(fs', faults, root) {
      if |root| < |p| {
        AncestorIsDir(fs, p, |root|);
        assert p[..|root|] == root;
      } else {
        assert p == root;
        assert WalkBlocked(fs, faults, root) ==> Blocked(fs', faults.unreadable, root, root);
      }
    }
  }

  // ------------------------------------------------------------ a file that could not be examined

  /** What one pass leaves of the rows. */
  function RowsAfter(rows: Assets, fs: FileSystem, faults: Faults, order: seq<AssetId>): (r: Assets)
    requires InRows(rows, order)
  {
    rows - Dropped(rows, fs, faults, order, |order|)
  }

  /** Every row that names `p` is dropped because `p` could not be examined. */
  ghost predicate Forgotten(rows: Assets, faults: Faults, p: Path) {
    p in faults.hidden && forall id :: id in rows && rows[id].path == p ==> id !in faults.locked
  }

  lemma ForgottenIsUnreferenced(rows: Assets, fs: FileSystem, faults: Faults, order: seq<AssetId>,
                                id: AssetId)
    requires IsListing(rows, order) && PathsSeparate(rows) && id in rows && !rows[id].clipDeleted && rows[id].path in fs
    ensures rows[id].path !in Referenced(RowsAfter(rows, fs, faults, order)) <==> Forgotten(rows, faults, rows[id].path)
  {
    var p, after := rows[id].path, RowsAfter(rows, fs, faults, order);
    RowsKept(rows, fs, faults, order);
    if p in Referenced(after) {
      var other :| other in after && after[other].path == p;
      assert other in rows && rows[other].path == p;
      assert !rows[other].clipDeleted;
    } else {
      assert id !in after;
      forall other | other in rows && rows[other].path == p ensures other !in faults.locked {
        assert other !in after;
      }
    }
  }

  /**
   The file of a live clip can be lost in two passes, whatever fails in either: exactly when the
   first pass could not examine it and deleted every row that names it, and the second finds it
   stale under a root it can search, and can remove it.
   */
  lemma LiveFileLostInTwoPassesExactlyWhen(rows: Assets, fs: FileSystem, id: AssetId,
                                           first: Faults, order: seq<AssetId>, now: nat,
                                           second: Faults, again: seq<AssetId>, later: nat)
    requires Tree(fs) && IsListing(rows, order) && PathsSeparate(rows)
    requires IsListing(RowsAfter(rows, fs, first, order), again)
    requires id in rows && !rows[id].clipDeleted && rows[id].path in fs
    ensures var p := rows[id].path;
            var rows', fs' := RowsAfter(rows, fs, first, order), Collected(rows, fs, first, order, now);
            && p in fs' && fs'[p] == fs[p]
            && (p !in Collected(rows', fs', second, again, later) <==>
                  Forgotten(rows, first, p) && Removable(fs, second, p) && IsStale(fs[p], later)
                    && Searched(fs', second, p))
  {
    var p := rows[id].path;
    var rows', fs' := RowsAfter(rows, fs, first, order), Collected(rows, fs, first, order, now);
    assert p in Referenced(rows);
    CollectedExactly(rows, fs, first, order, now, p);
    TreeKept(rows, fs, first, order, now);
    CollectedExactly(rows', fs', second, again, later, p);
    ForgottenIsUnreferenced(rows, fs, first, order, id);
    assert !OfDeletedClip(rows', p);
  }

  /** For instance a file of the first hour, not examined in the first pass and found stale in the second. */
  lemma LiveFileCanBeLost(now: nat, later: nat)
    requires later >= GC_GRACE_SECS
    ensures var p: Path := ["original", "a"];
            var fs: FileSystem := map[ORIGINAL := Dir, p := File(Some(0))];
            var rows: Assets := map[1 := Asset(p, false)];
            var first := NO_FAULTS.(hidden := {p});
            && Tree(fs) && IsListing(rows, [1]) && PathsSeparate(rows)
            && var rows', fs' := RowsAfter(rows, fs, first, [1]), Collected(rows, fs, first, [1], now);
               && IsListing(rows', [])
               && p in fs' && p !in Collected(rows', fs', NO_FAULTS, [], later)
  {
    var p: Path := ["original", "a"];
    var fs: FileSystem := map[ORIGINAL := Dir, p := File(Some(0))];
    var rows: Assets := map[1 := Asset(p, false)];
    var first := NO_FAULTS.(hidden := {p});
    var order: seq<AssetId> := [1];
    assert p[..1] == ORIGINAL && InTree(fs, ORIGINAL) && InTree(fs, p);
    assert order[0] == 1 && !OfDeletedClip(rows, p);
    RowsKept(rows, fs, first, order);
    var rows', fs' := RowsAfter(rows, fs, first, order), Collected(rows, fs, first, order, now);
    assert IsListing(rows', []);
    CollectedExactly(rows, fs, first, order, now, ORIGINAL);
    forall d ensures !Blocked(fs', {}, ORIGINAL, d) {
      CollectedExactly(rows, fs, first, order, now, d);
    }
    assert Searched(fs', NO_FAULTS, p);
    LiveFileLostInTwoPassesExactlyWhen(rows, fs, 1, first, order, now, NO_FAULTS, [], later);
  }
}
