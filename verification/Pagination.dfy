/**
 Keyset pagination: the feed queries (crates/db/src/feed.rs), the cursor and page limit of
 the handlers, the next-page cursor of `render_feed`, and the comment pages
 (crates/server/src/social.rs).  Timestamps are microseconds, as the database keeps them;
 cursors carry whole seconds.
 */
module Pagination {
  import opened Basics
  import opened Numerals
  import opened Text

  // ------------------------------------------------------------ page limits

  const FEED_DEFAULT_LIMIT: int := 20
  const FEED_MAX_LIMIT: int := 50
  const COMMENTS_DEFAULT_LIMIT: int := 50
  const COMMENTS_MAX_LIMIT: int := 100

  /** `p as i64` of an unsigned 64-bit number. */
  function AsI64(p: nat): (n: int)
    ensures FitsI64(n) && (p - n) % 0x1_0000_0000_0000_0000 == 0
  {
    var low := p % (U64_MAX + 1);
    if low <= I64_MAX then low else low - (U64_MAX + 1)
  }

  /** `unwrap_or(default).clamp(1, max)`; a page size beyond the signed range wraps and is clamped to one. */
  function PageLimit(page: Option<nat>, default: int, max: int): (limit: int)
    requires 1 <= max
    ensures 1 <= limit <= max
    ensures page.Some? && 1 <= page.value <= max <= I64_MAX ==> limit == page.value
    ensures page.Some? && max < page.value <= I64_MAX ==> limit == max
    ensures page == Some(0) || (page.Some? && I64_MAX < page.value <= U64_MAX) ==> limit == 1
    ensures page.None? && 1 <= default <= max ==> limit == default
  {
    var n := if page.Some? then AsI64(page.value) else default;
    if n < 1 then 1 else if n > max then max else n
  }

  function FeedLimit(page: Option<nat>): (limit: int)
    ensures 1 <= limit <= 50 && (page.None? ==> limit == 20)
    ensures page.Some? && 1 <= page.value <= 50 ==> limit == page.value
  {
    PageLimit(page, FEED_DEFAULT_LIMIT, FEED_MAX_LIMIT)
  }

  function CommentsLimit(page: Option<nat>): (limit: int)
    ensures 1 <= limit <= 100 && (page.None? ==> limit == 50)
    ensures page.Some? && 1 <= page.value <= 100 ==> limit == page.value
  {
    PageLimit(page, COMMENTS_DEFAULT_LIMIT, COMMENTS_MAX_LIMIT)
  }

  // ------------------------------------------------------------ cursors

  const MICROS: int := 1_000_000

  /** The seconds chrono can represent. */
  const MIN_TIMESTAMP: int := -8_334_601_228_800
  const MAX_TIMESTAMP: int := 8_210_266_876_799

  datatype Cursor = Cursor(secs: int, id: int)

  function PrintCursor(c: Cursor): (s: string) {
    PrintInt(c.secs) + ['-'] + PrintInt(c.id)
  }

  /** `parse_cursor`: split at the first dash, both halves `i64`, the first one a timestamp. */
  function ParseCursor(s: string): (r: Option<Cursor>) {
    var i := IndexOf(s, '-');
    if i == |s| then None
    else
      var secs, id := ParseI64(s[..i]), ParseI64(s[i + 1..]);
      var ok := secs.Some? && id.Some? && MIN_TIMESTAMP <= secs.value <= MAX_TIMESTAMP;
      if ok then Some(Cursor(secs.value, id.value)) else None
  }

  predicate Representable(c: Cursor) {
    MIN_TIMESTAMP <= c.secs <= MAX_TIMESTAMP && FitsI64(c.id)
  }

  /** Cursors are two decimal numbers around a dash. */
  lemma CursorText(secs: nat, id: nat)
    requires secs <= 8_210_266_876_799 && id <= I64_MAX
    ensures PrintCursor(Cursor(secs, id)) == PrintNat(secs) + "-" + PrintNat(id)
    ensures ParseCursor(PrintNat(secs) + "-" + PrintNat(id)) == Some(Cursor(secs, id))
  {
    CursorRoundTrip(Cursor(secs, id));
  }

  /** The parser undoes the printer exactly for timestamps that are not negative, and refuses all others. */
  lemma CursorRoundTrip(c: Cursor)
    ensures ParseCursor(PrintCursor(c))
            == if 0 <= c.secs <= 8_210_266_876_799 && FitsI64(c.id) then Some(c) else None
  {
    var s := PrintCursor(c);
    if c.secs >= 0 {
      PrintedNatReadsBack(c.secs);
      IndexOfJoined(PrintInt(c.secs), '-', PrintInt(c.id));
      var i := IndexOf(s, '-');
      assert s[..i] == PrintInt(c.secs) && s[i + 1..] == PrintInt(c.id);
      I64RoundTrip(c.secs);
      I64RoundTrip(c.id);
    } else {
      assert s[0] == '-';
      assert IndexOf(s, '-') == 0;
      assert s[..0] == [];
    }
  }

  // ------------------------------------------------------------ what a feed shows

  type ClipId = int
  type ActorId = int

  datatype Actor = Actor(domain: Option<string>, suspended: bool, deleted: bool)
  datatype Clip = Clip(actor: ActorId, createdAt: int, deleted: bool, isPublic: bool, ready: bool, remote: bool,
                       tags: set<string>)
  datatype Tables = Tables(clips: map<ClipId, Clip>, actors: map<ActorId, Actor>, accepted: set<(ActorId, ActorId)>)

  datatype Feed = Discover | Following(viewer: ActorId) | Local | Tagged(tag: string)

  /** The WHERE clause of the feed queries, cursor apart. */
  predicate Shows(t: Tables, feed: Feed, id: ClipId) {
    && id in t.clips && t.clips[id].actor in t.actors
    && var clip := t.clips[id];
       var author := t.actors[clip.actor];
       && !clip.deleted && clip.isPublic && !author.suspended && !author.deleted
       && (clip.ready || clip.remote)
       && match feed
          case Discover => true
          case Following(viewer) => (viewer, clip.actor) in t.accepted
          case Local => author.domain.None?
          case Tagged(tag) => tag in clip.tags
  }

  /** The sort key of a row; ids are unique, so it also names the row. */
  datatype Key = Key(at: int, id: int)

  function FeedKeys(t: Tables, feed: Feed): (r: set<Key>) {
    set id | id in t.clips && Shows(t, feed, id) :: Key(t.clips[id].createdAt, id)
  }

  // ------------------------------------------------------------ ORDER BY

  datatype Direction = NewestFirst | OldestFirst

  predicate Less(a: Key, b: Key) {
    a.at < b.at || (a.at == b.at && a.id < b.id)
  }

  predicate Precedes(d: Direction, a: Key, b: Key) {
    if d == NewestFirst then Less(b, a) else Less(a, b)
  }

  ghost predicate InOrder(d: Direction, s: seq<Key>, i: int, j: int)
    requires 0 <= i < j < |s|
  {
    Precedes(d, s[i], s[j])
  }

  ghost predicate Sorted(d: Direction, s: seq<Key>) {
    forall i, j :: 0 <= i < j < |s| ==> InOrder(d, s, i, j)
  }

  lemma SortedSlice(d: Direction, s: seq<Key>, lo: nat, hi: nat)
    requires Sorted(d, s) && lo <= hi <= |s|
    ensures Sorted(d, s[lo..hi])
  {
    forall i, j | 0 <= i < j < hi - lo ensures InOrder(d, s[lo..hi], i, j) {
      assert InOrder(d, s, lo + i, lo + j);
    }
  }

  lemma SortedTail(d: Direction, s: seq<Key>, lo: nat)
    requires Sorted(d, s) && lo <= |s|
    ensures Sorted(d, s[lo..])
  {
    SortedSlice(d, s, lo, |s|);
    assert s[lo..|s|] == s[lo..];
  }

  ghost function Elements(s: seq<Key>): (r: set<Key>) {
    set k | k in s
  }

  ghost predicate IsFirst(d: Direction, k: Key, rows: set<Key>) {
    k in rows && forall other :: other in rows && other != k ==> Precedes(d, k, other)
  }

  lemma {:induction false} FirstExists(d: Direction, rows: set<Key>)
    requires rows != {}
    ensures exists k :: IsFirst(d, k, rows)
    decreases |rows|
  {
    var k :| k in rows;
    var rest := rows - {k};
    if rest == {} {
      assert rows == {k};
      assert IsFirst(d, k, rows);
    } else {
      FirstExists(d, rest);
      var f :| IsFirst(d, f, rest);
      if Precedes(d, k, f) {
        forall other | other in rows && other != k ensures Precedes(d, k, other) {
          assert other in rest;
        }
        assert IsFirst(d, k, rows);
      } else {
        assert IsFirst(d, f, rows);
      }
    }
  }

  /** The whole result set in query order. */
  ghost function Ordered(d: Direction, rows: set<Key>): (s: seq<Key>) {
    if rows == {} then []
    else
      FirstExists(d, rows);
      var first :| IsFirst(d, first, rows);
      [first] + Ordered(d, rows - {first})
  }

  lemma SortedConcat(d: Direction, s: seq<Key>, t: seq<Key>)
    requires Sorted(d, s) && Sorted(d, t)
    requires forall a, b :: a in Elements(s) && b in Elements(t) ==> Precedes(d, a, b)
    ensures Sorted(d, s + t) && Elements(s + t) == Elements(s) + Elements(t)
  {
    forall i, j | 0 <= i < j < |s + t| ensures InOrder(d, s + t, i, j) {
      if i < |s| <= j {
        assert s[i] in Elements(s) && t[j - |s|] in Elements(t);
      } else if j < |s| {
        assert InOrder(d, s, i, j);
      } else {
        assert InOrder(d, t, i - |s|, j - |s|);
      }
    }
  }

  /** Ordering yields every row once, in strict order. */
  lemma {:induction false} OrderedIsSorted(d: Direction, rows: set<Key>)
    ensures Sorted(d, Ordered(d, rows)) && Elements(Ordered(d, rows)) == rows && |Ordered(d, rows)| == |rows|
    decreases |rows|
  {
    if rows != {} {
      FirstExists(d, rows);
      var first :| IsFirst(d, first, rows) && Ordered(d, rows) == [first] + Ordered(d, rows - {first});
      OrderedIsSorted(d, rows - {first});
      assert Elements([first]) == {first};
      SortedConcat(d, [first], Ordered(d, rows - {first}));
    }
  }

  /** Feeds run from new to old, comments from old to new; rows of the same instant go by id, in the same direction. */
  lemma OrderedColumns(rows: set<Key>, i: nat, j: nat)
    requires i < j < |rows|
    ensures |Ordered(NewestFirst, rows)| == |Ordered(OldestFirst, rows)| == |rows|
    ensures var a, b := Ordered(NewestFirst, rows)[i], Ordered(NewestFirst, rows)[j];
            a.at > b.at || (a.at == b.at && a.id > b.id)
    ensures var a, b := Ordered(OldestFirst, rows)[i], Ordered(OldestFirst, rows)[j];
            a.at < b.at || (a.at == b.at && a.id < b.id)
  {
    OrderedIsSorted(NewestFirst, rows);
    OrderedIsSorted(OldestFirst, rows);
    assert InOrder(NewestFirst, Ordered(NewestFirst, rows), i, j);
    assert InOrder(OldestFirst, Ordered(OldestFirst, rows), i, j);
  }

  lemma OrderedElements(d: Direction, rows: set<Key>)
    ensures Elements(Ordered(d, rows)) == rows && |Ordered(d, rows)| == |rows|
  {
    OrderedIsSorted(d, rows);
  }

  lemma FirstOfSorted(d: Direction, s: seq<Key>, k: Key)
    requires Sorted(d, s) && k in s
    ensures k == s[0] || Precedes(d, s[0], k)
  {
    var i :| 0 <= i < |s| && s[i] == k;
    if i > 0 {
      assert InOrder(d, s, 0, i);
    }
  }

  lemma TailElements(d: Direction, s: seq<Key>)
    requires Sorted(d, s) && s != []
    ensures Elements(s[1..]) == Elements(s) - {s[0]}
  {
    forall i | 1 <= i < |s| ensures s[i] != s[0] {
      assert InOrder(d, s, 0, i);
    }
    assert s == [s[0]] + s[1..];
  }

  /** A strictly ordered list is determined by its elements. */
  lemma {:induction false} SortedIsUnique(d: Direction, s: seq<Key>, t: seq<Key>)
    requires Sorted(d, s) && Sorted(d, t) && Elements(s) == Elements(t)
    ensures s == t
    decreases |s|
  {
    if s == [] {
      assert forall i :: 0 <= i < |t| ==> t[i] in Elements(t);
    } else {
      assert s[0] in Elements(t) && t[0] in Elements(s);
      FirstOfSorted(d, s, t[0]);
      FirstOfSorted(d, t, s[0]);
      assert s[0] == t[0];
      TailElements(d, s);
      TailElements(d, t);
      SortedTail(d, s, 1);
      SortedTail(d, t, 1);
      SortedIsUnique(d, s[1..], t[1..]);
      assert s == [s[0]] + s[1..] && t == [t[0]] + t[1..];
    }
  }

  // ------------------------------------------------------------ pages

  /** The key a cursor compares with: its second, to the microsecond. */
  function CursorKey(c: Cursor): (k: Key) {
    Key(c.secs * MICROS, c.id)
  }

  /** `next_cursor` names the last row shown, its timestamp cut down to whole seconds. */
  function CursorOf(last: Key): (c: Cursor) {
    Cursor(last.at / MICROS, last.id)
  }

  function Past(d: Direction, rows: set<Key>, from: Option<Cursor>): (r: set<Key>) {
    set k | k in rows && (from.Some? ==> Precedes(d, CursorKey(from.value), k))
  }

  function Take(s: seq<Key>, limit: nat): (r: seq<Key>) {
    if |s| <= limit then s else s[..limit]
  }

  /** One query: filter past the cursor, order, limit. */
  ghost function Page(d: Direction, rows: set<Key>, from: Option<Cursor>, limit: nat): (page: seq<Key>) {
    Take(Ordered(d, Past(d, rows, from)), limit)
  }

  /** Every row's cursor fits the types it is printed from and parsed into. */
  ghost predicate Timestamps(rows: set<Key>) {
    forall k :: k in rows ==> Representable(CursorOf(k))
  }

  /** Where a client that follows the cursor resumes: nowhere after a short page or a cursor the server rejects. */
  function ResumeAt(page: seq<Key>, limit: nat): (r: Option<Cursor>) {
    if |page| == limit && page != [] && page[|page| - 1].at >= 0 then Some(CursorOf(page[|page| - 1])) else None
  }

  lemma OrderedSplit(d: Direction, kept: set<Key>, past: set<Key>)
    requires forall a, b :: a in kept && b in past ==> Precedes(d, a, b)
    ensures Ordered(d, kept + past) == Ordered(d, kept) + Ordered(d, past)
  {
    OrderedIsSorted(d, kept);
    OrderedIsSorted(d, past);
    OrderedIsSorted(d, kept + past);
    SortedConcat(d, Ordered(d, kept), Ordered(d, past));
    SortedIsUnique(d, Ordered(d, kept) + Ordered(d, past), Ordered(d, kept + past));
  }

  lemma KeptPrecedesPast(d: Direction, rows: set<Key>, from: Option<Cursor>, a: Key, b: Key)
    requires a in rows && a !in Past(d, rows, from) && b in Past(d, rows, from)
    ensures Precedes(d, a, b)
  {
  }

  lemma OrderedSplitTail(d: Direction, rows: set<Key>, kept: set<Key>, past: set<Key>)
    requires rows == kept + past && kept !! past
    requires forall a, b :: a in kept && b in past ==> Precedes(d, a, b)
    ensures |kept| == |rows| - |past| && |Ordered(d, rows)| >= |kept| && Ordered(d, past) == Ordered(d, rows)[|kept|..]
  {
    OrderedSplit(d, kept, past);
    OrderedElements(d, kept);
    var front, back := Ordered(d, kept), Ordered(d, past);
    assert (front + back)[|front|..] == back;
  }

  /** The rows past a cursor are the tail of the whole ordered list: the query agrees with the simple list. */
  lemma PastIsTail(d: Direction, rows: set<Key>, from: Option<Cursor>)
    ensures var n := |rows| - |Past(d, rows, from)|;
            0 <= n <= |Ordered(d, rows)| && Ordered(d, Past(d, rows, from)) == Ordered(d, rows)[n..]
  {
    var past := Past(d, rows, from);
    var kept := rows - past;
    forall a, b | a in kept && b in past ensures Precedes(d, a, b) {
      KeptPrecedesPast(d, rows, from, a, b);
    }
    OrderedSplitTail(d, rows, kept, past);
  }
}
