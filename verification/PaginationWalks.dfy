/**
 What a client sees that follows `next_cursor` page by page: newest first in the feeds,
 oldest first in the comments.  `Ordered` is the simple list both are compared with.
 */
module PaginationWalks {
  import opened Basics
  import opened Pagination

  // ------------------------------------------------------------ a page is a slice of the list

  /** How many rows of the ordered list a cursor leaves behind. */
  function Rank(d: Direction, rows: set<Key>, from: Option<Cursor>): (n: int) {
    |rows| - |Past(d, rows, from)|
  }

  lemma InTail(d: Direction, list: seq<Key>, n: nat, i: nat)
    requires Sorted(d, list) && n <= |list| && i < |list|
    ensures list[i] in Elements(list[n..]) <==> i >= n
  {
    var tail := list[n..];
    if i >= n {
      assert tail[i - n] == list[i];
    } else {
      forall j | 0 <= j < |tail| ensures tail[j] != list[i] {
        assert InOrder(d, list, i, n + j);
      }
    }
  }

  lemma InOrderedTail(d: Direction, rows: set<Key>, n: nat, i: nat)
    requires n <= |Ordered(d, rows)| && i < |Ordered(d, rows)|
    ensures Ordered(d, rows)[i] in Elements(Ordered(d, rows)[n..]) <==> i >= n
  {
    OrderedIsSorted(d, rows);
    InTail(d, Ordered(d, rows), n, i);
  }

  lemma TailSplits(d: Direction, rows: set<Key>, past: set<Key>, n: nat, i: nat)
    requires i < |Ordered(d, rows)| && n <= |Ordered(d, rows)| && Ordered(d, past) == Ordered(d, rows)[n..]
    ensures i >= n <==> Ordered(d, rows)[i] in past
  {
    OrderedElements(d, past);
    InOrderedTail(d, rows, n, i);
  }

  lemma RankInRange(d: Direction, rows: set<Key>, from: Option<Cursor>)
    ensures 0 <= Rank(d, rows, from) <= |Ordered(d, rows)| == |rows|
  {
    PastIsTail(d, rows, from);
    OrderedElements(d, rows);
  }

  /** Row `i` of the list is past the cursor exactly when its index has reached the cursor's rank. */
  lemma RankSplits(d: Direction, rows: set<Key>, from: Option<Cursor>, i: nat)
    requires i < |Ordered(d, rows)|
    ensures i >= Rank(d, rows, from) <==> (from.Some? ==> Precedes(d, CursorKey(from.value), Ordered(d, rows)[i]))
  {
    PastIsTail(d, rows, from);
    TailSplits(d, rows, Past(d, rows, from), Rank(d, rows, from), i);
    var k := Ordered(d, rows)[i];
    assert k in rows by {
      OrderedElements(d, rows);
      assert k in Elements(Ordered(d, rows));
    }
  }

  lemma TakeOfTail(list: seq<Key>, n: nat, limit: nat)
    requires n <= |list|
    ensures Take(list[n..], limit) == if n + limit <= |list| then list[n..n + limit] else list[n..]
  {
    if n + limit <= |list| {
      assert list[n..][..limit] == list[n..n + limit];
    }
  }

  lemma PageIsSlice(d: Direction, rows: set<Key>, from: Option<Cursor>, limit: nat)
    ensures var list, n := Ordered(d, rows), Rank(d, rows, from);
            && 0 <= n <= |list| == |rows|
            && Page(d, rows, from, limit) == if n + limit <= |list| then list[n..n + limit] else list[n..]
  {
    PastIsTail(d, rows, from);
    RankInRange(d, rows, from);
    TakeOfTail(Ordered(d, rows), Rank(d, rows, from), limit);
  }

  lemma ResumeAtSlice(list: seq<Key>, n: nat, limit: nat)
    requires limit >= 1 && n <= |list|
    ensures ResumeAt(if n + limit <= |list| then list[n..n + limit] else list[n..], limit)
            == if n + limit <= |list| && list[n + limit - 1].at >= 0 then Some(CursorOf(list[n + limit - 1])) else None
  {
    if n + limit <= |list| {
      assert list[n..n + limit][limit - 1] == list[n + limit - 1];
    }
  }

  /** Where the walk resumes after the page from `from`, in terms of the list. */
  lemma ResumesAtEnd(d: Direction, rows: set<Key>, from: Option<Cursor>, limit: nat)
    requires limit >= 1
    ensures var list, end := Ordered(d, rows), Rank(d, rows, from) + limit;
            && |list| == |rows| && 1 <= end
            && ResumeAt(Page(d, rows, from, limit), limit)
               == if end <= |list| && list[end - 1].at >= 0 then Some(CursorOf(list[end - 1])) else None
  {
    PageIsSlice(d, rows, from, limit);
    ResumeAtSlice(Ordered(d, rows), Rank(d, rows, from), limit);
  }

  // ------------------------------------------------------------ newest first

  /** Cutting the seconds down moves a newest-first cursor past rows, never back. */
  lemma DescendingCursorSkipsAhead(rows: set<Key>, end: int)
    requires 1 <= end <= |Ordered(NewestFirst, rows)|
    ensures var list := Ordered(NewestFirst, rows);
            var next := Rank(NewestFirst, rows, Some(CursorOf(list[end - 1])));
            && end <= next <= |list| == |rows|
            && (next == end <==> end == |list| || Precedes(NewestFirst, CursorKey(CursorOf(list[end - 1])), list[end]))
  {
    var list := Ordered(NewestFirst, rows);
    var c := Some(CursorOf(list[end - 1]));
    RankInRange(NewestFirst, rows, c);
    RankSplits(NewestFirst, rows, c, end - 1);
    if end < |list| {
      RankSplits(NewestFirst, rows, c, end);
    }
  }

  /** All rows a client collects by following the cursors of a newest-first feed. */
  ghost function Walk(rows: set<Key>, from: Option<Cursor>, limit: nat): (shown: seq<Key>)
    requires limit >= 1
    decreases |Past(NewestFirst, rows, from)|
  {
    var page := Page(NewestFirst, rows, from, limit);
    var next := ResumeAt(page, limit);
    if next.None? then page
    else
      WalkAdvances(rows, from, limit);
      page + Walk(rows, next, limit)
  }

  /** Every page a cursor leads to lies further down: the walk terminates. */
  lemma WalkAdvances(rows: set<Key>, from: Option<Cursor>, limit: nat)
    requires limit >= 1 && ResumeAt(Page(NewestFirst, rows, from, limit), limit).Some?
    ensures var next := ResumeAt(Page(NewestFirst, rows, from, limit), limit);
            Rank(NewestFirst, rows, next) >= Rank(NewestFirst, rows, from) + limit
  {
    ResumesAtEnd(NewestFirst, rows, from, limit);
    DescendingCursorSkipsAhead(rows, Rank(NewestFirst, rows, from) + limit);
  }

  predicate IsSubsequence(s: seq<Key>, list: seq<Key>) {
    s == [] || (list != []
      && (if s[0] == list[0] then IsSubsequence(s[1..], list[1..]) else IsSubsequence(s, list[1..])))
  }

  lemma {:induction false} SubsequenceIsSorted(s: seq<Key>, list: seq<Key>)
    requires IsSubsequence(s, list) && Sorted(NewestFirst, list)
    ensures Sorted(NewestFirst, s) && Elements(s) <= Elements(list)
    decreases |list|
  {
    if s == [] {
    } else {
      if s[0] == list[0] {
        SortedTail(NewestFirst, list, 1);
        TailElements(NewestFirst, list);
        SubsequenceIsSorted(s[1..], list[1..]);
        forall k | k in Elements(list[1..]) ensures Precedes(NewestFirst, list[0], k) {
          FirstOfSorted(NewestFirst, list, k);
        }
        assert Elements([s[0]]) == {s[0]};
        SortedConcat(NewestFirst, [s[0]], s[1..]);
        assert s == [s[0]] + s[1..];
      } else {
        SortedTail(NewestFirst, list, 1);
        SubsequenceIsSorted(s, list[1..]);
      }
    }
  }

  lemma {:induction false} SubsequenceOfTail(s: seq<Key>, list: seq<Key>, n: nat)
    requires n <= |list| && Sorted(NewestFirst, list) && IsSubsequence(s, list[n..])
    ensures IsSubsequence(s, list)
    decreases n
  {
    if n == 0 {
      assert list[0..] == list;
    } else if s != [] {
      SortedTail(NewestFirst, list, n);
      SortedTail(NewestFirst, list, 1);
      SubsequenceIsSorted(s, list[n..]);
      InTail(NewestFirst, list, n, 0);
      assert s[0] in Elements(s);
      assert list[n..] == list[1..][n - 1..];
      SubsequenceOfTail(s, list[1..], n - 1);
    }
  }

  lemma {:induction false} SubsequenceAfterPrefix(s: seq<Key>, list: seq<Key>, n: nat)
    requires n <= |list| && IsSubsequence(s, list[n..])
    ensures IsSubsequence(list[..n] + s, list)
    decreases n
  {
    if n == 0 {
      assert list[0..] == list && list[..0] + s == s;
    } else {
      assert list[n..] == list[1..][n - 1..];
      SubsequenceAfterPrefix(s, list[1..], n - 1);
      assert (list[..n] + s)[1..] == list[1..][..n - 1] + s;
    }
  }

  lemma SubsequenceOfEarlierTail(rows: set<Key>, s: seq<Key>, m: nat, n: nat)
    requires m <= n <= |Ordered(NewestFirst, rows)| && IsSubsequence(s, Ordered(NewestFirst, rows)[n..])
    ensures IsSubsequence(s, Ordered(NewestFirst, rows)[m..])
  {
    OrderedIsSorted(NewestFirst, rows);
    var list := Ordered(NewestFirst, rows);
    assert list[n..] == list[m..][n - m..];
    SortedTail(NewestFirst, list, m);
    SubsequenceOfTail(s, list[m..], n - m);
  }

  lemma SliceThenSubsequence(list: seq<Key>, n: nat, end: nat, s: seq<Key>)
    requires n <= end <= |list| && IsSubsequence(s, list[end..])
    ensures IsSubsequence(list[n..end] + s, list[n..])
  {
    assert list[n..][end - n..] == list[end..] && list[n..][..end - n] == list[n..end];
    SubsequenceAfterPrefix(s, list[n..], end - n);
  }

  lemma SliceJoin(list: seq<Key>, n: nat, end: nat)
    requires n <= end <= |list|
    ensures list[n..end] + list[end..] == list[n..]
  {
  }

  lemma SliceThenRest(list: seq<Key>, n: nat, end: nat, s: seq<Key>)
    requires n <= end <= |list|
    ensures list[n..end] + s == list[n..] <==> s == list[end..]
  {
    assert list[n..] == list[n..end] + list[end..];
    assert (list[n..end] + s)[end - n..] == s && (list[n..end] + list[end..])[end - n..] == list[end..];
  }

  /** The walk in terms of the list: a slice, and after a full one the walk from the cursor of its last row. */
  lemma WalkUnfolds(rows: set<Key>, from: Option<Cursor>, limit: nat)
    requires limit >= 1
    ensures var list, n := Ordered(NewestFirst, rows), Rank(NewestFirst, rows, from);
            && 0 <= n <= |list| == |rows|
            && Walk(rows, from, limit)
               == if n + limit > |list| then list[n..]
                  else if list[n + limit - 1].at < 0 then list[n..n + limit]
                  else list[n..n + limit] + Walk(rows, Some(CursorOf(list[n + limit - 1])), limit)
  {
    PageIsSlice(NewestFirst, rows, from, limit);
    ResumesAtEnd(NewestFirst, rows, from, limit);
  }

  lemma {:induction false} WalkSelects(rows: set<Key>, from: Option<Cursor>, limit: nat)
    requires limit >= 1
    ensures 0 <= Rank(NewestFirst, rows, from) <= |Ordered(NewestFirst, rows)|
    ensures IsSubsequence(Walk(rows, from, limit), Ordered(NewestFirst, rows)[Rank(NewestFirst, rows, from)..])
    decreases |rows| - Rank(NewestFirst, rows, from)
  {
    var list, n := Ordered(NewestFirst, rows), Rank(NewestFirst, rows, from);
    WalkUnfolds(rows, from, limit);
    var end := if n + limit > |list| then |list| else n + limit;
    if n + limit > |list| || list[end - 1].at < 0 {
      SliceThenSubsequence(list, n, end, []);
      assert list[n..end] + [] == Walk(rows, from, limit);
    } else {
      var next := Some(CursorOf(list[end - 1]));
      DescendingCursorSkipsAhead(rows, end);
      WalkSelects(rows, next, limit);
      SubsequenceOfEarlierTail(rows, Walk(rows, next, limit), end, Rank(NewestFirst, rows, next));
      SliceThenSubsequence(list, n, end, Walk(rows, next, limit));
    }
  }

  /** A walk from the start is a strictly falling selection from the simple list: no row twice, none out of order. */
  lemma WalkIsSubsequence(rows: set<Key>, limit: nat)
    requires limit >= 1
    ensures IsSubsequence(Walk(rows, None, limit), Ordered(NewestFirst, rows))
    ensures Sorted(NewestFirst, Walk(rows, None, limit))
    ensures Elements(Walk(rows, None, limit)) <= rows
  {
    WalkSelects(rows, None, limit);
    assert Past(NewestFirst, rows, None) == rows;
    var list := Ordered(NewestFirst, rows);
    assert list[0..] == list;
    OrderedIsSorted(NewestFirst, rows);
    SubsequenceIsSorted(Walk(rows, None, limit), list);
  }

  // ------------------------------------------------------------ the walk over printed cursors

  /** How cursors are written into responses and read from requests. */
  datatype Wire = Wire(write: Cursor -> string, read: string -> Option<Cursor>)

  const WIRE: Wire := Wire(PrintCursor, ParseCursor)

  /** What a client collects from `pages` requests, sending each `next_cursor` back as it came; a 400 ends it. */
  ghost function Browsed(wire: Wire, d: Direction, rows: set<Key>, param: Option<string>, limit: nat,
                         pages: nat): (shown: seq<Key>)
    decreases pages, rows
  {
    if pages == 0 || (param.Some? && wire.read(param.value).None?) then []
    else
      var page := Page(d, rows, if param.None? then None else wire.read(param.value), limit);
      if |page| != limit || page == [] then page
      else page + Browsed(wire, d, rows, Some(wire.write(CursorOf(page[|page| - 1]))), limit, pages - 1)
  }

  /** The parameter stands for this place in the list. */
  ghost predicate Names(wire: Wire, param: Option<string>, from: Option<Cursor>) {
    if param.None? then from.None? else from.Some? && wire.read(param.value) == from
  }

  /** The cursors of these rows are read back exactly if their seconds are not negative. */
  ghost predicate ReadsBack(wire: Wire, rows: set<Key>) {
    forall k :: k in rows ==> wire.read(wire.write(CursorOf(k))) == if k.at >= 0 then Some(CursorOf(k)) else None
  }

  lemma LastOfPageIsRow(d: Direction, rows: set<Key>, from: Option<Cursor>, limit: nat,
                        page: seq<Key>)
    requires page == Page(d, rows, from, limit) && page != []
    ensures page[|page| - 1] in rows
  {
    OrderedElements(d, Past(d, rows, from));
    assert page[|page| - 1] in Elements(Ordered(d, Past(d, rows, from)));
  }

  /** One request more: the page, and what is browsed from where it resumes. */
  lemma BrowsedUnfolds(wire: Wire, d: Direction, rows: set<Key>, param: Option<string>, limit: nat,
                       pages: nat, from: Option<Cursor>, page: seq<Key>)
    returns (next: Option<string>)
    requires ReadsBack(wire, rows) && pages > 0 && Names(wire, param, from) && page == Page(d, rows, from, limit)
    ensures ResumeAt(page, limit).None? ==> Browsed(wire, d, rows, param, limit, pages) == page
    ensures ResumeAt(page, limit).Some? ==>
              && Names(wire, next, ResumeAt(page, limit))
              && Browsed(wire, d, rows, param, limit, pages) == page + Browsed(wire, d, rows, next, limit, pages - 1)
  {
    next := None;
    if |page| == limit && page != [] {
      LastOfPageIsRow(d, rows, from, limit, page);
      next := Some(wire.write(CursorOf(page[|page| - 1])));
      assert page + [] == page;
    }
  }

  /** With more requests than rows a client browsing a feed collects exactly the walk. */
  lemma {:induction false} BrowsedFeed(wire: Wire, rows: set<Key>, param: Option<string>, limit: nat, pages: nat,
                                       from: Option<Cursor>)
    requires ReadsBack(wire, rows) && limit >= 1 && Names(wire, param, from)
    requires pages > |Past(NewestFirst, rows, from)|
    ensures Browsed(wire, NewestFirst, rows, param, limit, pages) == Walk(rows, from, limit)
    decreases pages
  {
    var page := Page(NewestFirst, rows, from, limit);
    var next := BrowsedUnfolds(wire, NewestFirst, rows, param, limit, pages, from, page);
    if ResumeAt(page, limit).Some? {
      WalkAdvances(rows, from, limit);
      BrowsedFeed(wire, rows, next, limit, pages - 1, ResumeAt(page, limit));
    }
  }

  lemma CursorsReadBack(rows: set<Key>)
    requires Timestamps(rows)
    ensures ReadsBack(WIRE, rows)
  {
    forall k | k in rows
      ensures ParseCursor(PrintCursor(CursorOf(k))) == if k.at >= 0 then Some(CursorOf(k)) else None {
      CursorRoundTrip(CursorOf(k));
    }
  }

  /** A client that sends the printed cursors back collects exactly the walk. */
  lemma BrowsedFeedIsWalk(rows: set<Key>, limit: nat, pages: nat)
    requires Timestamps(rows) && limit >= 1 && pages > |rows|
    ensures Browsed(WIRE, NewestFirst, rows, None, limit, pages) == Walk(rows, None, limit)
  {
    CursorsReadBack(rows);
    assert Past(NewestFirst, rows, None) == rows;
    BrowsedFeed(WIRE, rows, None, limit, pages, None);
  }

  // ------------------------------------------------------------ when a feed walk loses nothing

  /** After a page ending in `last` the walk goes on with `next`: the cursor is readable and does not jump over it. */
  predicate Resumes(last: Key, next: Key) {
    last.at >= 0 && Precedes(NewestFirst, CursorKey(CursorOf(last)), next)
  }

  /** Every page boundary from index `n` on resumes with the row after it. */
  predicate Lossless(list: seq<Key>, limit: nat, n: nat)
    requires limit >= 1
    decreases |list| - n
  {
    n + limit >= |list| || (Resumes(list[n + limit - 1], list[n + limit]) && Lossless(list, limit, n + limit))
  }

  /** A walk shows only rows past its cursor. */
  lemma WalkStaysPast(rows: set<Key>, from: Option<Cursor>, limit: nat, k: Key)
    requires limit >= 1 && k in Walk(rows, from, limit)
    ensures k in Past(NewestFirst, rows, from)
  {
    WalkSelects(rows, from, limit);
    PastIsTail(NewestFirst, rows, from);
    OrderedIsSorted(NewestFirst, Past(NewestFirst, rows, from));
    SubsequenceIsSorted(Walk(rows, from, limit), Ordered(NewestFirst, Past(NewestFirst, rows, from)));
    assert k in Elements(Walk(rows, from, limit));
  }

  /** A walk whose cursor jumped over row `end` is not the list from `end` on. */
  lemma JumpedWalkDiffers(rows: set<Key>, from: Option<Cursor>, limit: nat, end: nat)
    requires limit >= 1
    requires end < |Ordered(NewestFirst, rows)| && Ordered(NewestFirst, rows)[end] !in Past(NewestFirst, rows, from)
    ensures Walk(rows, from, limit) != Ordered(NewestFirst, rows)[end..]
  {
    var k := Ordered(NewestFirst, rows)[end];
    assert Ordered(NewestFirst, rows)[end..][0] == k;
    if k in Walk(rows, from, limit) {
      WalkStaysPast(rows, from, limit, k);
    }
  }

  lemma {:induction false} WalkFromIsTail(rows: set<Key>, from: Option<Cursor>, limit: nat)
    requires limit >= 1
    ensures var list, n := Ordered(NewestFirst, rows), Rank(NewestFirst, rows, from);
            0 <= n <= |list| && (Walk(rows, from, limit) == list[n..] <==> Lossless(list, limit, n))
    decreases |rows| - Rank(NewestFirst, rows, from)
  {
    var list, n := Ordered(NewestFirst, rows), Rank(NewestFirst, rows, from);
    WalkUnfolds(rows, from, limit);
    var end := n + limit;
    if end <= |list| && list[end - 1].at >= 0 {
      var next := Some(CursorOf(list[end - 1]));
      DescendingCursorSkipsAhead(rows, end);
      WalkFromIsTail(rows, next, limit);
      SliceThenRest(list, n, end, Walk(rows, next, limit));
      if end < |list| && !Resumes(list[end - 1], list[end]) {
        JumpedWalkDiffers(rows, next, limit, end);
      }
    } else if end <= |list| {
      SliceThenRest(list, n, end, []);
      assert list[n..end] + [] == list[n..end];
    }
  }

  /** Following the cursors shows the whole feed exactly when every page boundary resumes with the next row. */
  lemma WalkShowsEverythingExactlyWhen(rows: set<Key>, limit: nat)
    requires limit >= 1
    ensures Walk(rows, None, limit) == Ordered(NewestFirst, rows) <==> Lossless(Ordered(NewestFirst, rows), limit, 0)
  {
    WalkFromIsTail(rows, None, limit);
    assert Past(NewestFirst, rows, None) == rows;
    assert Ordered(NewestFirst, rows)[0..] == Ordered(NewestFirst, rows);
  }

  ghost predicate AlwaysResumes(list: seq<Key>) {
    forall i :: 0 <= i < |list| - 1 ==> Resumes(list[i], list[i + 1])
  }

  lemma {:induction false} ResumingIsLossless(list: seq<Key>, limit: nat, n: nat)
    requires limit >= 1 && AlwaysResumes(list)
    ensures Lossless(list, limit, n)
    decreases |list| - n
  {
    if n + limit >= |list| {
    } else {
      var i := n + limit - 1;
      assert Resumes(list[i], list[i + 1]);
      ResumingIsLossless(list, limit, n + limit);
    }
  }

  lemma {:induction false} LosslessByOneResumes(list: seq<Key>, n: nat, i: nat)
    requires n <= i < |list| - 1 && Lossless(list, 1, n)
    ensures Resumes(list[i], list[i + 1])
    decreases i - n
  {
    if n == i {
    } else {
      LosslessByOneResumes(list, n + 1, i);
    }
  }

  /** Whatever page size the client asks for, nothing is lost, exactly when every row resumes with its successor. */
  lemma EveryWalkShowsEverythingExactlyWhen(rows: set<Key>)
    ensures (forall page: Option<nat> :: Walk(rows, None, FeedLimit(page)) == Ordered(NewestFirst, rows)) <==>
              AlwaysResumes(Ordered(NewestFirst, rows))
  {
    var list := Ordered(NewestFirst, rows);
    if AlwaysResumes(list) {
      forall page: Option<nat> ensures Walk(rows, None, FeedLimit(page)) == list {
        ResumingIsLossless(list, FeedLimit(page), 0);
        WalkShowsEverythingExactlyWhen(rows, FeedLimit(page));
      }
    }
    if forall page: Option<nat> :: Walk(rows, None, FeedLimit(page)) == list {
      assert FeedLimit(Some(1)) == 1;
      WalkShowsEverythingExactlyWhen(rows, 1);
      forall i | 0 <= i < |list| - 1 ensures Resumes(list[i], list[i + 1]) {
        LosslessByOneResumes(list, 0, i);
      }
    }
  }

  predicate WholeSecond(k: Key) {
    k.at >= 0 && k.at % MICROS == 0
  }

  /** With whole-second timestamps the walk is the feed, for every page size. */
  lemma WholeSecondsLoseNothing(rows: set<Key>, limit: nat)
    requires limit >= 1 && forall k :: k in rows ==> WholeSecond(k)
    ensures Walk(rows, None, limit) == Ordered(NewestFirst, rows)
  {
    var list := Ordered(NewestFirst, rows);
    OrderedIsSorted(NewestFirst, rows);
    forall i | 0 <= i < |list| - 1 ensures Resumes(list[i], list[i + 1]) {
      assert list[i] in Elements(list);
      assert CursorKey(CursorOf(list[i])) == list[i];
      assert InOrder(NewestFirst, list, i, i + 1);
    }
    ResumingIsLossless(list, limit, 0);
    WalkShowsEverythingExactlyWhen(rows, limit);
  }

  /** `k` is older than `last` but not past its cursor: in the same second, or on it with a larger id. */
  predicate JumpedOver(last: Key, k: Key) {
    var second := last.at / MICROS * MICROS;
    Less(k, last) && (k.at > second || (k.at == second && k.id >= last.id))
  }

  /** What is lost without them: when a page ends on `last`, the walk never shows a row it jumped over. */
  lemma SameSecondIsSkipped(rows: set<Key>, from: Option<Cursor>, limit: nat, k: Key)
    requires limit >= 1 && k in rows
    requires var page := Page(NewestFirst, rows, from, limit);
             |page| == limit && JumpedOver(page[limit - 1], k)
    ensures k !in Walk(rows, from, limit)
  {
    var page := Page(NewestFirst, rows, from, limit);
    var last := page[limit - 1];
    var next := ResumeAt(page, limit);
    OrderedIsSorted(NewestFirst, Past(NewestFirst, rows, from));
    forall i | 0 <= i < limit ensures page[i] != k {
      assert i == limit - 1 || InOrder(NewestFirst, Ordered(NewestFirst, Past(NewestFirst, rows, from)), i, limit - 1);
    }
    if next.Some? && k in Walk(rows, next, limit) {
      WalkStaysPast(rows, next, limit, k);
    }
  }

  /** For instance clips 2 and 1, created half and a quarter of a second past the same second, shown one per page. */
  lemma SkippedClip()
    ensures Walk({Key(500_000, 2), Key(250_000, 1)}, None, 1)
            != Ordered(NewestFirst, {Key(500_000, 2), Key(250_000, 1)})
  {
    var rows := {Key(500_000, 2), Key(250_000, 1)};
    var list := [Key(500_000, 2), Key(250_000, 1)];
    OrderedIsSorted(NewestFirst, rows);
    assert Elements(list) == rows && Sorted(NewestFirst, list);
    SortedIsUnique(NewestFirst, list, Ordered(NewestFirst, rows));
    WalkShowsEverythingExactlyWhen(rows, 1);
    assert !Resumes(list[0], list[1]);
  }

  /** In particular each visible clip appears on exactly one page, at most once, when created at whole seconds. */
  lemma FeedShowsEachClipOnce(t: Tables, feed: Feed, page: Option<nat>, id: ClipId)
    requires forall k :: k in FeedKeys(t, feed) ==> WholeSecond(k)
    ensures var shown := Walk(FeedKeys(t, feed), None, FeedLimit(page));
            && (Shows(t, feed, id) <==> exists i :: 0 <= i < |shown| && shown[i].id == id)
            && (forall i, j :: 0 <= i < j < |shown| ==> shown[i].id != shown[j].id)
  {
    var rows := FeedKeys(t, feed);
    var shown := Walk(rows, None, FeedLimit(page));
    WholeSecondsLoseNothing(rows, FeedLimit(page));
    OrderedIsSorted(NewestFirst, rows);
    assert forall i :: 0 <= i < |shown| ==> shown[i] in Elements(shown);
    forall i, j | 0 <= i < j < |shown| ensures shown[i].id != shown[j].id {
      assert InOrder(NewestFirst, shown, i, j);
    }
    if Shows(t, feed, id) {
      assert Key(t.clips[id].createdAt, id) in Elements(shown);
    }
  }

  /** Every clip of a feed walk is public, not deleted, playable, of an author in good standing, and of the feed. */
  lemma FeedShowsOnlyVisible(t: Tables, feed: Feed, page: Option<nat>, k: Key)
    requires k in Walk(FeedKeys(t, feed), None, FeedLimit(page))
    ensures k.id in t.clips && t.clips[k.id].createdAt == k.at && t.clips[k.id].actor in t.actors
    ensures !t.clips[k.id].deleted && t.clips[k.id].isPublic && (t.clips[k.id].ready || t.clips[k.id].remote)
    ensures !t.actors[t.clips[k.id].actor].suspended && !t.actors[t.clips[k.id].actor].deleted
    ensures feed.Following? ==> (feed.viewer, t.clips[k.id].actor) in t.accepted
    ensures feed.Local? ==> t.actors[t.clips[k.id].actor].domain.None?
    ensures feed.Tagged? ==> feed.tag in t.clips[k.id].tags
  {
    WalkIsSubsequence(FeedKeys(t, feed), FeedLimit(page));
    assert k in Elements(Walk(FeedKeys(t, feed), None, FeedLimit(page)));
  }

  /** Conversely each such clip is shown, if the feed's timestamps are whole seconds. */
  lemma FeedShowsAllVisible(t: Tables, feed: Feed, page: Option<nat>, id: ClipId)
    requires forall k :: k in FeedKeys(t, feed) ==> WholeSecond(k)
    requires id in t.clips && t.clips[id].actor in t.actors
    requires !t.clips[id].deleted && t.clips[id].isPublic && (t.clips[id].ready || t.clips[id].remote)
    requires !t.actors[t.clips[id].actor].suspended && !t.actors[t.clips[id].actor].deleted
    requires feed.Following? ==> (feed.viewer, t.clips[id].actor) in t.accepted
    requires feed.Local? ==> t.actors[t.clips[id].actor].domain.None?
    requires feed.Tagged? ==> feed.tag in t.clips[id].tags
    ensures Key(t.clips[id].createdAt, id) in Walk(FeedKeys(t, feed), None, FeedLimit(page))
  {
    WholeSecondsLoseNothing(FeedKeys(t, feed), FeedLimit(page));
    OrderedElements(NewestFirst, FeedKeys(t, feed));
    assert Key(t.clips[id].createdAt, id) in Elements(Ordered(NewestFirst, FeedKeys(t, feed)));
  }

  // ------------------------------------------------------------ oldest first

  /** Cutting the seconds down moves an oldest-first cursor back, never ahead, and not at all on whole seconds. */
  lemma AscendingCursorStepsBack(rows: set<Key>, end: int)
    requires 1 <= end <= |Ordered(OldestFirst, rows)|
    ensures var list := Ordered(OldestFirst, rows);
            var next := Rank(OldestFirst, rows, Some(CursorOf(list[end - 1])));
            && 0 <= next <= end <= |list| == |rows|
            && (next == end <==> list[end - 1].at % MICROS == 0)
  {
    var list := Ordered(OldestFirst, rows);
    var c := Some(CursorOf(list[end - 1]));
    RankInRange(OldestFirst, rows, c);
    RankSplits(OldestFirst, rows, c, end - 1);
    if end < |list| {
      RankSplits(OldestFirst, rows, c, end);
      OrderedIsSorted(OldestFirst, rows);
      assert InOrder(OldestFirst, list, end - 1, end);
    }
  }

  /** The page a comment cursor leads to omits no comment after the last one shown. */
  lemma NothingOmitted(rows: set<Key>, last: Key, k: Key)
    requires k in rows && Precedes(OldestFirst, last, k)
    ensures k in Past(OldestFirst, rows, Some(CursorOf(last)))
  {
  }

  /** The comments on the first `pages` pages, one after the other; fewer when the walk ends before. */
  ghost function Shown(rows: set<Key>, from: Option<Cursor>, limit: nat, pages: nat): (shown: seq<Key>)
    requires limit >= 1
    decreases pages, rows
  {
    if pages == 0 then []
    else
      var page := Page(OldestFirst, rows, from, limit);
      var next := ResumeAt(page, limit);
      if next.None? then page else page + Shown(rows, next, limit, pages - 1)
  }

  lemma ShownByPages(rows: set<Key>, from: Option<Cursor>, limit: nat, pages: nat, page: seq<Key>,
                     rest: seq<Key>)
    requires limit >= 1 && pages > 0 && page == Page(OldestFirst, rows, from, limit)
    requires rest == if ResumeAt(page, limit).None? then [] else Shown(rows, ResumeAt(page, limit), limit, pages - 1)
    ensures Shown(rows, from, limit, pages) == page + rest
  {
    assert page + [] == page;
  }

  lemma {:induction false} BrowsedComments(wire: Wire, rows: set<Key>, param: Option<string>, limit: nat, pages: nat,
                                           from: Option<Cursor>, shown: seq<Key>)
    requires ReadsBack(wire, rows) && limit >= 1 && Names(wire, param, from) && shown == Shown(rows, from, limit, pages)
    ensures Browsed(wire, OldestFirst, rows, param, limit, pages) == shown
    decreases pages
  {
    if pages == 0 {
    } else {
      var page := Page(OldestFirst, rows, from, limit);
      var next := BrowsedUnfolds(wire, OldestFirst, rows, param, limit, pages, from, page);
      var resume := ResumeAt(page, limit);
      if resume.Some? {
        var rest := Shown(rows, resume, limit, pages - 1);
        BrowsedComments(wire, rows, next, limit, pages - 1, resume, rest);
        ShownByPages(rows, from, limit, pages, page, rest);
      }
    }
  }

  /** It is what a client browsing the comments collects from that many requests. */
  lemma BrowsedCommentsAreShown(rows: set<Key>, limit: nat, pages: nat)
    requires Timestamps(rows) && limit >= 1
    ensures Browsed(WIRE, OldestFirst, rows, None, limit, pages) == Shown(rows, None, limit, pages)
  {
    CursorsReadBack(rows);
    BrowsedComments(WIRE, rows, None, limit, pages, None, Shown(rows, None, limit, pages));
  }

  /** One of the first `pages` pages comes back short: the client is told that there is no more. */
  ghost predicate Ends(rows: set<Key>, from: Option<Cursor>, limit: nat, pages: nat)
    requires limit >= 1
    decreases pages, rows
  {
    pages > 0 &&
    var page := Page(OldestFirst, rows, from, limit);
    |page| < limit || (ResumeAt(page, limit).Some? && Ends(rows, ResumeAt(page, limit), limit, pages - 1))
  }

  /** Where the page after a page ending in row `i` starts: at `onward[i]`, which is at most `i + 1`. */
  ghost predicate StepsBack(list: seq<Key>, onward: seq<nat>) {
    |onward| == |list| && forall i :: 0 <= i < |list| ==> onward[i] <= i + 1
  }

  /** The same walk as slices of the list. */
  ghost function Slices(list: seq<Key>, onward: seq<nat>, n: nat, limit: nat, pages: nat): (shown: seq<Key>)
    requires limit >= 1 && n <= |list| && StepsBack(list, onward)
    decreases pages, list
  {
    if pages == 0 then []
    else if n + limit > |list| then list[n..]
    else if list[n + limit - 1].at < 0 then list[n..n + limit]
    else list[n..n + limit] + Slices(list, onward, onward[n + limit - 1], limit, pages - 1)
  }

  ghost predicate SlicesEnd(list: seq<Key>, onward: seq<nat>, n: nat, limit: nat, pages: nat)
    requires limit >= 1 && n <= |list| && StepsBack(list, onward)
    decreases pages, list
  {
    pages > 0 &&
    (n + limit > |list|
      || (list[n + limit - 1].at >= 0 && SlicesEnd(list, onward, onward[n + limit - 1], limit, pages - 1)))
  }

  /** The ranks of the cursors of all rows. */
  ghost function Onward(rows: set<Key>): (onward: seq<nat>)
    ensures |onward| == |Ordered(OldestFirst, rows)| == |rows|
    ensures forall i :: 0 <= i < |onward| ==>
              onward[i] == Rank(OldestFirst, rows, Some(CursorOf(Ordered(OldestFirst, rows)[i])))
    ensures StepsBack(Ordered(OldestFirst, rows), onward)
  {
    var list := Ordered(OldestFirst, rows);
    RankInRange(OldestFirst, rows, None);
    assert forall i :: 0 <= i < |list| ==> 0 <= Rank(OldestFirst, rows, Some(CursorOf(list[i]))) by {
      forall i | 0 <= i < |list| ensures 0 <= Rank(OldestFirst, rows, Some(CursorOf(list[i]))) {
        RankInRange(OldestFirst, rows, Some(CursorOf(list[i])));
      }
    }
    var onward: seq<nat> := seq(|list|, i requires 0 <= i < |list| => Rank(OldestFirst, rows, Some(CursorOf(list[i]))));
    assert StepsBack(list, onward) by {
      forall i | 0 <= i < |list| ensures onward[i] <= i + 1 {
        AscendingCursorStepsBack(rows, i + 1);
      }
    }
    onward
  }

  lemma ShownUnfolds(rows: set<Key>, from: Option<Cursor>, n: nat, limit: nat, pages: nat,
                     list: seq<Key>)
    requires limit >= 1 && n == Rank(OldestFirst, rows, from) && pages > 0 && list == Ordered(OldestFirst, rows)
    ensures n <= |list| == |rows|
    ensures Shown(rows, from, limit, pages)
            == if n + limit > |list| then list[n..]
               else if list[n + limit - 1].at < 0 then list[n..n + limit]
               else list[n..n + limit] + Shown(rows, Some(CursorOf(list[n + limit - 1])), limit, pages - 1)
  {
    PageIsSlice(OldestFirst, rows, from, limit);
    ResumesAtEnd(OldestFirst, rows, from, limit);
  }

  lemma EndsUnfolds(rows: set<Key>, from: Option<Cursor>, n: nat, limit: nat, pages: nat,
                    list: seq<Key>)
    requires limit >= 1 && n == Rank(OldestFirst, rows, from) && pages > 0 && list == Ordered(OldestFirst, rows)
    ensures n <= |list| == |rows|
    ensures Ends(rows, from, limit, pages) <==>
              n + limit > |list|
              || (list[n + limit - 1].at >= 0 && Ends(rows, Some(CursorOf(list[n + limit - 1])), limit, pages - 1))
  {
    PageIsSlice(OldestFirst, rows, from, limit);
    ResumesAtEnd(OldestFirst, rows, from, limit);
  }

  /** `onward[i]` is where the page after one that ends in row `i` starts. */
  ghost predicate StartsAt(rows: set<Key>, list: seq<Key>, onward: seq<nat>, i: int)
    requires 0 <= i < |list| == |onward|
  {
    onward[i] == Rank(OldestFirst, rows, Some(CursorOf(list[i])))
  }

  /** The list of the rows and the starts of its pages. */
  ghost predicate Charted(rows: set<Key>, list: seq<Key>, onward: seq<nat>) {
    && list == Ordered(OldestFirst, rows) && |list| == |rows| && StepsBack(list, onward)
    && forall i :: 0 <= i < |list| ==> StartsAt(rows, list, onward, i)
  }

  lemma OnwardIsCharted(rows: set<Key>)
    ensures Charted(rows, Ordered(OldestFirst, rows), Onward(rows))
  {
  }

  lemma NextSlices(list: seq<Key>, onward: seq<nat>, n: nat, limit: nat, pages: nat, rest: seq<Key>)
    requires limit >= 1 && n + limit <= |list| && StepsBack(list, onward) && pages > 0 && list[n + limit - 1].at >= 0
    requires rest == Slices(list, onward, onward[n + limit - 1], limit, pages - 1)
    ensures list[n..n + limit] + rest == Slices(list, onward, n, limit, pages)
  {
  }

  lemma {:induction false} ShownIsSlices(rows: set<Key>, from: Option<Cursor>, n: nat, limit: nat, pages: nat,
                                         list: seq<Key>, onward: seq<nat>, shown: seq<Key>)
    requires limit >= 1 && n == Rank(OldestFirst, rows, from) && Charted(rows, list, onward)
    requires shown == Shown(rows, from, limit, pages)
    ensures n <= |list| && shown == Slices(list, onward, n, limit, pages)
    decreases pages
  {
    RankInRange(OldestFirst, rows, from);
    if pages == 0 {
    } else {
      ShownUnfolds(rows, from, n, limit, pages, list);
      var end := n + limit;
      if end <= |list| && list[end - 1].at >= 0 {
        var next := Some(CursorOf(list[end - 1]));
        var rest := Shown(rows, next, limit, pages - 1);
        assert StartsAt(rows, list, onward, end - 1);
        ShownIsSlices(rows, next, onward[end - 1], limit, pages - 1, list, onward, rest);
        NextSlices(list, onward, n, limit, pages, rest);
      }
    }
  }

  lemma {:induction false} EndsIsSlicesEnd(rows: set<Key>, from: Option<Cursor>, n: nat, limit: nat, pages: nat,
                                           list: seq<Key>, onward: seq<nat>)
    requires limit >= 1 && n == Rank(OldestFirst, rows, from) && Charted(rows, list, onward)
    ensures n <= |list| && (Ends(rows, from, limit, pages) <==> SlicesEnd(list, onward, n, limit, pages))
    decreases pages
  {
    RankInRange(OldestFirst, rows, from);
    if pages == 0 {
    } else {
      EndsUnfolds(rows, from, n, limit, pages, list);
      var end := n + limit;
      if end <= |list| && list[end - 1].at >= 0 {
        assert StartsAt(rows, list, onward, end - 1);
        EndsIsSlicesEnd(rows, Some(CursorOf(list[end - 1])), onward[end - 1], limit, pages - 1, list, onward);
      }
    }
  }

  /** The same for the walk from the start. */
  lemma WalkIsSlices(rows: set<Key>, limit: nat, pages: nat)
    requires limit >= 1
    ensures |Ordered(OldestFirst, rows)| == |rows|
    ensures Shown(rows, None, limit, pages) == Slices(Ordered(OldestFirst, rows), Onward(rows), 0, limit, pages)
    ensures Ends(rows, None, limit, pages) <==> SlicesEnd(Ordered(OldestFirst, rows), Onward(rows), 0, limit, pages)
  {
    assert Past(OldestFirst, rows, None) == rows;
    OnwardIsCharted(rows);
    var list, onward := Ordered(OldestFirst, rows), Onward(rows);
    ShownIsSlices(rows, None, 0, limit, pages, list, onward, Shown(rows, None, limit, pages));
    EndsIsSlicesEnd(rows, None, 0, limit, pages, list, onward);
  }

  /** Together with the first `n` rows, the rows shown are the first `k`. */
  ghost predicate Covers(list: seq<Key>, n: nat, shown: seq<Key>, k: nat) {
    n <= |list| && k <= |list| && forall row :: row in list[..k] <==> row in list[..n] || row in shown
  }

  lemma SliceCovers(list: seq<Key>, n: nat, end: nat)
    requires n <= end <= |list|
    ensures Covers(list, n, list[n..end], end)
  {
    assert list[..end] == list[..n] + list[n..end];
  }

  /** A slice up to `end`, and then rows shown from some `n' <= end` on. */
  lemma SliceThenCovers(list: seq<Key>, n: nat, end: nat, n': nat, rest: seq<Key>, k: nat)
    requires n <= end <= |list| && n' <= end && Covers(list, n', rest, k)
    ensures Covers(list, n, list[n..end] + rest, if k < end then end else k)
  {
    SliceCovers(list, n, end);
    SliceCovers(list, n', end);
    if k < end {
      SliceCovers(list, k, end);
    } else {
      SliceCovers(list, end, k);
    }
  }

  ghost function Reached(list: seq<Key>, onward: seq<nat>, n: nat, limit: nat, pages: nat): (k: nat)
    requires limit >= 1 && n <= |list| && StepsBack(list, onward)
    decreases pages, list
  {
    if pages == 0 then n
    else if n + limit > |list| then |list|
    else if list[n + limit - 1].at < 0 then n + limit
    else
      var k := Reached(list, onward, onward[n + limit - 1], limit, pages - 1);
      if k < n + limit then n + limit else k
  }

  lemma LastSliceCovers(list: seq<Key>, onward: seq<nat>, n: nat, limit: nat, pages: nat)
    requires limit >= 1 && n <= |list| && StepsBack(list, onward)
    requires pages == 0 || n + limit > |list| || list[n + limit - 1].at < 0
    ensures Covers(list, n, Slices(list, onward, n, limit, pages), Reached(list, onward, n, limit, pages))
  {
    var k := Reached(list, onward, n, limit, pages);
    assert Slices(list, onward, n, limit, pages) == list[n..k];
    SliceCovers(list, n, k);
  }

  lemma NextSliceCovers(list: seq<Key>, onward: seq<nat>, n: nat, limit: nat, pages: nat, n': nat)
    requires limit >= 1 && n + limit <= |list| && StepsBack(list, onward) && pages > 0 && list[n + limit - 1].at >= 0
    requires n' == onward[n + limit - 1] <= n + limit
    requires Covers(list, n', Slices(list, onward, n', limit, pages - 1), Reached(list, onward, n', limit, pages - 1))
    ensures Covers(list, n, Slices(list, onward, n, limit, pages), Reached(list, onward, n, limit, pages))
  {
    SliceThenCovers(list, n, n + limit, n', Slices(list, onward, n', limit, pages - 1),
        Reached(list, onward, n', limit, pages - 1));
  }

  lemma {:induction false} SlicesArePrefix(list: seq<Key>, onward: seq<nat>, n: nat, limit: nat, pages: nat)
    requires limit >= 1 && n <= |list| && StepsBack(list, onward)
    ensures Covers(list, n, Slices(list, onward, n, limit, pages), Reached(list, onward, n, limit, pages))
    decreases pages
  {
    if pages == 0 || n + limit > |list| || list[n + limit - 1].at < 0 {
      LastSliceCovers(list, onward, n, limit, pages);
    } else {
      var n' := onward[n + limit - 1];
      SlicesArePrefix(list, onward, n', limit, pages - 1);
      NextSliceCovers(list, onward, n, limit, pages, n');
    }
  }

  lemma {:induction false} EndReachesAll(list: seq<Key>, onward: seq<nat>, n: nat, limit: nat, pages: nat)
    requires limit >= 1 && n <= |list| && StepsBack(list, onward) && SlicesEnd(list, onward, n, limit, pages)
    ensures Reached(list, onward, n, limit, pages) >= |list|
    decreases pages
  {
    if n + limit > |list| {
    } else {
      EndReachesAll(list, onward, onward[n + limit - 1], limit, pages - 1);
    }
  }

  /** After any number of pages, the comments shown are those of a prefix of the list: none is left out on the way. */
  lemma ShownIsPrefix(rows: set<Key>, limit: nat, pages: nat) returns (k: nat)
    requires limit >= 1
    ensures var list := Ordered(OldestFirst, rows);
            && k <= |list|
            && Elements(Shown(rows, None, limit, pages)) == Elements(list[..k])
            && (Ends(rows, None, limit, pages) ==> k == |list|)
  {
    WalkIsSlices(rows, limit, pages);
    SlicesArePrefix(Ordered(OldestFirst, rows), Onward(rows), 0, limit, pages);
    k := Reached(Ordered(OldestFirst, rows), Onward(rows), 0, limit, pages);
    if Ends(rows, None, limit, pages) {
      EndReachesAll(Ordered(OldestFirst, rows), Onward(rows), 0, limit, pages);
    }
    assert Elements(Ordered(OldestFirst, rows)[..0]) == {};
  }

  /** A comment walk that comes to its end has shown every comment. */
  lemma EndedWalkShowedAll(rows: set<Key>, limit: nat, pages: nat)
    requires limit >= 1 && Ends(rows, None, limit, pages)
    ensures Elements(Shown(rows, None, limit, pages)) == rows
  {
    var k := ShownIsPrefix(rows, limit, pages);
    OrderedElements(OldestFirst, rows);
    assert Ordered(OldestFirst, rows)[..k] == Ordered(OldestFirst, rows);
  }

  // ------------------------------------------------------------ when a comment walk repeats nothing

  /** At each page boundary the last comment falls on a whole second, so that the cursor is exact. */
  predicate Exact(list: seq<Key>, limit: nat, n: nat)
    requires limit >= 1
    decreases |list| - n
  {
    n + limit > |list| ||
    (var last := list[n + limit - 1];
     if last.at < 0 then n + limit == |list| else last.at % MICROS == 0 && Exact(list, limit, n + limit))
  }

  /** A walk that starts before `end` shows a row again before it goes on. */
  lemma SteppedBackWalkDiffers(list: seq<Key>, onward: seq<nat>, n: nat, limit: nat, pages: nat,
                               end: nat)
    requires limit >= 1 && n < end <= |list| && StepsBack(list, onward) && pages > 0 && Sorted(OldestFirst, list)
    ensures Slices(list, onward, n, limit, pages) != list[end..]
  {
    var shown := Slices(list, onward, n, limit, pages);
    assert shown != [] && shown[0] == list[n];
    if end < |list| {
      assert list[end..][0] == list[end] && InOrder(OldestFirst, list, n, end);
    }
  }

  /** `Exact` in terms of where the pages start. */
  ghost predicate NeverStepsBack(list: seq<Key>, onward: seq<nat>, limit: nat, n: nat)
    requires limit >= 1 && StepsBack(list, onward)
    decreases |list| - n
  {
    var end := n + limit;
    end > |list| ||
    (if list[end - 1].at < 0 then end == |list|
     else onward[end - 1] == end && NeverStepsBack(list, onward, limit, end))
  }

  lemma {:induction false} NeverStepsBackIsExact(rows: set<Key>, limit: nat, n: nat)
    requires limit >= 1
    ensures NeverStepsBack(Ordered(OldestFirst, rows), Onward(rows), limit, n) <==>
              Exact(Ordered(OldestFirst, rows), limit, n)
    decreases |rows| - n
  {
    var list, end := Ordered(OldestFirst, rows), n + limit;
    RankInRange(OldestFirst, rows, None);
    if end > |list| {
    } else {
      AscendingCursorStepsBack(rows, end);
      NeverStepsBackIsExact(rows, limit, end);
    }
  }

  lemma {:induction false} ExactSlices(list: seq<Key>, onward: seq<nat>, n: nat, limit: nat, pages: nat)
    requires limit >= 1 && n <= |list| < n + pages && StepsBack(list, onward) && NeverStepsBack(list, onward, limit, n)
    ensures Slices(list, onward, n, limit, pages) == list[n..]
    decreases pages
  {
    var end := n + limit;
    if end <= |list| && list[end - 1].at >= 0 {
      ExactSlices(list, onward, end, limit, pages - 1);
      SliceJoin(list, n, end);
    }
  }

  lemma SlicesDiffer(list: seq<Key>, onward: seq<nat>, n: nat, limit: nat, pages: nat,
                     rest: seq<Key>)
    requires limit >= 1 && n + limit <= |list| && StepsBack(list, onward) && pages > 0 && list[n + limit - 1].at >= 0
    requires rest == Slices(list, onward, onward[n + limit - 1], limit, pages - 1) && rest != list[n + limit..]
    ensures Slices(list, onward, n, limit, pages) != list[n..]
  {
    SliceThenRest(list, n, n + limit, rest);
  }

  lemma StoppedSlicesDiffer(list: seq<Key>, onward: seq<nat>, n: nat, limit: nat, pages: nat)
    requires limit >= 1 && n + limit < |list| && StepsBack(list, onward) && pages > 0 && list[n + limit - 1].at < 0
    ensures Slices(list, onward, n, limit, pages) != list[n..]
  {
    assert |list[n..]| > |list[n..n + limit]|;
  }

  lemma {:induction false} InexactSlices(list: seq<Key>, onward: seq<nat>, n: nat, limit: nat, pages: nat)
    returns (shown: seq<Key>)
    requires limit >= 1 && n <= |list| < n + pages && StepsBack(list, onward) && Sorted(OldestFirst, list)
    requires !NeverStepsBack(list, onward, limit, n)
    ensures shown == Slices(list, onward, n, limit, pages) && shown != list[n..]
    decreases pages
  {
    var end := n + limit;
    shown := Slices(list, onward, n, limit, pages);
    if list[end - 1].at < 0 {
      StoppedSlicesDiffer(list, onward, n, limit, pages);
    } else if onward[end - 1] == end {
      var rest := InexactSlices(list, onward, end, limit, pages - 1);
      SlicesDiffer(list, onward, n, limit, pages, rest);
    } else {
      var rest := Slices(list, onward, onward[end - 1], limit, pages - 1);
      SteppedBackWalkDiffers(list, onward, onward[end - 1], limit, pages - 1, end);
      SlicesDiffer(list, onward, n, limit, pages, rest);
    }
  }

  /** The comment pages, one after the other, are the full list exactly once, exactly when every boundary is exact. */
  lemma CommentPagesAreTheListExactlyWhen(rows: set<Key>, limit: nat, pages: nat)
    requires limit >= 1 && pages > |rows|
    ensures Shown(rows, None, limit, pages) == Ordered(OldestFirst, rows) <==>
              Exact(Ordered(OldestFirst, rows), limit, 0)
  {
    WalkIsSlices(rows, limit, pages);
    OrderedIsSorted(OldestFirst, rows);
    if NeverStepsBack(Ordered(OldestFirst, rows), Onward(rows), limit, 0) {
      ExactSlices(Ordered(OldestFirst, rows), Onward(rows), 0, limit, pages);
    } else {
      var _ := InexactSlices(Ordered(OldestFirst, rows), Onward(rows), 0, limit, pages);
    }
    NeverStepsBackIsExact(rows, limit, 0);
    assert Ordered(OldestFirst, rows)[0..] == Ordered(OldestFirst, rows);
  }

  lemma {:induction false} WholeSecondsAreExact(list: seq<Key>, limit: nat, n: nat)
    requires limit >= 1 && forall i :: 0 <= i < |list| ==> WholeSecond(list[i])
    ensures Exact(list, limit, n)
    decreases |list| - n
  {
    if n + limit > |list| {
    } else {
      WholeSecondsAreExact(list, limit, n + limit);
    }
  }

  /** Every comment falls on a whole second; only the last of the list may lie before 1970. */
  ghost predicate ExactEverywhere(list: seq<Key>) {
    forall i :: 0 <= i < |list| ==> if list[i].at < 0 then i == |list| - 1 else list[i].at % MICROS == 0
  }

  lemma {:induction false} ExactEverywhereIsExact(list: seq<Key>, limit: nat, n: nat)
    requires limit >= 1 && ExactEverywhere(list)
    ensures Exact(list, limit, n)
    decreases |list| - n
  {
    if n + limit > |list| {
    } else {
      ExactEverywhereIsExact(list, limit, n + limit);
    }
  }

  lemma {:induction false} ExactByOne(list: seq<Key>, n: nat, i: nat)
    requires n <= i < |list| && Exact(list, 1, n)
    ensures if list[i].at < 0 then i == |list| - 1 else list[i].at % MICROS == 0
    decreases i - n
  {
    if n == i {
    } else {
      ExactByOne(list, n + 1, i);
    }
  }

  /**
   Whatever page size is asked for, the comment pages are the list exactly once, exactly when
   every comment is exact.
   */
  lemma EveryCommentWalkIsTheListExactlyWhen(rows: set<Key>)
    ensures (forall page: Option<nat> ::
               Shown(rows, None, CommentsLimit(page), |rows| + 1) == Ordered(OldestFirst, rows))
            <==> ExactEverywhere(Ordered(OldestFirst, rows))
  {
    var list := Ordered(OldestFirst, rows);
    if ExactEverywhere(list) {
      forall page: Option<nat> ensures Shown(rows, None, CommentsLimit(page), |rows| + 1) == list {
        ExactEverywhereIsExact(list, CommentsLimit(page), 0);
        CommentPagesAreTheListExactlyWhen(rows, CommentsLimit(page), |rows| + 1);
      }
    }
    if forall page: Option<nat> :: Shown(rows, None, CommentsLimit(page), |rows| + 1) == list {
      assert CommentsLimit(Some(1)) == 1;
      CommentPagesAreTheListExactlyWhen(rows, 1, |rows| + 1);
      forall i | 0 <= i < |list| ensures if list[i].at < 0 then i == |list| - 1 else list[i].at % MICROS == 0 {
        ExactByOne(list, 0, i);
      }
    }
  }

  lemma WholeSecondsRepeatNothing(rows: set<Key>, limit: nat, pages: nat)
    requires limit >= 1 && pages > |rows| && forall k :: k in rows ==> WholeSecond(k)
    ensures Shown(rows, None, limit, pages) == Ordered(OldestFirst, rows)
  {
    var list := Ordered(OldestFirst, rows);
    OrderedElements(OldestFirst, rows);
    assert forall i :: 0 <= i < |list| ==> list[i] in Elements(list);
    WholeSecondsAreExact(list, limit, 0);
    CommentPagesAreTheListExactlyWhen(rows, limit, pages);
  }

  // ------------------------------------------------------------ when a comment walk ends

  function SameSecond(rows: set<Key>, k: Key): (r: set<Key>) {
    set other | other in rows && other.at / MICROS == k.at / MICROS
  }

  lemma {:induction false} SortedIsDistinct(s: seq<Key>)
    requires Sorted(OldestFirst, s)
    ensures |Elements(s)| == |s|
  {
    if s == [] {
    } else {
      var init := s[..|s| - 1];
      SortedSlice(OldestFirst, s, 0, |s| - 1);
      SortedIsDistinct(init);
      assert s == init + [s[|s| - 1]];
      assert Elements(s) == Elements(init) + {s[|s| - 1]};
      forall i | 0 <= i < |init| ensures init[i] != s[|s| - 1] {
        assert InOrder(OldestFirst, s, i, |s| - 1);
      }
    }
  }

  /** The rows shown again after a page all fall into the second of its last row. */
  lemma RepeatsAreInTheSameSecond(rows: set<Key>, end: int)
    requires 1 <= end <= |Ordered(OldestFirst, rows)|
    ensures var list := Ordered(OldestFirst, rows);
            end - Rank(OldestFirst, rows, Some(CursorOf(list[end - 1]))) <= |SameSecond(rows, list[end - 1])|
  {
    var list := Ordered(OldestFirst, rows);
    var last := list[end - 1];
    var c := Some(CursorOf(last));
    var n := Rank(OldestFirst, rows, c);
    AscendingCursorStepsBack(rows, end);
    OrderedIsSorted(OldestFirst, rows);
    var again := list[n..end];
    forall k | k in Elements(again) ensures k in SameSecond(rows, last) {
      var i :| n <= i < end && list[i] == k;
      RankSplits(OldestFirst, rows, c, i);
      assert k in Elements(list);
      assert i == end - 1 || InOrder(OldestFirst, list, i, end - 1);
    }
    SortedSlice(OldestFirst, list, n, end);
    SortedIsDistinct(again);
    CardinalityOfSubset(Elements(again), SameSecond(rows, last));
  }

  lemma {:induction false} CardinalityOfSubset(a: set<Key>, b: set<Key>)
    requires a <= b
    ensures |a| <= |b|
    decreases |a|
  {
    if a != {} {
      var k :| k in a;
      CardinalityOfSubset(a - {k}, b - {k});
    }
  }

  lemma {:induction false} UncrowdedWalkEnds(list: seq<Key>, onward: seq<nat>, n: nat, limit: nat, pages: nat)
    requires limit >= 1 && n <= |list| < n + limit + pages - 1 && StepsBack(list, onward) && pages > 0
    requires forall i :: 0 <= i < |list| ==> list[i].at >= 0 && i + 1 < onward[i] + limit
    ensures SlicesEnd(list, onward, n, limit, pages)
    decreases pages
  {
    if n + limit > |list| {
    } else {
      UncrowdedWalkEnds(list, onward, onward[n + limit - 1], limit, pages - 1);
    }
  }

  /** Fewer than a page of rows up to row `i` is shown again when a page ends there. */
  ghost predicate OverlapsLess(rows: set<Key>, limit: nat, i: nat) {
    var list, onward := Ordered(OldestFirst, rows), Onward(rows);
    i < |list| && list[i].at >= 0 && i + 1 < onward[i] + limit
  }

  lemma OverlappingLessEnds(rows: set<Key>, limit: nat)
    requires limit >= 1 && forall i :: 0 <= i < |rows| ==> OverlapsLess(rows, limit, i)
    ensures Ends(rows, None, limit, |rows| + 1)
  {
    var list, onward := Ordered(OldestFirst, rows), Onward(rows);
    WalkIsSlices(rows, limit, |rows| + 1);
    assert forall i :: 0 <= i < |list| ==> list[i].at >= 0 && i + 1 < onward[i] + limit by {
      forall i | 0 <= i < |list| ensures list[i].at >= 0 && i + 1 < onward[i] + limit {
        assert OverlapsLess(rows, limit, i);
      }
    }
    UncrowdedWalkEnds(list, onward, 0, limit, |rows| + 1);
  }

  lemma SameSecondOverlapsLess(rows: set<Key>, limit: nat, i: nat)
    requires i < |rows| && forall k :: k in rows ==> k.at >= 0 && |SameSecond(rows, k)| < limit
    ensures OverlapsLess(rows, limit, i)
  {
    var list := Ordered(OldestFirst, rows);
    OrderedElements(OldestFirst, rows);
    assert list[i] in Elements(list);
    RepeatsAreInTheSameSecond(rows, i + 1);
  }

  /**
   When no second holds a whole page of comments, the walk ends after at most one page per
   comment, and has shown all.
   */
  lemma UncrowdedCommentsAreAllShown(rows: set<Key>, limit: nat)
    requires limit >= 1
    requires forall k :: k in rows ==> k.at >= 0 && |SameSecond(rows, k)| < limit
    ensures Ends(rows, None, limit, |rows| + 1) && Elements(Shown(rows, None, limit, |rows| + 1)) == rows
  {
    forall i | 0 <= i < |rows| ensures OverlapsLess(rows, limit, i) {
      SameSecondOverlapsLess(rows, limit, i);
    }
    OverlappingLessEnds(rows, limit);
    EndedWalkShowedAll(rows, limit, |rows| + 1);
  }

  /** The rows of the second of `k` that fall between two whole seconds. */
  function InsideSecond(rows: set<Key>, k: Key): (r: set<Key>) {
    set other | other in rows && other.at / MICROS == k.at / MICROS && other.at % MICROS != 0
  }

  /** `limit` neighbours of the list, from index `p` on, inside one second. */
  ghost predicate Crowd(list: seq<Key>, p: nat, limit: nat) {
    && p + limit <= |list|
    && forall i :: p <= i < p + limit ==> list[i].at % MICROS != 0 && list[i].at / MICROS == list[p].at / MICROS
  }

  /** A page that starts no later than a crowd is followed by one that starts no later than it. */
  lemma CrowdHoldsBack(rows: set<Key>, p: nat, limit: nat, i: nat)
    requires limit >= 1 && Crowd(Ordered(OldestFirst, rows), p, limit) && i < p + limit
    ensures i < |Onward(rows)| && Onward(rows)[i] <= p
  {
    var list := Ordered(OldestFirst, rows);
    AscendingCursorStepsBack(rows, i + 1);
    if p <= i {
      RankSplits(OldestFirst, rows, Some(CursorOf(list[i])), p);
      assert list[p].at % MICROS != 0;
    }
  }

  lemma {:induction false} CrowdedSlicesNeverEnd(list: seq<Key>, onward: seq<nat>, n: nat, limit: nat, pages: nat,
                                                 p: nat)
    requires limit >= 1 && n <= p && p + limit <= |list| && StepsBack(list, onward)
    requires forall i :: 0 <= i < p + limit ==> onward[i] <= p
    ensures !SlicesEnd(list, onward, n, limit, pages)
    decreases pages
  {
    if pages == 0 {
    } else {
      CrowdedSlicesNeverEnd(list, onward, onward[n + limit - 1], limit, pages - 1, p);
    }
  }

  lemma CrowdNeverEnds(rows: set<Key>, limit: nat, p: nat, pages: nat)
    requires limit >= 1 && Crowd(Ordered(OldestFirst, rows), p, limit)
    ensures !Ends(rows, None, limit, pages)
  {
    WalkIsSlices(rows, limit, pages);
    forall i | 0 <= i < p + limit ensures Onward(rows)[i] <= p {
      CrowdHoldsBack(rows, p, limit, i);
    }
    CrowdedSlicesNeverEnd(Ordered(OldestFirst, rows), Onward(rows), 0, limit, pages, p);
  }

  // ------------------------------------------------------------ a crowded second is a crowd of neighbours

  predicate IsInside(k: Key, second: int) {
    k.at / MICROS == second && k.at % MICROS != 0
  }

  function FirstInside(list: seq<Key>, second: int, i: nat): (p: nat)
    requires i <= |list|
    ensures i <= p <= |list| && (p < |list| ==> IsInside(list[p], second))
    ensures forall j :: i <= j < p ==> !IsInside(list[j], second)
    decreases |list| - i
  {
    if i == |list| || IsInside(list[i], second) then i else FirstInside(list, second, i + 1)
  }

  /** Behind the first row inside a second, rows are inside it up to some point and none after. */
  lemma InsideIsConnected(list: seq<Key>, second: int, p: nat, j: nat, k: nat)
    requires Sorted(OldestFirst, list) && p <= j <= k < |list| && IsInside(list[p], second)
    requires IsInside(list[k], second)
    ensures IsInside(list[j], second)
  {
    assert p == j || InOrder(OldestFirst, list, p, j);
    assert j == k || InOrder(OldestFirst, list, j, k);
  }

  /** If the rows inside a second all lie in `list[p..end]`, there are at most `end - p`. */
  lemma InsideFits(list: seq<Key>, inside: set<Key>, p: nat, end: nat)
    requires Sorted(OldestFirst, list) && p <= end <= |list|
    requires forall k :: k in inside ==> exists i :: p <= i < end && list[i] == k
    ensures |inside| <= end - p
  {
    var part := list[p..end];
    forall k | k in inside ensures k in Elements(part) {
      var i :| p <= i < end && list[i] == k;
      assert part[i - p] == k;
    }
    SortedSlice(OldestFirst, list, p, end);
    SortedIsDistinct(part);
    CardinalityOfSubset(inside, Elements(part));
  }

  lemma CrowdFound(rows: set<Key>, limit: nat, k: Key) returns (p: nat)
    requires limit >= 1 && |InsideSecond(rows, k)| >= limit
    ensures Crowd(Ordered(OldestFirst, rows), p, limit)
  {
    var list, second, inside := Ordered(OldestFirst, rows), k.at / MICROS, InsideSecond(rows, k);
    OrderedIsSorted(OldestFirst, rows);
    p := FirstInside(list, second, 0);
    forall x | x in inside ensures exists i :: p <= i < |list| && list[i] == x {
      assert x in Elements(list);
      var i :| 0 <= i < |list| && list[i] == x;
      assert IsInside(list[i], second);
    }
    InsideFits(list, inside, p, |list|);
    forall j | p <= j < p + limit ensures IsInside(list[j], second) {
      if !IsInside(list[j], second) {
        forall x | x in inside ensures exists i :: p <= i < j && list[i] == x {
          var i :| p <= i < |list| && list[i] == x;
          if j <= i {
            InsideIsConnected(list, second, p, j, i);
          }
          assert i < j;
        }
        InsideFits(list, inside, p, j);
      }
    }
  }

  /** A comment walk never ends if some second holds a whole page of comments between its ends. */
  lemma CrowdedWalkNeverEnds(rows: set<Key>, limit: nat, k: Key, pages: nat)
    requires limit >= 1 && |InsideSecond(rows, k)| >= limit
    ensures !Ends(rows, None, limit, pages)
  {
    var p := CrowdFound(rows, limit, k);
    CrowdNeverEnds(rows, limit, p, pages);
  }

  /** The client is told at some point that there are no more comments. */
  ghost predicate EverEnds(rows: set<Key>, limit: nat)
    requires limit >= 1
  {
    exists pages: nat :: Ends(rows, None, limit, pages)
  }

  /** Within a second ids follow time: a comment on the second itself has a smaller id than one inside it. */
  ghost predicate IdsFollowTime(rows: set<Key>) {
    forall a, b :: a in rows && b in rows && a.at % MICROS == 0 && b in InsideSecond(rows, a) ==> a.id < b.id
  }

  /** No second holds a whole page between its ends. */
  ghost predicate Uncrowded(rows: set<Key>, limit: nat) {
    forall k :: k in rows ==> |InsideSecond(rows, k)| < limit
  }

  /** With such ids, the rows shown again after a page all lie inside the second of its last row. */
  lemma RepeatIsInside(rows: set<Key>, last: Key, k: Key)
    requires IdsFollowTime(rows) && last in rows && k in rows && (k == last || Precedes(OldestFirst, k, last))
    requires Precedes(OldestFirst, CursorKey(CursorOf(last)), k)
    ensures k in InsideSecond(rows, last)
  {
    assert last.at == last.at / MICROS * MICROS + last.at % MICROS;
    assert k.at == k.at / MICROS * MICROS + k.at % MICROS;
  }

  lemma RepeatsAreInside(rows: set<Key>, end: int)
    requires IdsFollowTime(rows) && 1 <= end <= |Ordered(OldestFirst, rows)|
    ensures var list := Ordered(OldestFirst, rows);
            end - Rank(OldestFirst, rows, Some(CursorOf(list[end - 1]))) <= |InsideSecond(rows, list[end - 1])|
  {
    var list := Ordered(OldestFirst, rows);
    var last := list[end - 1];
    var c := Some(CursorOf(last));
    var n := Rank(OldestFirst, rows, c);
    AscendingCursorStepsBack(rows, end);
    OrderedIsSorted(OldestFirst, rows);
    var again := list[n..end];
    forall k | k in Elements(again) ensures k in InsideSecond(rows, last) {
      var i :| n <= i < end && list[i] == k;
      RankSplits(OldestFirst, rows, c, i);
      assert k in Elements(list) && last in Elements(list);
      assert i == end - 1 || InOrder(OldestFirst, list, i, end - 1);
      RepeatIsInside(rows, last, k);
    }
    SortedSlice(OldestFirst, list, n, end);
    SortedIsDistinct(again);
    CardinalityOfSubset(Elements(again), InsideSecond(rows, last));
  }

  lemma InsideOverlapsLess(rows: set<Key>, limit: nat, i: nat)
    requires i < |rows| && IdsFollowTime(rows) && Uncrowded(rows, limit) && forall k :: k in rows ==> k.at >= 0
    ensures OverlapsLess(rows, limit, i)
  {
    var list := Ordered(OldestFirst, rows);
    OrderedElements(OldestFirst, rows);
    assert list[i] in Elements(list);
    RepeatsAreInside(rows, i + 1);
  }

  lemma UncrowdedWalkComesToItsEnd(rows: set<Key>, limit: nat)
    requires limit >= 1 && IdsFollowTime(rows) && Uncrowded(rows, limit) && forall k :: k in rows ==> k.at >= 0
    ensures Ends(rows, None, limit, |rows| + 1)
  {
    forall i | 0 <= i < |rows| ensures OverlapsLess(rows, limit, i) {
      InsideOverlapsLess(rows, limit, i);
    }
    OverlappingLessEnds(rows, limit);
  }

  /** When ids follow time, the walk ends exactly if no second holds a whole page between its ends. */
  lemma CommentWalkEndsExactlyWhen(rows: set<Key>, limit: nat)
    requires limit >= 1 && IdsFollowTime(rows) && forall k :: k in rows ==> k.at >= 0
    ensures EverEnds(rows, limit) <==> Uncrowded(rows, limit)
  {
    if Uncrowded(rows, limit) {
      UncrowdedWalkComesToItsEnd(rows, limit);
    } else {
      var k :| k in rows && |InsideSecond(rows, k)| >= limit;
      forall pages: nat ensures !Ends(rows, None, limit, pages) {
        CrowdedWalkNeverEnds(rows, limit, k, pages);
      }
    }
  }

  lemma {:induction false} FirstPageForEver(list: seq<Key>, onward: seq<nat>, limit: nat, pages: nat)
    requires 1 <= limit <= |list| && StepsBack(list, onward) && onward[limit - 1] == 0
    ensures !SlicesEnd(list, onward, 0, limit, pages)
    decreases pages
  {
    if pages == 0 {
    } else {
      FirstPageForEver(list, onward, limit, pages - 1);
    }
  }

  /** Otherwise it need not: a comment on the second with a larger id than one inside it, two per page. */
  lemma IdsMatter(pages: nat)
    ensures var rows := {Key(1_000_000, 9), Key(1_500_000, 3)};
            Uncrowded(rows, 2) && !Ends(rows, None, 2, pages)
  {
    var early, late := Key(1_000_000, 9), Key(1_500_000, 3);
    var rows, list := {early, late}, [early, late];
    assert InsideSecond(rows, early) == {late} && InsideSecond(rows, late) == {late};
    assert Elements(list) == rows && Sorted(OldestFirst, list);
    OrderedIsSorted(OldestFirst, rows);
    SortedIsUnique(OldestFirst, list, Ordered(OldestFirst, rows));
    assert Past(OldestFirst, rows, Some(CursorOf(late))) == rows;
    WalkIsSlices(rows, 2, pages);
    FirstPageForEver(list, Onward(rows), 2, pages);
  }

  /** For instance a single comment at half past the second, one per page. */
  lemma OneCommentForEver(pages: nat)
    ensures !Ends({Key(1_500_000, 7)}, None, 1, pages)
  {
    var k := Key(1_500_000, 7);
    assert InsideSecond({k}, k) == {k};
    CrowdedWalkNeverEnds({k}, 1, k, pages);
  }
}
