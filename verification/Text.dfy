/**
 Characters and strings as the parsers see them: white space and `trim`, digits, ASCII
 lower-casing and `split_once`.
 */
module Text {
  /** The ranges of Unicode White_Space, the class removed by `str::trim`. */
  function SpaceRange(k: nat): (r: (int, int))
    requires k < SPACE_RANGES
  {
    match k
    case 0 => (0x09, 0x0D)
    case 1 => (0x20, 0x20)
    case 2 => (0x85, 0x85)
    case 3 => (0xA0, 0xA0)
    case 4 => (0x1680, 0x1680)
    case 5 => (0x2000, 0x200A)
    case 6 => (0x2028, 0x2029)
    case 7 => (0x202F, 0x202F)
    case 8 => (0x205F, 0x205F)
    case _ => (0x3000, 0x3000)
  }

  const SPACE_RANGES: nat := 10

  predicate InSpaceRange(c: char, k: nat)
    requires k <= SPACE_RANGES
    decreases c as int + SPACE_RANGES - k
  {
    k < SPACE_RANGES && (SpaceRange(k).0 <= c as int <= SpaceRange(k).1 || InSpaceRange(c, k + 1))
  }

  predicate IsWhitespace(c: char) {
    InSpaceRange(c, 0)
  }

  predicate IsDigit(c: char) {
    '0' <= c <= '9'
  }

  function LowerChar(c: char): (r: char) {
    if 'A' <= c <= 'Z' then (c as int + 32) as char else c
  }

  function Lower(s: string): (r: string)
    ensures |r| == |s| && forall i :: 0 <= i < |s| ==> r[i] == LowerChar(s[i])
  {
    if s == "" then "" else [LowerChar(s[0])] + Lower(s[1..])
  }

  /** The code points of white space. */
  predicate IsSpacePoint(n: int) {
    || 0x09 <= n <= 0x0D || n == 0x20 || n == 0x85 || n == 0xA0 || n == 0x1680 || 0x2000 <= n <= 0x200A
    || n == 0x2028 || n == 0x2029 || n == 0x202F || n == 0x205F || n == 0x3000
  }

  lemma WhitespaceIs(c: char)
    ensures IsWhitespace(c) <==> IsSpacePoint(c as int)
  {
    assert !InSpaceRange(c, 10);
    assert InSpaceRange(c, 9) <==> c as int == 0x3000;
    assert InSpaceRange(c, 8) <==> c as int == 0x205F || c as int == 0x3000;
    assert InSpaceRange(c, 7) <==> c as int == 0x202F || InSpaceRange(c, 8);
    assert InSpaceRange(c, 6) <==> 0x2028 <= c as int <= 0x2029 || InSpaceRange(c, 7);
    assert InSpaceRange(c, 5) <==> 0x2000 <= c as int <= 0x200A || InSpaceRange(c, 6);
    assert InSpaceRange(c, 4) <==> c as int == 0x1680 || InSpaceRange(c, 5);
    assert InSpaceRange(c, 3) <==> c as int == 0xA0 || InSpaceRange(c, 4);
    assert InSpaceRange(c, 2) <==> c as int == 0x85 || InSpaceRange(c, 3);
    assert InSpaceRange(c, 1) <==> c as int == 0x20 || InSpaceRange(c, 2);
  }

  lemma {:induction false} GraphicIsNotSpace(c: char, k: nat)
    requires k <= SPACE_RANGES && 0x21 <= c as int <= 0x7E
    ensures !InSpaceRange(c, k)
    decreases SPACE_RANGES - k
  {
    if k == SPACE_RANGES {
    } else {
      GraphicIsNotSpace(c, k + 1);
    }
  }

  // ------------------------------------------------------------ trimming

  /** Index of the first character from `i` on that is not white space, or `|s|`. */
  function TrimFrom(s: string, i: nat): (lo: nat)
    requires i <= |s|
    ensures i <= lo <= |s|
    ensures lo < |s| ==> !IsWhitespace(s[lo])
    decreases |s| - i
  {
    if i < |s| && IsWhitespace(s[i]) then TrimFrom(s, i + 1) else i
  }

  /** End of the text before `j` once trailing white space is cut, not below `lo`. */
  function TrimTo(s: string, lo: nat, j: nat): (hi: nat)
    requires lo <= j <= |s|
    ensures lo <= hi <= j
    ensures lo < hi ==> !IsWhitespace(s[hi - 1])
    decreases j
  {
    if lo < j && IsWhitespace(s[j - 1]) then TrimTo(s, lo, j - 1) else j
  }

  function Trim(s: string): (r: string) {
    var lo := TrimFrom(s, 0);
    s[lo..TrimTo(s, lo, |s|)]
  }

  /** A printing ASCII character. */
  predicate IsGraphic(c: char) {
    '!' <= c <= '~'
  }

  lemma TrimKeeps(s: string)
    requires s != [] ==> IsGraphic(s[0]) && IsGraphic(s[|s| - 1])
    ensures Trim(s) == s
  {
    if s != [] {
      GraphicIsNotSpace(s[0], 0);
      GraphicIsNotSpace(s[|s| - 1], 0);
    }
  }

  predicate AllSpace(s: string) {
    forall i :: 0 <= i < |s| ==> IsSpacePoint(s[i] as int)
  }

  lemma {:induction false} TrimFromSkips(s: string, i: nat, j: nat)
    requires i <= j <= |s| && (forall k :: i <= k < j ==> IsWhitespace(s[k])) && (j < |s| ==> !IsWhitespace(s[j]))
    ensures TrimFrom(s, i) == j
    decreases j - i
  {
    if i == j {
    } else {
      TrimFromSkips(s, i + 1, j);
    }
  }

  lemma {:induction false} TrimToSkips(s: string, lo: nat, i: nat, j: nat)
    requires lo <= i <= j <= |s| && (lo < i ==> !IsWhitespace(s[i - 1]))
    requires forall k :: i <= k < j ==> IsWhitespace(s[k])
    ensures TrimTo(s, lo, j) == i
    decreases j - i
  {
    if i == j {
    } else {
      TrimToSkips(s, lo, i, j - 1);
    }
  }

  /** Trimming removes exactly the white space around a text. */
  lemma TrimRemovesPadding(before: string, s: string, after: string)
    requires AllSpace(before) && AllSpace(after)
    requires s != [] && !IsSpacePoint(s[0] as int) && !IsSpacePoint(s[|s| - 1] as int)
    ensures Trim(before + s + after) == s
  {
    var t := before + s + after;
    var lo, hi := |before|, |before| + |s|;
    assert t[lo..hi] == s && t[lo] == s[0] && t[hi - 1] == s[|s| - 1];
    forall k | 0 <= k < |t| && (k < lo || hi <= k) ensures IsWhitespace(t[k]) {
      assert t[k] == if k < lo then before[k] else after[k - hi];
      WhitespaceIs(t[k]);
    }
    WhitespaceIs(s[0]);
    WhitespaceIs(s[|s| - 1]);
    TrimFromSkips(t, 0, lo);
    TrimToSkips(t, lo, hi, |t|);
  }

  // ------------------------------------------------------------ split_once

  /** The index of the first `c` from `i` on, or the length. */
  function IndexFrom(s: string, c: char, i: nat): (k: nat)
    requires i <= |s|
    ensures i <= k <= |s| && (k < |s| ==> s[k] == c) && (forall j :: i <= j < k ==> s[j] != c)
    decreases |s| - i
  {
    if i == |s| || s[i] == c then i else IndexFrom(s, c, i + 1)
  }

  function IndexOf(s: string, c: char): (k: nat)
    ensures k <= |s| && (k < |s| ==> s[k] == c) && (forall j :: 0 <= j < k ==> s[j] != c)
  {
    IndexFrom(s, c, 0)
  }

  lemma IndexOfJoined(before: string, c: char, after: string)
    requires forall k :: 0 <= k < |before| ==> before[k] != c
    ensures IndexOf(before + [c] + after, c) == |before|
  {
    var s := before + [c] + after;
    assert s[|before|] == c;
    assert forall k :: 0 <= k < |before| ==> s[k] == before[k];
  }
}
