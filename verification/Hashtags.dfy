/**
 Hashtag extraction (crates/db/src/hashtag.rs).  The scan is proved to return the
 first ten distinct lowercased tag runs, and the effect of extracting from the
 escaped caption (crates/server/src/upload.rs) is characterised exactly.
 */
module Hashtags {
  import opened Basics
  import opened Sanitizer
  import opened Text

  const MAX_HASHTAGS: nat := 10

  predicate IsTagChar(c: char) {
    'a' <= c <= 'z' || 'A' <= c <= 'Z' || '0' <= c <= '9' || c == '_'
  }

  /** The longest prefix of `s` made of tag characters. */
  function Run(s: string): (r: string)
    ensures |r| <= |s|
  {
    if s == "" || !IsTagChar(s[0]) then "" else [s[0]] + Run(s[1..])
  }

  /** The lowercased tag run behind every `#` that has one, in text order. */
  function TagRuns(s: string): (r: seq<string>) {
    if s == "" then []
    else (if s[0] == '#' && Run(s[1..]) != "" then [Lower(Run(s[1..]))] else []) + TagRuns(s[1..])
  }

  /** `acc` followed by the runs that are new to it, each at its first occurrence. */
  function DistinctFrom(acc: seq<string>, runs: seq<string>): (r: seq<string>)
    decreases runs
  {
    if runs == [] then acc
    else DistinctFrom(if runs[0] in acc then acc else acc + [runs[0]], runs[1..])
  }

  function FirstTen(tags: seq<string>): (r: seq<string>) {
    if |tags| <= MAX_HASHTAGS then tags else tags[..MAX_HASHTAGS]
  }

  function Extract(s: string): (r: seq<string>) {
    FirstTen(DistinctFrom([], TagRuns(s)))
  }

  // ------------------------------------------------------------ the scan

  /** The inner loop: the end of the tag run that starts at `start`. */
  method ScanRun(caption: string, start: nat) returns (end: nat)
    requires start <= |caption|
    ensures start <= end <= |caption|
    ensures Run(caption[start..]) == caption[start..end]
    ensures TagRuns(caption[start..]) == TagRuns(caption[end..])
  {
    end := start;
    while end < |caption| && IsTagChar(caption[end])
      invariant start <= end <= |caption|
      invariant Run(caption[start..]) == caption[start..end] + Run(caption[end..])
      invariant TagRuns(caption[start..]) == TagRuns(caption[end..])
    {
      assert caption[end..][1..] == caption[end + 1..];
      assert caption[start..end + 1] == caption[start..end] + [caption[end]];
      ConcatAssociative(caption[start..end], [caption[end]], Run(caption[end + 1..]));
      end := end + 1;
    }
    assert Run(caption[end..]) == "";
  }

  /** The runs seen from position `i`: the one starting there, then the others. */
  lemma RunsFrom(caption: string, i: nat)
    requires i < |caption|
    ensures caption[i] == '#' && Run(caption[i + 1..]) != "" ==>
              TagRuns(caption[i..]) == [Lower(Run(caption[i + 1..]))] + TagRuns(caption[i + 1..])
    ensures caption[i] != '#' || Run(caption[i + 1..]) == "" ==>
              TagRuns(caption[i..]) == TagRuns(caption[i + 1..])
  {
    assert caption[i..][1..] == caption[i + 1..];
  }

  /** `extract_hashtags`. */
  method ExtractHashtags(caption: string) returns (tags: seq<string>)
    ensures tags == Extract(caption)
  {
    tags := [];
    var i := 0;
    assert caption[0..] == caption;
    while i < |caption| && |tags| < MAX_HASHTAGS
      invariant 0 <= i <= |caption|
      invariant |tags| <= MAX_HASHTAGS
      invariant FirstTen(DistinctFrom(tags, TagRuns(caption[i..]))) == Extract(caption)
    {
      RunsFrom(caption, i);
      if caption[i] != '#' {
        i := i + 1;
        continue;
      }
      var start := i + 1;
      var end := ScanRun(caption, start);
      if end > start {
        var tag := Lower(caption[start..end]);
        assert TagRuns(caption[i..]) == [tag] + TagRuns(caption[end..]);
        assert TagRuns(caption[i..])[1..] == TagRuns(caption[end..]);
        if tag !in tags {
          tags := tags + [tag];
        }
      }
      i := if end > start then end else start;
    }
    AccumulatedIsPrefix(tags, TagRuns(caption[i..]));
  }

  lemma {:induction false} AccumulatedIsPrefix(acc: seq<string>, runs: seq<string>)
    ensures acc <= DistinctFrom(acc, runs)
    decreases runs
  {
    if runs == [] {
    } else {
      AccumulatedIsPrefix(if runs[0] in acc then acc else acc + [runs[0]], runs[1..]);
    }
  }

  // ------------------------------------------------------------ what the runs and the selection are

  /** A run is maximal: all of it is tag characters and the next character is not one. */
  lemma {:induction false} RunIsMaximal(s: string)
    ensures Run(s) == s[..|Run(s)|]
    ensures forall i :: 0 <= i < |Run(s)| ==> IsTagChar(s[i])
    ensures |Run(s)| < |s| ==> !IsTagChar(s[|Run(s)|])
  {
    if s != "" && IsTagChar(s[0]) {
      RunIsMaximal(s[1..]);
      assert forall i :: 1 <= i < |s| ==> s[i] == s[1..][i - 1];
    }
  }

  ghost predicate NoDuplicates(tags: seq<string>) {
    forall i, j :: 0 <= i < j < |tags| ==> tags[i] != tags[j]
  }

  /** Duplicate-free, and as a set exactly what was there plus the runs. */
  lemma {:induction false} DistinctFromFacts(acc: seq<string>, runs: seq<string>)
    requires NoDuplicates(acc)
    ensures NoDuplicates(DistinctFrom(acc, runs))
    ensures forall t :: t in DistinctFrom(acc, runs) <==> t in acc || t in runs
    decreases runs
  {
    if runs == [] {
    } else {
      assert runs == [runs[0]] + runs[1..];
      DistinctFromFacts(if runs[0] in acc then acc else acc + [runs[0]], runs[1..]);
    }
  }

  /** The runs that do not occur further left. */
  function FirstOccurrences(runs: seq<string>): (r: seq<string>) {
    if runs == [] then []
    else
      var init, last := runs[..|runs| - 1], runs[|runs| - 1];
      FirstOccurrences(init) + (if last in init then [] else [last])
  }

  lemma {:induction false} DistinctIsFirstOccurrences(runs: seq<string>)
    ensures DistinctFrom([], runs) == FirstOccurrences(runs)
  {
    if runs == [] {
    } else {
      var init, last := runs[..|runs| - 1], runs[|runs| - 1];
      assert runs == init + [last];
      DistinctSplits([], init, [last]);
      DistinctFromFacts([], init);
      DistinctIsFirstOccurrences(init);
      assert [last][1..] == [];
    }
  }

  /** `extract_hashtags` returns the first ten distinct lowercased tag runs, in text order. */
  lemma ExtractIsFirstTenDistinct(s: string)
    ensures Extract(s) == FirstTen(FirstOccurrences(TagRuns(s)))
    ensures |Extract(s)| <= 10 && NoDuplicates(Extract(s))
    ensures forall t :: t in Extract(s) ==> t in TagRuns(s)
    ensures |Extract(s)| < 10 ==> forall t :: t in TagRuns(s) ==> t in Extract(s)
  {
    DistinctIsFirstOccurrences(TagRuns(s));
    DistinctFromFacts([], TagRuns(s));
  }

  // ------------------------------------------------------------ extracting from the escaped caption

  /** The tag run that the escape of an apostrophe, `&#x27;`, adds. */
  const QUOTE_TAG: string := "x27"

  /** The runs of the escaped text, read off the unescaped one. */
  function EscapedRuns(s: string): (r: seq<string>) {
    if s == "" then []
    else if s[0] == '\'' then [QUOTE_TAG] + EscapedRuns(s[1..])
    else (if s[0] == '#' && Run(s[1..]) != "" then [Lower(Run(s[1..]))] else []) + EscapedRuns(s[1..])
  }

  lemma {:induction false} SkipPlain(x: string, y: string)
    requires '#' !in x
    ensures TagRuns(x + y) == TagRuns(y)
  {
    if x == "" {
      assert x + y == y;
    } else {
      assert (x + y)[1..] == x[1..] + y;
      SkipPlain(x[1..], y);
    }
  }

  lemma EscapeCharHead(c: char)
    ensures EscapeChar(c) != ""
    ensures EscapeChar(c)[0] == c || (EscapeChar(c)[0] == '&' && !IsTagChar(c) && c != '#')
    ensures IsTagChar(c) || c == '#' ==> EscapeChar(c) == [c]
    ensures c != '\'' && c != '#' ==> '#' !in EscapeChar(c)
  {
  }

  lemma {:induction false} RunSurvivesEscape(s: string)
    ensures Run(Escape(s)) == Run(s)
  {
    if s == "" {
    } else {
      EscapeCharHead(s[0]);
      if IsTagChar(s[0]) {
        assert Escape(s)[1..] == Escape(s[1..]);
        RunSurvivesEscape(s[1..]);
      }
    }
  }

  lemma QuoteRuns(y: string)
    ensures TagRuns("&#x27;" + y) == [QUOTE_TAG] + TagRuns(y)
  {
    var s := "&#x27;" + y;
    var a, b := s[1..], s[2..];
    assert a == "#" + b && a[1..] == b && s == "&" + a;
    assert b == "x27;" + y;
    QuoteRun(b, y);
    SkipPlain("x27;", y);
    SkipPlain("&", a);
  }

  lemma QuoteRun(b: string, y: string)
    requires b == "x27;" + y
    ensures Run(b) == "x27" && Lower(Run(b)) == QUOTE_TAG
  {
    var b1, b2, b3 := b[1..], b[2..], b[3..];
    assert b1[1..] == b2 && b2[1..] == b3 && b3[0] == ';';
    assert b[0] == 'x' && b1[0] == '2' && b2[0] == '7';
    assert Run(b3) == "";
    assert Run(b2) == "7";
    assert Run(b1) == "27";
    assert "x27"[1..] == "27" && "27"[1..] == "7" && "7"[1..] == "";
    assert Lower("7") == "7" && Lower("27") == "27";
  }

  lemma {:induction false} RunsOfEscaped(s: string)
    ensures TagRuns(Escape(s)) == EscapedRuns(s)
  {
    if s == "" {
    } else {
      var c, rest := s[0], Escape(s[1..]);
      RunsOfEscaped(s[1..]);
      EscapeCharHead(c);
      if c == '\'' {
        QuoteRuns(rest);
      } else if c == '#' {
        assert Escape(s)[1..] == rest;
        RunSurvivesEscape(s[1..]);
      } else {
        SkipPlain(EscapeChar(c), rest);
      }
    }
  }

  lemma {:induction false} NoQuoteSameRuns(s: string)
    requires '\'' !in s
    ensures EscapedRuns(s) == TagRuns(s)
  {
    if s == "" {
    } else {
      NoQuoteSameRuns(s[1..]);
    }
  }

  /** Captions without an apostrophe keep their hashtags through the escape. */
  lemma EscapeKeepsHashtags(s: string)
    requires '\'' !in s
    ensures Extract(Escape(s)) == Extract(s)
  {
    RunsOfEscaped(s);
    NoQuoteSameRuns(s);
  }

  /** Once the apostrophe's tag is present, further apostrophes add nothing. */
  lemma {:induction false} QuoteAbsorbed(acc: seq<string>, s: string)
    requires QUOTE_TAG in acc
    ensures DistinctFrom(acc, EscapedRuns(s)) == DistinctFrom(acc, TagRuns(s))
    decreases |s|
  {
    if s == "" {
    } else {
      var head := if s[0] == '#' && Run(s[1..]) != "" then [Lower(Run(s[1..]))] else [];
      if s[0] == '\'' {
        QuoteAbsorbed(acc, s[1..]);
        assert EscapedRuns(s)[1..] == EscapedRuns(s[1..]);
        assert TagRuns(s) == TagRuns(s[1..]);
      } else if head == [] {
        QuoteAbsorbed(acc, s[1..]);
        assert EscapedRuns(s) == EscapedRuns(s[1..]) && TagRuns(s) == TagRuns(s[1..]);
      } else {
        QuoteAbsorbed(if head[0] in acc then acc else acc + head, s[1..]);
        assert EscapedRuns(s)[1..] == EscapedRuns(s[1..]) && TagRuns(s)[1..] == TagRuns(s[1..]);
      }
    }
  }

  lemma {:induction false} DistinctSplits(acc: seq<string>, a: seq<string>, b: seq<string>)
    ensures DistinctFrom(acc, a + b) == DistinctFrom(DistinctFrom(acc, a), b)
    decreases a
  {
    if a == [] {
      assert a + b == b;
    } else {
      assert (a + b)[1..] == a[1..] + b;
      DistinctSplits(if a[0] in acc then acc else acc + [a[0]], a[1..], b);
    }
  }

  lemma {:induction false} RunStopsAtQuote(a: string, b: string)
    requires b != "" && b[0] == '\''
    ensures Run(a + b) == Run(a)
  {
    if a == "" {
      assert a + b == b;
    } else {
      assert (a + b)[1..] == a[1..] + b;
      RunStopsAtQuote(a[1..], b);
    }
  }

  /** An apostrophe separates the runs before it from those behind it. */
  lemma {:induction false} RunsSplitAtQuote(a: string, b: string)
    requires b != "" && b[0] == '\''
    ensures TagRuns(a + b) == TagRuns(a) + TagRuns(b[1..])
    ensures EscapedRuns(a + b) == EscapedRuns(a) + ([QUOTE_TAG] + EscapedRuns(b[1..]))
  {
    if a == "" {
      assert a + b == b;
    } else {
      assert (a + b)[1..] == a[1..] + b;
      RunStopsAtQuote(a[1..], b);
      RunsSplitAtQuote(a[1..], b);
      var head := if a[0] == '#' && Run(a[1..]) != "" then [Lower(Run(a[1..]))] else [];
      ConcatAssociative(head, TagRuns(a[1..]), TagRuns(b[1..]));
      ConcatAssociative(if a[0] == '\'' then [QUOTE_TAG] else head, EscapedRuns(a[1..]),
          [QUOTE_TAG] + EscapedRuns(b[1..]));
    }
  }

  /** The first run that is new to `acc`. */
  function FirstNew(acc: seq<string>, runs: seq<string>): (r: Option<string>) {
    if runs == [] then None else if runs[0] in acc then FirstNew(acc, runs[1..]) else Some(runs[0])
  }

  /** Adding the apostrophe's tag in the middle shows exactly when there was room and no such tag. */
  lemma {:induction false} InsertedTagShows(acc: seq<string>, runs: seq<string>)
    requires QUOTE_TAG !in acc && |acc| < MAX_HASHTAGS
    ensures (FirstTen(DistinctFrom(acc + [QUOTE_TAG], runs)) == FirstTen(DistinctFrom(acc, runs))) <==>
            (FirstNew(acc, runs) == Some(QUOTE_TAG))
    decreases runs
  {
    var withQuote := acc + [QUOTE_TAG];
    AccumulatedIsPrefix(withQuote, runs);
    assert FirstTen(DistinctFrom(withQuote, runs))[|acc|] == QUOTE_TAG by {
      assert withQuote[|acc|] == QUOTE_TAG;
    }
    if runs == [] {
    } else {
      if runs[0] in acc {
        assert runs[0] in withQuote;
        InsertedTagShows(acc, runs[1..]);
      } else {
        AccumulatedIsPrefix(acc + [runs[0]], runs[1..]);
        assert (acc + [runs[0]])[|acc|] == runs[0];
      }
    }
  }

  predicate QuoteTagIsHarmless(before: string, behind: string) {
    var seen := DistinctFrom([], TagRuns(before));
    || |seen| >= MAX_HASHTAGS
    || QUOTE_TAG in seen
    || FirstNew(seen, TagRuns(behind)) == Some(QUOTE_TAG)
  }

  /**
   Escaping before extraction leaves the hashtags of `a ' b` alone (`a` free of apostrophes)
   exactly when `a` already carries ten tags or the tag `x27`, or the next new tag behind
   the apostrophe is `x27` itself.
   */
  lemma EscapeKeepsHashtagsExactlyWhen(a: string, b: string)
    requires '\'' !in a && b != "" && b[0] == '\''
    ensures Extract(Escape(a + b)) == Extract(a + b) <==> QuoteTagIsHarmless(a, b[1..])
  {
    var seen := DistinctFrom([], TagRuns(a));
    var rest := TagRuns(b[1..]);
    var restEscaped := EscapedRuns(b[1..]);
    RunsOfEscaped(a + b);
    NoQuoteSameRuns(a);
    RunsSplitAtQuote(a, b);
    DistinctSplits([], TagRuns(a), rest);
    DistinctSplits([], TagRuns(a), [QUOTE_TAG] + restEscaped);
    assert ([QUOTE_TAG] + restEscaped)[1..] == restEscaped;
    if QUOTE_TAG in seen {
      QuoteAbsorbed(seen, b[1..]);
    } else {
      QuoteAbsorbed(seen + [QUOTE_TAG], b[1..]);
      AccumulatedIsPrefix(seen, rest);
      AccumulatedIsPrefix(seen + [QUOTE_TAG], rest);
      if |seen| < MAX_HASHTAGS {
        InsertedTagShows(seen, rest);
      }
    }
  }

  lemma {:induction false} OnlyQuoteTags(acc: seq<string>, s: string)
    requires '#' !in s && (acc == [] || acc == [QUOTE_TAG])
    ensures DistinctFrom(acc, EscapedRuns(s)) == if '\'' in s then [QUOTE_TAG] else acc
    decreases |s|
  {
    if s == "" {
    } else {
      if s[0] == '\'' {
        OnlyQuoteTags([QUOTE_TAG], s[1..]);
        assert EscapedRuns(s)[1..] == EscapedRuns(s[1..]);
        assert [] + [QUOTE_TAG] == [QUOTE_TAG];
      } else {
        OnlyQuoteTags(acc, s[1..]);
        assert EscapedRuns(s) == EscapedRuns(s[1..]);
      }
    }
  }

  /** A caption without `#` has no hashtag, but with an apostrophe its escaped form has one: `x27`. */
  lemma ApostropheMakesHashtag(s: string)
    requires '#' !in s && '\'' in s
    ensures Extract(s) == [] && Extract(Escape(s)) == [QUOTE_TAG]
  {
    SkipPlain(s, "");
    assert s + "" == s;
    RunsOfEscaped(s);
    OnlyQuoteTags([], s);
  }

  lemma ItsMakesHashtag()
    ensures Extract("it's") == [] && Extract(Escape("it's")) == ["x27"]
  {
    var s := "it's";
    assert s[2] == '\'' && '#' !in s;
    ApostropheMakesHashtag(s);
  }

  // ------------------------------------------------------------ what a hashtag is made of

  /** Letters, digits and the underscore, by code point. */
  predicate IsWordPoint(n: int) {
    48 <= n <= 57 || 65 <= n <= 90 || n == 95 || 97 <= n <= 122
  }

  predicate IsWord(s: string) {
    s != "" && forall i :: 0 <= i < |s| ==> IsWordPoint(s[i] as int)
  }

  lemma {:induction false} RunOfWord(word: string, rest: string)
    requires forall i :: 0 <= i < |word| ==> IsWordPoint(word[i] as int)
    requires rest != "" ==> !IsWordPoint(rest[0] as int)
    ensures Run(word + rest) == word
    decreases |word|
  {
    if word == "" {
      assert word + rest == rest;
    } else {
      assert (word + rest)[1..] == word[1..] + rest;
      RunOfWord(word[1..], rest);
    }
  }

  /** A `#` and the word behind it are one hashtag, in lower case, up to the first other character. */
  lemma WordIsHashtag(word: string, rest: string, s: string)
    requires IsWord(word) && (rest != "" ==> !IsWordPoint(rest[0] as int)) && s == "#" + (word + rest)
    ensures TagRuns(s) == [Lower(word)] + TagRuns(rest)
  {
    assert s[1..] == word + rest;
    RunOfWord(word, rest);
    SkipPlain(word, rest);
  }

  /** A `#` without a word behind it is none. */
  lemma BareHashIsNoHashtag(rest: string, s: string)
    requires (rest != "" ==> !IsWordPoint(rest[0] as int)) && s == "#" + rest
    ensures TagRuns(s) == TagRuns(rest)
  {
    assert s[1..] == rest && "" + rest == rest;
    RunOfWord("", rest);
  }
}
