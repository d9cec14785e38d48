/**
 What the pieces of the sanitizer do, character by character and independently of how they are
 written: every reference decodes to the character it names, everything else stays, tags vanish
 with whatever they enclose, and the escape replaces exactly five characters.
 */
module EntityLaws {
  import opened Basics
  import opened Numerals
  import opened Sanitizer
  import opened SanitizerLaws
  import opened Text

  // ------------------------------------------------------------ numeric references

  function HexChar(d: nat, upper: bool): (c: char)
    requires d < 16
  {
    if d < 10 then '0' + d as char else if upper then 'A' + (d - 10) as char else 'a' + (d - 10) as char
  }

  /** Hexadecimal digits, most significant first, in either case. */
  function PrintHex(n: nat, upper: bool): (s: string) {
    if n < 16 then [HexChar(n, upper)] else PrintHex(n / 16, upper) + [HexChar(n % 16, upper)]
  }

  lemma SliceOfSlice(w: string, lo: nat, part: string, m: nat)
    requires m <= |part| && lo + |part| <= |w| && w[lo..lo + |part|] == part
    ensures w[lo..lo + m] == part[..m]
  {
    assert w[lo..lo + |part|][..m] == w[lo..lo + m];
  }

  lemma {:induction false} NumeralIsNat(w: string, lo: nat, digits: string)
    requires lo + |digits| <= |w| && w[lo..lo + |digits|] == digits && AllDigits(digits)
    ensures forall i :: lo <= i < lo + |digits| ==> IsRadixDigit(w[i], 10)
    ensures NumeralValue(w, lo, lo + |digits|, 10) == NatValue(digits)
    decreases |digits|
  {
    assert forall i :: lo <= i < lo + |digits| ==> w[i] == digits[i - lo];
    if digits == [] {
    } else {
      var init := digits[..|digits| - 1];
      SliceOfSlice(w, lo, digits, |init|);
      NumeralIsNat(w, lo, init);
    }
  }

  lemma HexCharReadsBack(d: nat, upper: bool)
    requires d < 16
    ensures IsHexDigit(HexChar(d, upper)) && HexValue(HexChar(d, upper)) == d && HexChar(d, upper) != ';'
  {
  }

  lemma {:induction false} NumeralIsHex(w: string, lo: nat, n: nat, upper: bool, digits: string)
    requires digits == PrintHex(n, upper) && lo + |digits| <= |w| && w[lo..lo + |digits|] == digits
    ensures digits != [] && ';' !in digits
    ensures forall i :: lo <= i < lo + |digits| ==> IsRadixDigit(w[i], 16)
    ensures NumeralValue(w, lo, lo + |digits|, 16) == n
    decreases n
  {
    var last := lo + |digits| - 1;
    assert w[last] == digits[|digits| - 1];
    if n < 16 {
      HexCharReadsBack(n, upper);
      assert NumeralValue(w, lo, lo, 16) == 0;
    } else {
      var init := PrintHex(n / 16, upper);
      assert digits[..|digits| - 1] == init;
      SliceOfSlice(w, lo, digits, |init|);
      HexCharReadsBack(n % 16, upper);
      NumeralIsHex(w, lo, n / 16, upper, init);
    }
  }

  /** The digits of a reference end at its semicolon. */
  lemma SemicolonEndsDigits(w: string, from: nat, digits: string)
    requires from + |digits| < |w| && w[from..from + |digits|] == digits && w[from + |digits|] == ';' && ';' !in digits
    ensures FindSemicolon(w, from) == from + |digits|
  {
    assert forall i :: from <= i < from + |digits| ==> w[i] == digits[i - from];
  }

  /** What a decoder that meets `n` as a numeric reference in front of `rest` does. */
  predicate DecodesAs(s: string, n: nat, rest: string) {
    if n < 0xD800 || 0xE000 <= n < 0x11_0000 then Decode(s) == [n as char] + Decode(rest)
    else s != [] && Decode(s) == ['&'] + Decode(s[1..])
  }

  predicate IsCharacter(n: nat) {
    n < 0xD800 || 0xE000 <= n < 0x11_0000
  }

  /** What the decoder does with a reference depends on the number it finds. */
  lemma ReferenceDecodes(s: string, w: string, n: nat, length: nat, rest: string)
    requires s == "&" + w && length <= |s| && s[length..] == rest
    requires DecodeEntity(w) == if IsCharacter(n) then Some(Entity(n as char, length)) else None
    ensures DecodesAs(s, n, rest)
  {
    assert s[1..] == w;
  }

  lemma DecimalNumeric(w: string, digits: string, n: nat)
    requires digits != [] && AllDigits(digits) && n == NatValue(digits)
    requires 1 + |digits| < |w| && w[1..1 + |digits|] == digits && w[1 + |digits|] == ';'
    ensures DecodeNumeric(w, 1, 10) == if IsCharacter(n) then Some(Entity(n as char, |digits| + 3)) else None
  {
    SemicolonEndsDigits(w, 1, digits);
    NumeralIsNat(w, 1, digits);
  }

  lemma HashDecimal(w: string)
    requires |w| >= 2 && w[0] == '#' && IsDigit(w[1])
    ensures DecodeEntity(w) == DecodeNumeric(w, 1, 10)
  {
    HashIsNumeric(w, 0);
  }

  lemma {:induction false} DecimalEntity(w: string, digits: string, n: nat, rest: string)
    requires w == "#" + digits + ";" + rest && digits != [] && AllDigits(digits) && n == NatValue(digits)
    ensures DecodeEntity(w) == if IsCharacter(n) then Some(Entity(n as char, |digits| + 3)) else None
  {
    assert w[0] == '#' && w[1..1 + |digits|] == digits && w[1 + |digits|] == ';' && w[1] == digits[0];
    HashDecimal(w);
    DecimalNumeric(w, digits, n);
  }

  lemma {:induction false} HexEntity(w: string, x: char, n: nat, upper: bool, digits: string, rest: string)
    requires w == "#" + [x] + digits + ";" + rest && (x == 'x' || x == 'X') && digits == PrintHex(n, upper)
    ensures DecodeEntity(w) == if IsCharacter(n) then Some(Entity(n as char, |digits| + 4)) else None
  {
    var end := 2 + |digits|;
    assert w[0] == '#' && w[1] == x && w[2..end] == digits && w[end] == ';';
    HashIsNumeric(w, 0);
    NumeralIsHex(w, 2, n, upper, digits);
    SemicolonEndsDigits(w, 2, digits);
  }

  /**
   A decimal reference, leading zeros included, is the character with that number; a number that
   is no character is left alone.
   */
  lemma DecimalReference(s: string, digits: string, rest: string)
    requires s == "&#" + digits + ";" + rest && digits != [] && AllDigits(digits)
    ensures DecodesAs(s, NatValue(digits), rest)
  {
    var w := "#" + digits + ";" + rest;
    assert s == "&" + w && s[|digits| + 3..] == rest;
    DecimalEntity(w, digits, NatValue(digits), rest);
    ReferenceDecodes(s, w, NatValue(digits), |digits| + 3, rest);
  }

  /** A hexadecimal reference likewise, with `x` or `X` and digits of either case. */
  lemma HexReference(s: string, x: char, n: nat, upper: bool, rest: string)
    requires s == "&#" + [x] + PrintHex(n, upper) + ";" + rest && (x == 'x' || x == 'X')
    ensures DecodesAs(s, n, rest)
  {
    var digits := PrintHex(n, upper);
    var w := "#" + [x] + digits + ";" + rest;
    assert s == "&" + w && s[|digits| + 4..] == rest;
    HexEntity(w, x, n, upper, digits, rest);
    ReferenceDecodes(s, w, n, |digits| + 4, rest);
  }

  /** In particular every character printed as its number decodes to itself. */
  lemma PrintedReference(n: nat, s: string, rest: string)
    requires IsCharacter(n) && s == "&#" + PrintNat(n) + ";" + rest
    ensures Decode(s) == [n as char] + Decode(rest)
  {
    PrintedNatReadsBack(n);
    DecimalReference(s, PrintNat(n), rest);
  }

  /** A number without digits, with another character among them, or without a semicolon is left alone. */
  lemma MalformedNumberStays(s: string, body: string, rest: string)
    requires ';' !in body && (body != [] ==> body[0] != 'x' && body[0] != 'X')
    requires (s == "&#" + body + ";" + rest && (body == [] || !AllDigits(body))) || s == "&#" + body
    ensures Decode(s) == ['&'] + Decode(s[1..])
  {
    var w := s[1..];
    assert w[0] == '#' && s[0] == '&';
    assert body != [] ==> w[1] == body[0];
    HashIsNumeric(w, 0);
    var end := FindSemicolon(w, 1);
    assert forall i :: 0 <= i < |body| ==> w[1 + i] == body[i];
    if s == "&#" + body + ";" + rest && (body == [] || !AllDigits(body)) {
      assert w[1 + |body|] == ';';
      assert end == 1 + |body|;
      if body != [] {
        var i :| 0 <= i < |body| && !IsDigit(body[i]);
        assert !IsRadixDigit(w[1 + i], 10);
      }
    } else {
      assert |w| == 1 + |body|;
      assert end == |w|;
    }
  }

  // ------------------------------------------------------------ named references

  /** The seven names and what they stand for. */
  predicate Names(name: string, c: char) {
    || (name == "amp;" && c == '&') || (name == "lt;" && c == '<') || (name == "gt;" && c == '>')
    || (name == "quot;" && c == '\"') || (name == "apos;" && c == '\'') || (name == "nbsp;" && c as int == 0xA0)
    || (name == "hellip;" && c as int == 0x2026)
  }

  lemma NamesAreInTable(name: string, c: char) returns (k: nat)
    requires Names(name, c)
    ensures k < NAMED_COUNT && NamedReference(k) == (name, c)
  {
    k := if name == "amp;" then 0 else if name == "lt;" then 1 else if name == "gt;" then 2
         else if name == "quot;" then 3 else if name == "apos;" then 4 else if name == "nbsp;" then 5 else 6;
  }

  /** Each of the seven names decodes to its character. */
  lemma NamedReferenceDecodes(name: string, c: char, s: string, rest: string)
    requires Names(name, c) && s == "&" + name + rest
    ensures Decode(s) == [c] + Decode(rest)
  {
    var k := NamesAreInTable(name, c);
    DecodeKnown(s, k, rest);
  }

  /** None of the seven names, nor a number, stands here. */
  predicate StartsNoReference(w: string) {
    && !("amp;" <= w) && !("lt;" <= w) && !("gt;" <= w) && !("quot;" <= w)
    && !("apos;" <= w) && !("nbsp;" <= w) && !("hellip;" <= w) && !("#" <= w)
  }

  lemma {:induction false} NoNameHere(w: string, k: nat)
    requires StartsNoReference(w) && k <= NAMED_COUNT
    ensures DecodeEntityFrom(w, k).None?
    decreases NAMED_COUNT - k
  {
    if k == NAMED_COUNT {
      assert w != [] && w[0] == '#' ==> "#" <= w;
    } else {
      NoNameHere(w, k + 1);
    }
  }

  /** An `&` that starts no reference stays, and so does every other character. */
  lemma OtherCharactersStay(c: char, rest: string)
    requires c == '&' ==> StartsNoReference(rest)
    ensures Decode([c] + rest) == [c] + Decode(rest)
  {
    var s := [c] + rest;
    assert s[1..] == rest;
    if c == '&' {
      NoNameHere(rest, 0);
    }
  }

  // ------------------------------------------------------------ the escape

  /** Exactly five characters are replaced. */
  lemma EscapeTable(c: char, rest: string)
    ensures Escape("&" + rest) == "&amp;" + Escape(rest)
    ensures Escape("<" + rest) == "&lt;" + Escape(rest)
    ensures Escape(">" + rest) == "&gt;" + Escape(rest)
    ensures Escape("\"" + rest) == "&quot;" + Escape(rest)
    ensures Escape("'" + rest) == "&#x27;" + Escape(rest)
    ensures c !in "&<>\"'" ==> Escape([c] + rest) == [c] + Escape(rest)
  {
    assert ("&" + rest)[1..] == rest && ("<" + rest)[1..] == rest && (">" + rest)[1..] == rest;
    assert ("\"" + rest)[1..] == rest && ("'" + rest)[1..] == rest && ([c] + rest)[1..] == rest;
    assert c in "&<>\"'" <==> c == '&' || c == '<' || c == '>' || c == '\"' || c == '\'' by {
      var five := "&<>\"'";
      assert five[0] == '&' && five[1] == '<' && five[2] == '>' && five[3] == '\"' && five[4] == '\'';
    }
  }

  // ------------------------------------------------------------ tags

  lemma {:induction false} OutsideOfSuffix(s: string, t: string, i: nat, depth: nat)
    requires i <= |t| && |t| <= |s| && s[|s| - |t|..] == t
    ensures Outside(s, |s| - |t| + i, depth) == Outside(t, i, depth)
    decreases |t| - i
  {
    var j := |s| - |t| + i;
    if i == |t| {
    } else {
      assert s[j] == t[i];
      var inside := if t[i] == '<' then depth + 1 else if t[i] == '>' && depth > 0 then depth - 1 else depth;
      OutsideOfSuffix(s, t, i + 1, inside);
    }
  }

  /** Text without angle brackets is kept outside tags and dropped inside them. */
  lemma {:induction false} PlainText(s: string, i: nat, j: nat, depth: nat, after: string)
    requires i <= j <= |s| && forall k :: i <= k < j ==> s[k] != '<' && s[k] != '>'
    requires after == Outside(s, j, depth)
    ensures Outside(s, i, depth) == (if depth == 0 then s[i..j] else []) + after
    decreases j - i
  {
    if i == j {
    } else {
      PlainText(s, i + 1, j, depth, after);
      assert s[i..j] == [s[i]] + s[i + 1..j];
      ConcatAssociative([s[i]], s[i + 1..j], after);
    }
  }

  /** A tag vanishes with what it encloses, tags inside it included, and what follows it is seen as before. */
  lemma TagVanishes(inner: string, rest: string)
    requires Balanced(inner)
    ensures var s := "<" + inner + ">" + rest;
            Outside(s, 0, 0) == Outside(rest, 0, 0)
  {
    var s := "<" + inner + ">" + rest;
    var j := 1 + |inner|;
    assert s[j] == '>' && s[1..j] == inner && s[j + 1..] == rest;
    BalancedIsPassed(s, 1, inner, 1);
    OutsideOfSuffix(s, rest, 0, 0);
  }

  /** Text whose brackets match. */
  predicate Balanced(s: string) {
    BalancedFrom(s, 0, 0)
  }

  predicate BalancedFrom(s: string, i: nat, open: nat)
    requires i <= |s|
    decreases |s| - i
  {
    if i == |s| then open == 0
    else if s[i] == '<' then BalancedFrom(s, i + 1, open + 1)
    else if s[i] == '>' then open > 0 && BalancedFrom(s, i + 1, open - 1)
    else BalancedFrom(s, i + 1, open)
  }

  lemma BalancedIsPassed(s: string, lo: nat, inner: string, depth: nat)
    requires lo + |inner| <= |s| && s[lo..lo + |inner|] == inner && Balanced(inner) && depth > 0
    ensures Outside(s, lo, depth) == Outside(s, lo + |inner|, depth)
  {
    BalancedIsPassedFrom(s, lo, inner, 0, 0, depth);
  }

  lemma {:induction false} BalancedIsPassedFrom(s: string, lo: nat, inner: string, i: nat, open: nat, depth: nat)
    requires lo + |inner| <= |s| && s[lo..lo + |inner|] == inner && depth > 0
    requires i <= |inner| && BalancedFrom(inner, i, open)
    ensures Outside(s, lo + i, depth + open) == Outside(s, lo + |inner|, depth)
    decreases |inner| - i
  {
    if i == |inner| {
    } else {
      assert s[lo + i] == inner[i];
      var next := if inner[i] == '<' then open + 1 else if inner[i] == '>' then open - 1 else open;
      BalancedIsPassedFrom(s, lo, inner, i + 1, next, depth);
    }
  }

  /** A tag that is never closed swallows the rest; a `>` that closes nothing is text. */
  lemma UnmatchedBrackets(rest: string)
    requires '>' !in rest
    ensures Outside("<" + rest, 0, 0) == ""
    ensures Outside(">" + rest, 0, 0) == ">" + Outside(rest, 0, 0)
  {
    var s, t := "<" + rest, ">" + rest;
    assert s[1..] == rest && t[1..] == rest;
    OutsideOfSuffix(s, rest, 0, 1);
    OutsideOfSuffix(t, rest, 0, 0);
    UnclosedIsEmpty(rest, 0, 1);
  }

  lemma {:induction false} UnclosedIsEmpty(s: string, i: nat, depth: nat)
    requires i <= |s| && depth > 0 && '>' !in s
    ensures Outside(s, i, depth) == ""
    decreases |s| - i
  {
    if i == |s| {
    } else {
      UnclosedIsEmpty(s, i + 1, if s[i] == '<' then depth + 1 else depth);
    }
  }
}
