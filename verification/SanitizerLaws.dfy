/**
 The laws of caption sanitizing: the escape is undone by the decoder, the output
 is inert, every pass that changes anything shrinks the text, the eight passes
 are enough for every input of at most 33 characters (and not for every input of
 34), and sanitizing twice is sanitizing once exactly when the loop converged.
 */
module SanitizerLaws {
  import opened Basics
  import opened Sanitizer
  import opened Text

  // ------------------------------------------------------------ escape and decode

  lemma DecodeEscapedChar(c: char, rest: string)
    ensures Decode(EscapeChar(c) + rest) == [c] + Decode(rest)
  {
    var s := EscapeChar(c) + rest;
    if c == '&' {
      DecodeKnown(s, 0, rest);
    } else if c == '<' {
      DecodeKnown(s, 1, rest);
    } else if c == '>' {
      DecodeKnown(s, 2, rest);
    } else if c == '\"' {
      DecodeKnown(s, 3, rest);
    } else if c == '\'' {
      DecodeApostrophe(rest);
    } else {
      assert s[1..] == rest;
    }
  }

  /** A `#` starts no name, so the table is passed over. */
  lemma {:induction false} HashIsNumeric(w: string, k: nat)
    requires w != "" && w[0] == '#' && k <= NAMED_COUNT
    ensures DecodeEntityFrom(w, k) == DecodeHash(w)
    decreases NAMED_COUNT - k
  {
    if k == NAMED_COUNT {
    } else {
      NamesAreApart(k, if k == 0 then 1 else 0);
      HashIsNumeric(w, k + 1);
    }
  }

  lemma DecodeApostrophe(rest: string)
    ensures Decode("&#x27;" + rest) == ['\''] + Decode(rest)
  {
    var s := "&#x27;" + rest;
    var after := s[1..];
    assert after[0] == '#' && after[1] == 'x' && after[2] == '2' && after[3] == '7' && after[4] == ';';
    HashIsNumeric(after, 0);
    ApostropheNumeral(after);
    assert s[6..] == rest;
  }

  lemma ApostropheNumeral(after: string)
    requires |after| >= 5 && after[2] == '2' && after[3] == '7' && after[4] == ';'
    ensures DecodeNumeric(after, 2, 16) == Some(Entity('\'', 6))
  {
    assert FindSemicolon(after, 4) == 4 && FindSemicolon(after, 3) == 4 && FindSemicolon(after, 2) == 4;
    assert NumeralValue(after, 2, 2, 16) == 0;
    assert NumeralValue(after, 2, 3, 16) == 2;
    assert NumeralValue(after, 2, 4, 16) == 0x27;
  }

  /** No name in the table begins another one, and none begins with `#`. */
  lemma NamesAreApart(i: nat, j: nat)
    requires i < NAMED_COUNT && j < NAMED_COUNT && i != j
    ensures NamedReference(i).0[0] != NamedReference(j).0[0] || NamedReference(i).0[1] != NamedReference(j).0[1]
    ensures NamedReference(i).0[0] != '#'
  {
  }

  lemma {:induction false} DecodeNameHit(after: string, k: nat, hit: nat)
    requires k <= hit < NAMED_COUNT && NamedReference(hit).0 <= after
    ensures DecodeEntityFrom(after, k) == Some(Entity(NamedReference(hit).1, |NamedReference(hit).0| + 1))
    decreases hit - k
  {
    if k == hit {
    } else {
      NamesAreApart(k, hit);
      DecodeNameHit(after, k + 1, hit);
    }
  }

  lemma DecodeKnown(s: string, k: nat, rest: string)
    requires k < NAMED_COUNT && s == "&" + NamedReference(k).0 + rest
    ensures Decode(s) == [NamedReference(k).1] + Decode(rest)
  {
    var name := NamedReference(k).0;
    assert s[1..] == name + rest;
    DecodeNameHit(s[1..], 0, k);
    assert s[|name| + 1..] == rest;
  }

  /** Decoding undoes escaping, for every text. */
  lemma {:induction false} DecodeUndoesEscape(s: string)
    ensures Decode(Escape(s)) == s
  {
    if s == "" {
    } else {
      DecodeEscapedChar(s[0], Escape(s[1..]));
      DecodeUndoesEscape(s[1..]);
    }
  }

  lemma EscapeIsInjective(s: string, t: string)
    requires Escape(s) == Escape(t)
    ensures s == t
  {
    DecodeUndoesEscape(s);
    DecodeUndoesEscape(t);
  }

  // ------------------------------------------------------------ stripping

  predicate Trimmed(s: string) {
    s == "" || (!IsWhitespace(s[0]) && !IsWhitespace(s[|s| - 1]))
  }

  /** The texts a strip leaves alone. */
  predicate Stable(s: string) {
    '<' !in s && Trimmed(s)
  }

  /** A trim keeps one contiguous piece, and the piece is trimmed. */
  lemma TrimFacts(s: string) returns (lo: nat, hi: nat)
    ensures lo <= hi <= |s| && Trim(s) == s[lo..hi]
    ensures Trimmed(Trim(s))
    ensures Trimmed(s) ==> Trim(s) == s
  {
    lo := TrimFrom(s, 0);
    hi := TrimTo(s, lo, |s|);
  }

  lemma {:induction false} OutsideFacts(s: string, i: nat, depth: nat)
    requires i <= |s|
    ensures '<' !in Outside(s, i, depth)
    ensures |Outside(s, i, depth)| <= |s| - i
    ensures depth > 0 && i < |s| ==> |Outside(s, i, depth)| < |s| - i
    ensures depth == 0 && '<' !in s[i..] ==> Outside(s, i, depth) == s[i..]
    ensures depth == 0 && '<' in s[i..] ==> |Outside(s, i, depth)| < |s| - i
    decreases |s| - i
  {
    if i == |s| {
    } else {
      assert s[i..] == [s[i]] + s[i + 1..];
      var inner := if s[i] == '<' then depth + 1 else if s[i] == '>' && depth > 0 then depth - 1 else depth;
      OutsideFacts(s, i + 1, inner);
    }
  }

  lemma StripFacts(s: string)
    ensures Stable(StripTags(s))
    ensures |StripTags(s)| <= |s|
    ensures StripTags(s) == s <==> Stable(s)
    ensures StripTags(s) != s ==> |StripTags(s)| < |s|
  {
    var o := Outside(s, 0, 0);
    OutsideFacts(s, 0, 0);
    assert s[0..] == s;
    var lo, hi := TrimFacts(o);
    if |StripTags(s)| == |s| {
      assert o[lo..hi] == o;
    }
  }

  // ------------------------------------------------------------ decoding shrinks

  /** A head step copies one character or replaces at least four by one. */
  lemma HeadFacts(s: string)
    requires s != ""
    ensures DecodeHead(s).1 == 1 ==> DecodeHead(s).0 == s[0]
    ensures DecodeHead(s).1 != 1 ==>
              s[0] == '&' && DecodeHead(s).1 >= 4
              && DecodeEntity(s[1..]) == Some(Entity(DecodeHead(s).0, DecodeHead(s).1))
    ensures DecodeHead(s).1 == 1 && s[0] == '&' ==> DecodeEntity(s[1..]).None?
    ensures s == [s[0]] + s[1..]
  {
  }

  /** Decoding either changes nothing or removes at least three characters. */
  lemma {:induction false} DecodeShrinks(s: string)
    ensures Decode(s) == s || |Decode(s)| + 3 <= |s|
    decreases |s|
  {
    if s == "" {
    } else {
      var c, used := DecodeHead(s).0, DecodeHead(s).1;
      HeadFacts(s);
      DecodeShrinks(s[used..]);
    }
  }

  /** A pass that changes the text makes it shorter. */
  lemma ChangingPassShrinks(s: string)
    ensures Pass(s) == s || |Pass(s)| < |s|
  {
    DecodeShrinks(s);
    StripFacts(Decode(s));
  }

  /** From the second pass on (the text is then a strip's output) by at least three characters. */
  lemma LaterPassShrinks(s: string)
    requires Stable(s)
    ensures Pass(s) == s || |Pass(s)| + 3 <= |s|
  {
    DecodeShrinks(s);
    StripFacts(s);
    StripFacts(Decode(s));
  }

  // ------------------------------------------------------------ what an entity is made of

  /** Characters that occur in no entity: the only ones a four-character entity can decode to, besides `<`. */
  predicate Inert(c: char) {
    c == '>' || (c as int) < 10
  }

  predicate Plain(s: string) {
    forall i :: 0 <= i < |s| ==> s[i] != '&' && !Inert(s[i])
  }

  /** An entity is recognised by its own characters alone, and they are plain. */
  lemma EntityIsLocal(w: string, u: string)
    requires DecodeEntity(w).Some?
    requires var k := DecodeEntity(w).value.consumed - 1;
             k <= |w| ==> k <= |u| && u[..k] == w[..k]
    ensures DecodeEntity(w).value.consumed - 1 <= |w|
    ensures Plain(w[..DecodeEntity(w).value.consumed - 1])
    ensures DecodeEntity(u) == DecodeEntity(w)
  {
    var k := DecodeEntity(w).value.consumed - 1;
    forall i | 0 <= i < k ensures w[i] == u[i] {
      assert w[..k][i] == u[..k][i];
    }
    FromIsLocal(w, u, 0, k);
  }

  lemma {:induction false} FromIsLocal(w: string, u: string, j: nat, k: nat)
    requires j <= NAMED_COUNT && DecodeEntityFrom(w, j).Some? && k == DecodeEntityFrom(w, j).value.consumed - 1
    requires k <= |w| && k <= |u| && forall i :: 0 <= i < k ==> w[i] == u[i]
    ensures DecodeEntityFrom(u, j) == DecodeEntityFrom(w, j)
    ensures Plain(w[..k])
    decreases NAMED_COUNT - j
  {
    if j == NAMED_COUNT {
      HashIsLocal(w, u, k);
    } else if NamedReference(j).0 <= w {
      NameIsPlain(j);
      assert w[..k] == NamedReference(j).0;
    } else {
      FromIsLocal(w, u, j + 1, k);
      if NamedReference(j).0 <= u {
        NameIsShorter(w, u, j, j + 1, k);
      }
    }
  }

  lemma NameIsPlain(j: nat)
    requires j < NAMED_COUNT
    ensures Plain(NamedReference(j).0)
  {
  }

  /** If `w` decodes by a later entry or numerically, its characters rule out entry `i`. */
  lemma {:induction false} NameIsShorter(w: string, u: string, i: nat, j: nat, k: nat)
    requires i < j <= NAMED_COUNT && DecodeEntityFrom(w, j).Some? && k == DecodeEntityFrom(w, j).value.consumed - 1
    requires k <= |w| && k <= |u| && forall m :: 0 <= m < k ==> w[m] == u[m]
    ensures !(NamedReference(i).0 <= u)
    decreases NAMED_COUNT - j
  {
    if j == NAMED_COUNT {
      NamesAreApart(i, if i == 0 then 1 else 0);
      assert w[0] == u[0];
    } else if NamedReference(j).0 <= w {
      NamesAreApart(i, j);
      assert w[0] == u[0] && w[1] == u[1];
    } else {
      NameIsShorter(w, u, i, j + 1, k);
    }
  }

  lemma HashIsLocal(w: string, u: string, k: nat)
    requires DecodeHash(w).Some? && k == DecodeHash(w).value.consumed - 1
    requires 3 <= k <= |w| && k <= |u| && forall i :: 0 <= i < k ==> w[i] == u[i]
    ensures w[0] == '#' && DecodeHash(u) == DecodeHash(w)
    ensures Plain(w[..k])
  {
    if w[1] == 'x' || w[1] == 'X' {
      NumericIsLocal(w, u, 2, 16);
      NumericIsPlain(w, 2, 16);
    } else {
      NumericIsLocal(w, u, 1, 10);
      NumericIsPlain(w, 1, 10);
    }
  }

  lemma NumericIsLocal(w: string, u: string, from: nat, radix: nat)
    requires from <= |w| && DecodeNumeric(w, from, radix).Some?
    requires FindSemicolon(w, from) < |u|
    requires forall i :: 0 <= i <= FindSemicolon(w, from) ==> w[i] == u[i]
    ensures DecodeNumeric(u, from, radix) == DecodeNumeric(w, from, radix)
  {
    var end := FindSemicolon(w, from);
    SemicolonIsLocal(w, u, from);
    NumeralIsLocal(w, u, from, end, radix);
  }

  lemma SemicolonIsLocal(w: string, u: string, from: nat)
    requires from <= |w| && FindSemicolon(w, from) < |w| && FindSemicolon(w, from) < |u|
    requires forall i :: 0 <= i <= FindSemicolon(w, from) ==> w[i] == u[i]
    ensures FindSemicolon(u, from) == FindSemicolon(w, from)
  {
    var end, there := FindSemicolon(w, from), FindSemicolon(u, from);
    assert u[end] == ';';
  }

  lemma NumericIsPlain(w: string, from: nat, radix: nat)
    requires from <= |w| && DecodeNumeric(w, from, radix).Some?
    ensures forall i :: from <= i <= FindSemicolon(w, from) ==> w[i] != '&' && !Inert(w[i])
  {
    var end := FindSemicolon(w, from);
    assert forall i :: from <= i < end ==> IsRadixDigit(w[i], radix);
  }

  lemma {:induction false} NumeralIsLocal(w: string, u: string, lo: nat, hi: nat, radix: nat)
    requires lo <= hi <= |w| && hi <= |u| && forall i :: lo <= i < hi ==> w[i] == u[i] && IsRadixDigit(w[i], radix)
    ensures NumeralValue(u, lo, hi, radix) == NumeralValue(w, lo, hi, radix)
    decreases hi
  {
    if lo == hi {
    } else {
      NumeralIsLocal(w, u, lo, hi - 1, radix);
    }
  }

  // ------------------------------------------------------------ inert decodings cannot cascade

  /** Every entity the decoder replaces in `s` yields an inert character. */
  predicate InertDecode(s: string)
    decreases |s|
  {
    s == "" || ((DecodeHead(s).1 != 1 ==> Inert(DecodeHead(s).0)) && InertDecode(s[DecodeHead(s).1..]))
  }

  lemma {:induction false} PlainPrefixIsCopied(u: string, k: nat)
    requires InertDecode(u) && k <= |Decode(u)| && Plain(Decode(u)[..k])
    ensures k <= |u| && u[..k] == Decode(u)[..k]
    decreases k
  {
    if k == 0 {
    } else {
      var c, used := DecodeHead(u).0, DecodeHead(u).1;
      HeadFacts(u);
      assert Decode(u)[..k][0] == c;
      assert used == 1;
      var rest := Decode(u[1..]);
      assert Decode(u)[..k] == [c] + rest[..k - 1];
      var cut := rest[..k - 1];
      forall i | 0 <= i < k - 1 ensures cut[i] != '&' && !Inert(cut[i]) {
        assert cut[i] == Decode(u)[..k][i + 1];
      }
      PlainPrefixIsCopied(u[1..], k - 1);
      assert u[..k] == [c] + u[1..][..k - 1];
    }
  }

  /** After an inert decoding no entity starts at the head. */
  lemma InertHeadStays(s: string)
    requires s != "" && InertDecode(s)
    ensures DecodeHead(Decode(s)) == (Decode(s)[0], 1)
  {
    var c, used := DecodeHead(s).0, DecodeHead(s).1;
    HeadFacts(s);
    var t, rest := Decode(s), Decode(s[used..]);
    assert t[0] == c && t[1..] == rest;
    HeadFacts(t);
    if c == '&' && DecodeEntity(rest).Some? {
      EntityIsNotCopied(s[1..]);
    }
  }

  lemma EntityIsNotCopied(u: string)
    requires InertDecode(u) && DecodeEntity(Decode(u)).Some?
    ensures DecodeEntity(u).Some?
  {
    var w := Decode(u);
    EntityIsLocal(w, w);
    PlainPrefixIsCopied(u, DecodeEntity(w).value.consumed - 1);
    EntityIsLocal(w, u);
  }

  /** When only inert characters were decoded, a second decoding finds nothing. */
  lemma {:induction false} InertDecodeStops(s: string)
    requires InertDecode(s)
    ensures Decode(Decode(s)) == Decode(s)
    decreases |s|
  {
    if s == "" {
    } else {
      InertHeadStays(s);
      var used := DecodeHead(s).1;
      InertDecodeStops(s[used..]);
      assert Decode(s)[1..] == Decode(s[used..]);
    }
  }

  lemma FixedTail(s: string)
    requires s != "" && Decode(s) == s
    ensures DecodeHead(s) == (s[0], 1) && Decode(s[1..]) == s[1..]
  {
    HeadFacts(s);
    DecodeShrinks(s[DecodeHead(s).1..]);
    assert Decode(s)[1..] == Decode(s[DecodeHead(s).1..]);
  }

  lemma {:induction false} FixedIsInert(s: string)
    requires Decode(s) == s
    ensures InertDecode(s)
    decreases |s|
  {
    if s == "" {
    } else {
      FixedTail(s);
      FixedIsInert(s[1..]);
    }
  }

  lemma PrefixHasNoEntity(s: string, n: nat)
    requires n <= |s| && DecodeEntity(s).None?
    ensures DecodeEntity(s[..n]).None?
  {
    var p := s[..n];
    if DecodeEntity(p).Some? {
      var k := DecodeEntity(p).value.consumed - 1;
      assert s[..k] == p[..k];
      EntityIsLocal(p, s);
    }
  }

  lemma PlainHead(p: string)
    requires p != "" && (p[0] == '&' ==> DecodeEntity(p[1..]).None?)
    ensures DecodeHead(p) == (p[0], 1)
  {
  }

  lemma FixedHeadInit(s: string, p: string)
    requires |s| >= 2 && DecodeHead(s) == (s[0], 1) && p == s[..|s| - 1]
    ensures DecodeHead(p) == (s[0], 1)
  {
    HeadFacts(s);
    assert p[1..] == s[1..][..|s| - 2];
    if s[0] == '&' {
      PrefixHasNoEntity(s[1..], |s| - 2);
    }
    PlainHead(p);
  }

  /** Cutting the last character off a text without entities creates none. */
  lemma {:induction false} FixedInit(s: string)
    requires s != "" && Decode(s) == s
    ensures Decode(s[..|s| - 1]) == s[..|s| - 1]
    decreases |s|
  {
    if |s| < 2 {
    } else {
      var p := s[..|s| - 1];
      FixedTail(s);
      FixedHeadInit(s, p);
      FixedInit(s[1..]);
      assert p[1..] == s[1..][..|s[1..]| - 1];
    }
  }

  lemma {:induction false} FourIsInert(after: string, k: nat)
    requires k <= NAMED_COUNT && DecodeEntityFrom(after, k).Some? && DecodeEntityFrom(after, k).value.consumed == 4
    ensures var c := DecodeEntityFrom(after, k).value.decoded; c == '<' || Inert(c)
    decreases NAMED_COUNT - k
  {
    if k == NAMED_COUNT {
      assert FindSemicolon(after, 1) == 2;
      assert NumeralValue(after, 1, 1, 10) == 0;
    } else if !(NamedReference(k).0 <= after) {
      FourIsInert(after, k + 1);
    }
  }

  /** Decoding away exactly three characters without producing `<` decodes one inert character. */
  lemma {:induction false} ThreeIsInert(s: string)
    requires |Decode(s)| + 3 == |s| && '<' !in Decode(s)
    ensures InertDecode(s)
    decreases |s|
  {
    var c, used := DecodeHead(s).0, DecodeHead(s).1;
    HeadFacts(s);
    var rest := s[used..];
    assert Decode(s) == [c] + Decode(rest);
    DecodeShrinks(rest);
    if used == 1 {
      ThreeIsInert(rest);
    } else {
      assert Decode(s)[0] == c;
      FourIsInert(s[1..], 0);
      FixedIsInert(rest);
    }
  }

  // ------------------------------------------------------------ how fast the loop shrinks

  predicate Quiet(s: string) {
    Pass(s) == s
  }

  /** A pass after the first one that is followed by another change removes at least four characters. */
  lemma FollowedPassShrinksByFour(s: string)
    requires Stable(s) && !Quiet(s) && !Quiet(Pass(s))
    ensures |Pass(s)| + 4 <= |s|
  {
    var t := Decode(s);
    LaterPassShrinks(s);
    DecodeShrinks(s);
    StripFacts(s);
    StripFacts(t);
    if |Pass(s)| + 3 == |s| {
      ThreeIsInert(s);
      InertDecodeStops(s);
    }
  }

  lemma {:induction false} OutsideDropsOne(s: string, i: nat)
    requires i <= |s| && '<' in s[i..] && |Outside(s, i, 0)| + 1 == |s| - i
    ensures Outside(s, i, 0) == s[i..|s| - 1]
    decreases |s| - i
  {
    assert s[i..] == [s[i]] + s[i + 1..];
    if s[i] == '<' {
      OutsideFacts(s, i + 1, 1);
    } else {
      OutsideDropsOne(s, i + 1);
      assert s[i..|s| - 1] == [s[i]] + s[i + 1..|s| - 1];
    }
  }

  /** A strip that removes a single character removes it at an end. */
  lemma StripDropsOneAtAnEnd(s: string)
    requires |StripTags(s)| + 1 == |s|
    ensures StripTags(s) == s[1..] || StripTags(s) == s[..|s| - 1]
  {
    var o := Outside(s, 0, 0);
    OutsideFacts(s, 0, 0);
    assert s[0..] == s;
    var lo, hi := TrimFacts(o);
    if '<' in s {
      OutsideDropsOne(s, 0);
      assert s[0..|s| - 1] == s[..|s| - 1];
      assert o[lo..hi] == o;
    }
  }

  /** The first pass, when another change follows it, removes at least two characters. */
  lemma FollowedFirstPassShrinksByTwo(s: string)
    requires !Quiet(s) && !Quiet(Pass(s))
    ensures |Pass(s)| + 2 <= |s|
  {
    ChangingPassShrinks(s);
    if |Pass(s)| + 1 == |s| {
      DecodeShrinks(s);
      StripFacts(Decode(s));
      StripDropsOneAtAnEnd(s);
      FixedTail(s);
      FixedInit(s);
      StripFacts(Pass(s));
    }
  }

  // ------------------------------------------------------------ convergence

  predicate Converged(s: string, n: nat) {
    Quiet(Passes(s, n))
  }

  lemma UnquietIsNotShort(s: string)
    requires Stable(s) && !Quiet(s)
    ensures |s| >= 4
  {
    StripFacts(s);
    DecodeShrinks(s);
    assert s != "" ==> |Decode(s)| >= 1;
  }

  /** While unconverged, one pass leaves a shorter, stable, still unconverged text. */
  lemma DescentStep(s: string, n: nat)
    requires n > 0 && !Converged(s, n)
    ensures Stable(Pass(s)) && !Quiet(s) && !Quiet(Pass(s)) && !Converged(Pass(s), n - 1)
  {
    StripFacts(Decode(s));
    UnfoldPasses(s, n);
  }

  lemma {:induction false} StableDescent(s: string, n: nat)
    requires Stable(s) && !Converged(s, n)
    ensures |s| >= 4 * n + 4
    decreases n
  {
    if n == 0 {
      UnquietIsNotShort(s);
    } else {
      DescentStep(s, n);
      FollowedPassShrinksByFour(s);
      StableDescent(Pass(s), n - 1);
    }
  }

  /** A text that `n` passes leave unfinished has at least `4 n + 2` characters. */
  lemma UnconvergedIsLong(s: string, n: nat)
    requires n >= 1 && !Converged(s, n)
    ensures |s| >= 4 * n + 2
  {
    DescentStep(s, n);
    StableDescent(Pass(s), n - 1);
    FollowedFirstPassShrinksByTwo(s);
  }

  /** The eight passes reach a fixpoint on every input of at most 33 characters. */
  lemma ShortInputsConverge(s: string)
    requires |s| <= 33
    ensures Converged(s, MAX_PASSES)
  {
    if !Converged(s, MAX_PASSES) {
      UnconvergedIsLong(s, MAX_PASSES);
    }
  }

  /** `&amp;amp;...lt;` with `n` layers of encoding. */
  function Tail(n: nat): (r: string) {
    if n == 0 then "lt;" else "amp;" + Tail(n - 1)
  }

  lemma {:induction false} TailFacts(n: nat)
    ensures '&' !in Tail(n) && '<' !in Tail(n) && |Tail(n)| == 4 * n + 3 && Tail(n)[|Tail(n)| - 1] == ';'
  {
    if n == 0 {
    } else {
      TailFacts(n - 1);
    }
  }

  predicate IsTower(s: string, n: nat) {
    s != "" && s[0] == '&' && s[1..] == Tail(n)
  }

  lemma TowerIsStable(s: string, n: nat)
    requires IsTower(s, n)
    ensures Stable(s) && |s| == 4 * n + 4
  {
    TailFacts(n);
    assert s[|s| - 1] == s[1..][|s| - 2] == ';';
    GraphicIsNotSpace('&', 0);
    GraphicIsNotSpace(';', 0);
    assert forall i :: 1 <= i < |s| ==> s[i] == s[1..][i - 1];
  }

  lemma TowerDecode(s: string, n: nat)
    requires IsTower(s, n + 1)
    ensures IsTower(Decode(s), n)
  {
    assert s == "&" + s[1..] == "&" + "amp;" + Tail(n);
    DecodeKnown(s, 0, Tail(n));
    TailFacts(n);
    DecodePlain(Tail(n));
    assert Decode(s)[1..] == Tail(n);
  }

  lemma TowerPass(s: string, n: nat)
    requires IsTower(s, n + 1)
    ensures IsTower(Pass(s), n) && Pass(s) != s
  {
    TowerDecode(s, n);
    TowerIsStable(Decode(s), n);
    StripFacts(Decode(s));
    TowerIsStable(s, n + 1);
  }

  lemma {:induction false} TowerPasses(s: string, n: nat)
    requires IsTower(s, n)
    ensures IsTower(Passes(s, n), 0)
    decreases n
  {
    if n == 0 {
    } else {
      TowerPass(s, n - 1);
      UnfoldPasses(s, n);
      TowerPasses(Pass(s), n - 1);
    }
  }

  lemma {:induction false} SplitNameMisses(after: string, k: nat)
    requires |after| > 2 && after[0] == 'a' && after[1] == 'm' && after[2] == '<' && k <= NAMED_COUNT
    ensures DecodeEntityFrom(after, k).None?
    decreases NAMED_COUNT - k
  {
    if k == NAMED_COUNT {
    } else {
      var name := NamedReference(k).0;
      assert name[0] != 'a' || name[1] != 'm' || name[2] != '<';
      SplitNameMisses(after, k + 1);
    }
  }

  lemma SplitTagDecode(rest: string)
    requires '&' !in rest
    ensures Decode("&am<>" + rest) == "&am<>" + rest
  {
    var s, inner := "&am<>" + rest, "am<>" + rest;
    assert s[1..] == inner;
    assert inner[0] == 'a' && inner[1] == 'm' && inner[2] == '<';
    SplitNameMisses(inner, 0);
    assert DecodeHead(s) == ('&', 1);
    DecodePlain(inner);
  }

  lemma TailExtends(rest: string, n: nat)
    requires rest == "p;" + Tail(n)
    ensures IsTower("&am" + rest, n + 1)
  {
    assert ("&am" + rest)[1..] == "amp;" + Tail(n);
  }

  lemma SplitTagOutside(s: string, rest: string, n: nat)
    requires rest == "p;" + Tail(n) && s == "&am<>" + rest
    ensures IsTower(Outside(s, 0, 0), n + 1)
  {
    TailFacts(n);
    assert s[..3] == "&am" && s[5..] == rest && s[0..3] == "&am";
    SplitOutside(s, 0, 3);
    TailExtends(rest, n);
  }

  /** A tag inside an entity: the first pass closes the gap. */
  lemma SplitTagPass(rest: string, n: nat)
    requires rest == "p;" + Tail(n)
    ensures IsTower(Pass("&am<>" + rest), n + 1)
  {
    var s := "&am<>" + rest;
    TailFacts(n);
    SplitTagDecode(rest);
    SplitTagOutside(s, rest, n);
    var o := Outside(s, 0, 0);
    TowerIsStable(o, n + 1);
    var lo, hi := TrimFacts(o);
  }

  lemma LastTowerStillChanges(s: string)
    requires IsTower(s, 0)
    ensures !Quiet(s)
  {
    assert s == "&" + s[1..] == "&" + "lt;" + "";
    DecodeKnown(s, 1, "");
    StripFacts(Decode(s));
  }

  /** The bound is exact: these 34 characters are still changing after eight passes. */
  lemma ThirtyFourCharactersNeedNotConverge() returns (s: string)
    ensures |s| == 34 && !Converged(s, MAX_PASSES)
    ensures Sanitize(Sanitize(s)) != Sanitize(s)
  {
    var rest := "p;" + Tail(6);
    s := "&am<>" + rest;
    TailFacts(6);
    SplitTagPass(rest, 6);
    TowerIsStable(Pass(s), 7);
    UnfoldPasses(s, MAX_PASSES);
    TowerPasses(Pass(s), 7);
    LastTowerStillChanges(Passes(Pass(s), 7));
    IdempotentExactlyWhenConverged(s);
  }

  lemma UnfoldPasses(s: string, n: nat)
    requires n > 0 && !Quiet(s)
    ensures Passes(s, n) == Passes(Pass(s), n - 1)
  {
  }

  lemma {:induction false} SplitOutside(s: string, i: nat, m: nat)
    requires i <= m && m + 1 < |s| && s[m] == '<' && s[m + 1] == '>'
    requires '<' !in s[..m] && '<' !in s[m + 2..]
    ensures Outside(s, i, 0) == s[i..m] + s[m + 2..]
    decreases m - i
  {
    if i == m {
      OutsideFacts(s, m + 2, 0);
      assert Outside(s, m + 1, 1) == Outside(s, m + 2, 0);
    } else {
      assert s[i] == s[..m][i];
      SplitOutside(s, i + 1, m);
      assert s[i..m] == [s[i]] + s[i + 1..m];
    }
  }

  // ------------------------------------------------------------ what sanitizing promises

  lemma {:induction false} PassesFacts(s: string, n: nat)
    requires n >= 1 || Stable(s)
    ensures Stable(Passes(s, n))
    ensures |Passes(s, n)| <= |s|
    decreases n
  {
    ChangingPassShrinks(s);
    StripFacts(Decode(s));
    if n > 0 && Pass(s) != s {
      PassesFacts(Pass(s), n - 1);
    }
  }

  lemma {:induction false} EscapeIsClean(s: string)
    ensures forall c :: c in Escape(s) ==> c !in ['<', '>', '\"', '\'']
  {
    if s == "" {
    } else {
      EscapeIsClean(s[1..]);
      assert forall c :: c in EscapeChar(s[0]) ==> c !in ['<', '>', '\"', '\''];
    }
  }

  /** Converged or not: no markup character is stored, and decoding the output once yields no `<`. */
  lemma OutputIsInert(s: string)
    ensures forall c :: c in Sanitize(s) ==> c !in ['<', '>', '\"', '\'']
    ensures Decode(Sanitize(s)) == Passes(s, MAX_PASSES)
    ensures '<' !in Decode(Sanitize(s))
  {
    var current := Passes(s, MAX_PASSES);
    EscapeIsClean(current);
    DecodeUndoesEscape(current);
    PassesFacts(s, MAX_PASSES);
  }

  /** Sanitizing a sanitized caption changes it exactly when the eight passes had not converged. */
  lemma IdempotentExactlyWhenConverged(s: string)
    ensures Sanitize(Sanitize(s)) == Sanitize(s) <==> Converged(s, MAX_PASSES)
  {
    var c := Passes(s, MAX_PASSES);
    PassesFacts(s, MAX_PASSES);
    DecodeUndoesEscape(c);
    StripFacts(c);
    assert Pass(Escape(c)) == c;
    if Quiet(c) {
      assert Passes(Escape(c), MAX_PASSES) == c;
    } else {
      ChangingPassShrinks(c);
      StripFacts(Decode(c));
      PassesFacts(Pass(c), MAX_PASSES - 2);
      assert Passes(Escape(c), MAX_PASSES) == Passes(Pass(c), MAX_PASSES - 2);
      if Escape(Passes(Pass(c), MAX_PASSES - 2)) == Escape(c) {
        EscapeIsInjective(Passes(Pass(c), MAX_PASSES - 2), c);
      }
    }
  }

  lemma ShortCaptionsAreIdempotent(s: string)
    requires |s| <= 33
    ensures Sanitize(Sanitize(s)) == Sanitize(s)
  {
    ShortInputsConverge(s);
    IdempotentExactlyWhenConverged(s);
  }
}
