/**
 Caption sanitizing (crates/federation/src/note.rs): entity decoding, tag
 stripping, the bounded convergence loop and the final HTML escape.  Every loop
 of the source is a method proved against a function on character sequences;
 the laws are proved about those functions.
 */
module Sanitizer {
  import opened Basics
  import opened Text

  // ------------------------------------------------------------ characters

  predicate IsHexDigit(c: char) {
    IsDigit(c) || 'a' <= c <= 'f' || 'A' <= c <= 'F'
  }

  function HexValue(c: char): (v: nat)
    requires IsHexDigit(c)
    ensures v < 16
  {
    if IsDigit(c) then c as int - '0' as int
    else if 'a' <= c <= 'f' then c as int - 'a' as int + 10
    else c as int - 'A' as int + 10
  }

  predicate IsRadixDigit(c: char, radix: nat) {
    if radix == 16 then IsHexDigit(c) else IsDigit(c)
  }

  /** The value of the numeral `s[lo..hi]` in radix 10 or 16. */
  function NumeralValue(s: string, lo: nat, hi: nat, radix: nat): (v: nat)
    requires lo <= hi <= |s|
    requires forall i :: lo <= i < hi ==> IsRadixDigit(s[i], radix)
    decreases hi
  {
    if lo == hi then 0
    else
      assert IsRadixDigit(s[hi - 1], radix);
      var high := NumeralValue(s, lo, hi - 1, radix);
      (if radix == 16 then 16 * high else 10 * high) + HexValue(s[hi - 1])
  }

  /** `char::from_u32`: every scalar value, no surrogates. */
  predicate IsScalar(n: nat) {
    n < 0xD800 || 0xE000 <= n < 0x11_0000
  }

  // ------------------------------------------------------------ tag stripping

  /** The characters of `s` from `i` on outside every `<...>`, entered at nesting `depth`. */
  function Outside(s: string, i: nat, depth: nat): (r: string)
    requires i <= |s|
    decreases |s| - i
  {
    if i == |s| then ""
    else if s[i] == '<' then Outside(s, i + 1, depth + 1)
    else if s[i] == '>' && depth > 0 then Outside(s, i + 1, depth - 1)
    else if depth == 0 then [s[i]] + Outside(s, i + 1, depth)
    else Outside(s, i + 1, depth)
  }

  function StripTags(s: string): (r: string) {
    Trim(Outside(s, 0, 0))
  }

  // ------------------------------------------------------------ entity decoding

  datatype Entity = Entity(decoded: char, consumed: nat)

  /** The table of named references. */
  function NamedReference(k: nat): (r: (string, char))
    requires k < NAMED_COUNT
    ensures 3 <= |r.0| <= 7
  {
    match k
    case 0 => ("amp;", '&')
    case 1 => ("lt;", '<')
    case 2 => ("gt;", '>')
    case 3 => ("quot;", '\"')
    case 4 => ("apos;", '\'')
    case 5 => ("nbsp;", '\U{00A0}')
    case _ => ("hellip;", '\U{2026}')
  }

  const NAMED_COUNT: nat := 7

  /** Index of the first `;` from `i` on, or `|s|` when there is none. */
  function FindSemicolon(s: string, i: nat): (end: nat)
    requires i <= |s|
    ensures i <= end <= |s|
    ensures end < |s| ==> s[end] == ';'
    ensures forall k :: i <= k < end ==> s[k] != ';'
    decreases |s| - i
  {
    if i == |s| || s[i] == ';' then i else FindSemicolon(s, i + 1)
  }

  /** A numeric reference whose digits start at index `from` of the text behind the `&`. */
  function DecodeNumeric(after: string, from: nat, radix: nat): (r: Option<Entity>)
    requires from <= |after|
  {
    var end := FindSemicolon(after, from);
    if end == |after| || end == from then None
    else if !(forall i :: from <= i < end ==> IsRadixDigit(after[i], radix)) then None
    else
      var n := NumeralValue(after, from, end, radix);
      if IsScalar(n) then Some(Entity(n as char, end + 2)) else None
  }

  /** The numeric references, `&#x1A;` and `&#26;`. */
  function DecodeHash(after: string): (r: Option<Entity>) {
    if |after| < 2 || after[0] != '#' then None
    else if after[1] == 'x' || after[1] == 'X' then DecodeNumeric(after, 2, 16)
    else DecodeNumeric(after, 1, 10)
  }

  /**
   `decode_one_entity`: `after` is the text behind an `&`.  The named references are
   tried in table order from entry `k` on, then the numeric ones.
   */
  function DecodeEntityFrom(after: string, k: nat): (r: Option<Entity>)
    requires k <= NAMED_COUNT
    ensures r.Some? ==> 4 <= r.value.consumed <= |after| + 1
    decreases |after| + NAMED_COUNT - k
  {
    if k == NAMED_COUNT then DecodeHash(after)
    else if NamedReference(k).0 <= after then Some(Entity(NamedReference(k).1, |NamedReference(k).0| + 1))
    else DecodeEntityFrom(after, k + 1)
  }

  function DecodeEntity(after: string): (r: Option<Entity>)
    ensures r.Some? ==> 4 <= r.value.consumed <= |after| + 1
  {
    DecodeEntityFrom(after, 0)
  }

  /** One turn of the decoder at the head of `s`: the character emitted and how many are consumed. */
  function DecodeHead(s: string): (r: (char, nat))
    requires s != ""
    ensures 1 <= r.1 <= |s|
  {
    if s[0] != '&' then (s[0], 1)
    else
      match DecodeEntity(s[1..])
      case None => ('&', 1)
      case Some(e) => (e.decoded, e.consumed)
  }

  function Decode(s: string): (r: string)
    decreases |s|
  {
    if s == "" then "" else [DecodeHead(s).0] + Decode(s[DecodeHead(s).1..])
  }

  // ------------------------------------------------------------ escaping

  function EscapeChar(c: char): (r: string) {
    match c
    case '&' => "&amp;"
    case '<' => "&lt;"
    case '>' => "&gt;"
    case '\"' => "&quot;"
    case '\'' => "&#x27;"
    case _ => [c]
  }

  function Escape(s: string): (r: string) {
    if s == "" then "" else EscapeChar(s[0]) + Escape(s[1..])
  }

  // ------------------------------------------------------------ the sanitizer

  function Pass(s: string): (r: string) {
    StripTags(Decode(s))
  }

  /** `n` passes, stopping early at a fixpoint, as the bounded loop does. */
  function Passes(s: string, n: nat): (r: string)
    decreases n, s
  {
    if n == 0 || Pass(s) == s then s else Passes(Pass(s), n - 1)
  }

  const MAX_PASSES: nat := 8

  function Sanitize(s: string): (r: string) {
    Escape(Passes(s, MAX_PASSES))
  }

  // ------------------------------------------------------------ the source's loops

  /** `strip_tags`: one scan with a nesting counter, then a trim. */
  method StripTagsScan(input: string) returns (out: string)
    ensures out == StripTags(input)
  {
    out := "";
    var depth: nat := 0;
    var i := 0;
    while i < |input|
      invariant 0 <= i <= |input|
      invariant out + Outside(input, i, depth) == Outside(input, 0, 0)
    {
      var ch := input[i];
      if ch == '<' {
        depth := depth + 1;
      } else if ch == '>' && depth > 0 {
        depth := depth - 1;
      } else if depth == 0 {
        ConcatAssociative(out, [ch], Outside(input, i + 1, 0));
        out := out + [ch];
      }
      i := i + 1;
    }
    assert out + "" == out;
    out := Trim(out);
  }

  lemma {:induction false} DecodePlain(s: string)
    requires '&' !in s
    ensures Decode(s) == s
  {
    if s == "" {
    } else {
      DecodePlain(s[1..]);
    }
  }

  lemma DecodeStep(s: string, i: nat, out: string, whole: string, head: (char, nat))
    requires i < |s| && out + Decode(s[i..]) == whole && head == DecodeHead(s[i..])
    ensures 1 <= head.1 <= |s| - i && out + [head.0] + Decode(s[i + head.1..]) == whole
  {
    assert s[i..][head.1..] == s[i + head.1..];
    ConcatAssociative(out, [head.0], Decode(s[i + head.1..]));
  }

  /** `decode_html_entities`: a cursor over the input, one entity or one character at a time. */
  method DecodeScan(input: string) returns (out: string)
    ensures out == Decode(input)
  {
    if '&' !in input {
      DecodePlain(input);
      return input;
    }
    out := "";
    var i := 0;
    ghost var whole := Decode(input);
    assert input[0..] == input;
    while i < |input|
      invariant 0 <= i <= |input|
      invariant out + Decode(input[i..]) == whole
    {
      var head := DecodeHead(input[i..]);
      DecodeStep(input, i, out, whole, head);
      out := out + [head.0];
      i := i + head.1;
    }
    assert input[i..] == "" && out + "" == out;
  }

  /** `escape_html`. */
  method EscapeScan(input: string) returns (out: string)
    ensures out == Escape(input)
  {
    out := "";
    var i := 0;
    while i < |input|
      invariant 0 <= i <= |input|
      invariant out + Escape(input[i..]) == Escape(input)
    {
      assert input[i..][1..] == input[i + 1..];
      ConcatAssociative(out, EscapeChar(input[i]), Escape(input[i + 1..]));
      out := out + EscapeChar(input[i]);
      i := i + 1;
    }
  }

  /** `strip_html_tags`: decode and strip until stable, at most eight times, then escape. */
  method StripHtmlTags(input: string) returns (out: string)
    ensures out == Sanitize(input)
  {
    var current := input;
    var pass := 0;
    while pass < MAX_PASSES
      invariant 0 <= pass <= MAX_PASSES
      invariant Passes(current, MAX_PASSES - pass) == Passes(input, MAX_PASSES)
    {
      var decoded := DecodeScan(current);
      var stripped := StripTagsScan(decoded);
      if stripped == current {
        break;
      }
      current := stripped;
      pass := pass + 1;
    }
    out := EscapeScan(current);
  }
}
