/**
 Durations on incoming notes (crates/federation/src/note.rs): plain seconds or an ISO-8601
 duration.  Floating-point numbers are modelled as exact reals.  The source slices strings by
 bytes; a slice that starts inside a character panics, and that outcome is part of the model.
 */
module Durations {
  import opened Basics
  import opened Numerals
  import opened Text

  function Pow10(n: nat): (r: real)
    ensures r > 0.0
  {
    if n == 0 then 1.0 else 10.0 * Pow10(n - 1)
  }

  /** An unsigned decimal: digits with at most one point, and at least one digit. */
  function ParseDecimal(s: string): (r: Option<real>) {
    var i := IndexOf(s, '.');
    if i == |s| then
      if s != [] && AllDigits(s) then Some(NatValue(s) as real) else None
    else
      var digits := s[..i] + s[i + 1..];
      if digits != [] && AllDigits(digits) then Some(NatValue(digits) as real / Pow10(|s| - i - 1)) else None
  }

  function ParseSignedDecimal(s: string): (r: Option<real>) {
    if s != [] && s[0] == '-' then
      var d := ParseDecimal(s[1..]);
      if d.Some? then Some(-d.value) else None
    else ParseDecimal(if s != [] && s[0] == '+' then s[1..] else s)
  }

  predicate IsNumberChar(c: char) {
    IsDigit(c) || c == '.' || c == ','
  }

  /** What a component comes to: a sum, nothing found or malformed, or a panic. */
  datatype Scanned = Sum(seconds: Option<real>) | Panic

  predicate IsAscii(c: char) {
    c as int < 128
  }

  /**
   The number is taken to start one byte after the character before it, which is inside that
   character when it is longer than a byte.
   */
  predicate IsTorn(s: string, start: nat)
    requires start <= |s|
  {
    start > 0 && !IsAscii(s[start - 1])
  }

  /** The scan of `parse_component` from index `i` on, the current number starting at `start`. */
  function Scan(parse: string -> Option<real>, s: string, unit: char, i: nat, start: nat, total: real, found: bool)
    : (r: Scanned)
    requires start <= i <= |s|
    decreases |s| - i
  {
    if i == |s| then Sum(if found then Some(total) else None)
    else if s[i] == unit then
      if IsTorn(s, start) then Panic
      else
        var n := parse(s[start..i]);
        if n.None? then Sum(None) else Scan(parse, s, unit, i + 1, i + 1, total + n.value, true)
    else Scan(parse, s, unit, i + 1, if IsNumberChar(s[i]) then start else i + 1, total, found)
  }

  function Component(chunk: string, unit: char): (r: Scanned) {
    Scan(ParseDecimal, Lower(chunk), LowerChar(unit), 0, 0, 0.0, false)
  }

  method ParseComponent(chunk: string, unit: char) returns (r: Scanned)
    ensures r == Component(chunk, unit)
  {
    var lower := Lower(chunk);
    var unitLower := LowerChar(unit);
    var total, found, numStart := 0.0, false, 0;
    var idx := 0;
    while idx < |lower|
      invariant numStart <= idx <= |lower|
      invariant Scan(ParseDecimal, lower, unitLower, idx, numStart, total, found) == Component(chunk, unit)
    {
      var ch := lower[idx];
      if ch == unitLower {
        if IsTorn(lower, numStart) {
          return Panic;
        }
        var parsed := ParseDecimal(lower[numStart..idx]);
        if parsed.None? {
          return Sum(None);
        }
        total := total + parsed.value;
        found := true;
        numStart := idx + 1;
      } else if !(IsDigit(ch) || ch == '.' || ch == ',') {
        numStart := idx + 1;
      }
      idx := idx + 1;
    }
    return Sum(if found then Some(total) else None);
  }

  /** `unwrap_or(0.0)`; `None` after a panic. */
  function Part(c: Scanned): (v: Option<real>) {
    if c.Panic? then None else if c.seconds.Some? then c.seconds else Some(0.0)
  }

  function NonNegative(total: real): (r: Scanned) {
    Sum(if total >= 0.0 then Some(total) else None)
  }

  /** The ISO-8601 branch, after the leading `P`. */
  function ParseIso(rest: string): (r: Scanned)
    ensures r.Sum? && r.seconds.Some? ==> r.seconds.value >= 0.0
  {
    var t := IndexOf(rest, 'T');
    var d := Part(Component(rest[..t], 'D'));
    if d.None? then Panic
    else if t == |rest| then NonNegative(d.value * 86400.0)
    else
      var time := rest[t + 1..];
      var h, m, s := Part(Component(time, 'H')), Part(Component(time, 'M')), Part(Component(time, 'S'));
      if h.None? || m.None? || s.None? then Panic
      else NonNegative(d.value * 86400.0 + h.value * 3600.0 + m.value * 60.0 + s.value)
  }

  /** `parse_duration_str` */
  function ParseDuration(s: string): (r: Scanned)
    ensures r.Sum? && r.seconds.Some? ==> r.seconds.value >= 0.0
  {
    var trimmed := Trim(s);
    var plain := ParseSignedDecimal(trimmed);
    if plain.Some? then NonNegative(plain.value)
    else if trimmed == [] || trimmed[0] != 'P' then Sum(None)
    else ParseIso(trimmed[1..])
  }

  // ------------------------------------------------------------ numbers with units

  /** A number and the letter that follows it. */
  datatype Token = Token(n: nat, letter: char)

  function PrintTokens(tokens: seq<Token>): (s: string) {
    if tokens == [] then [] else PrintNat(tokens[0].n) + [tokens[0].letter] + PrintTokens(tokens[1..])
  }

  predicate IsLetter(c: char) {
    'A' <= c <= 'Z' || 'a' <= c <= 'z'
  }

  function TokenSum(tokens: seq<Token>, unit: char): (n: nat) {
    if tokens == [] then 0
      else (if LowerChar(tokens[0].letter) == unit then tokens[0].n else 0) + TokenSum(tokens[1..], unit)
  }

  predicate Mentions(tokens: seq<Token>, unit: char) {
    exists i :: 0 <= i < |tokens| && LowerChar(tokens[i].letter) == unit
  }

  /** Digits are passed over without effect. */
  lemma {:induction false} ScanDigits(parse: string -> Option<real>, s: string, unit: char, i: nat, j: nat, start: nat,
                                      total: real, found: bool)
    requires start <= i <= j <= |s| && IsLetter(unit)
    requires forall k :: i <= k < j ==> IsDigit(s[k])
    ensures Scan(parse, s, unit, i, start, total, found) == Scan(parse, s, unit, j, start, total, found)
    decreases j - i
  {
    if i == j {
    } else {
      ScanDigits(parse, s, unit, i + 1, j, start, total, found);
    }
  }

  lemma DigitsParse(n: nat)
    ensures ParseDecimal(PrintNat(n)) == Some(n as real)
  {
    PrintedNatReadsBack(n);
    var s := PrintNat(n);
    var i := IndexOf(s, '.');
    assert i < |s| ==> IsDigit(s[i]);
  }

  function Lowered(tokens: seq<Token>): (r: seq<Token>) {
    if tokens == [] then [] else [Token(tokens[0].n, LowerChar(tokens[0].letter))] + Lowered(tokens[1..])
  }

  lemma {:induction false} LoweredTokens(tokens: seq<Token>, unit: char)
    requires forall i :: 0 <= i < |tokens| ==> IsLetter(tokens[i].letter)
    ensures |Lowered(tokens)| == |tokens|
    ensures forall i :: 0 <= i < |tokens| ==> 'a' <= Lowered(tokens)[i].letter <= 'z'
    ensures TokenSum(Lowered(tokens), unit) == TokenSum(tokens, unit)
    ensures Mentions(Lowered(tokens), unit) <==> Mentions(tokens, unit)
    decreases |tokens|
  {
    if tokens == [] {
    } else {
      LoweredTokens(tokens[1..], unit);
      assert Lowered(tokens)[1..] == Lowered(tokens[1..]);
      MentionsFirstOrRest(tokens, unit);
      MentionsFirstOrRest(Lowered(tokens), unit);
    }
  }

  lemma {:induction false} LowerOfPrinted(tokens: seq<Token>)
    ensures Lower(PrintTokens(tokens)) == PrintTokens(Lowered(tokens))
    decreases |tokens|
  {
    if tokens == [] {
    } else {
      var t, rest := tokens[0], tokens[1..];
      LowerOfPrinted(rest);
      assert Lowered(tokens)[1..] == Lowered(rest);
      PrintedNatReadsBack(t.n);
      LowerOfNumber(PrintNat(t.n), t.letter, PrintTokens(rest));
    }
  }

  lemma LowerOfNumber(digits: string, letter: char, tail: string)
    requires AllDigits(digits)
    ensures Lower(digits + [letter] + tail) == digits + [LowerChar(letter)] + Lower(tail)
  {
  }

  lemma MentionsFirstOrRest(tokens: seq<Token>, unit: char)
    requires tokens != []
    ensures Mentions(tokens, unit) <==> LowerChar(tokens[0].letter) == unit || Mentions(tokens[1..], unit)
  {
    var rest := tokens[1..];
    assert forall i :: 0 <= i < |rest| ==> rest[i] == tokens[i + 1];
    if Mentions(tokens, unit) && LowerChar(tokens[0].letter) != unit {
      var i :| 0 <= i < |tokens| && LowerChar(tokens[i].letter) == unit;
      assert rest[i - 1] == tokens[i];
    }
  }

  /** The scan passes a number and the letter after it, counting the number if the letter is the unit. */
  lemma ScanNumber(parse: string -> Option<real>, s: string, i: nat, digits: string, c: char,
                   tail: string, unit: char, n: real, total: real, found: bool)
    requires i <= |s| && s[i..] == digits + [c] + tail
    requires AllDigits(digits) && parse(digits) == Some(n) && IsLetter(unit) && IsLetter(c) && !IsTorn(s, i)
    ensures i + |digits| + 1 <= |s| && s[i + |digits| + 1..] == tail && !IsTorn(s, i + |digits| + 1)
    ensures var next := i + |digits| + 1;
            Scan(parse, s, unit, i, i, total, found)
            == Scan(parse, s, unit, next, next, if c == unit then total + n else total, found || c == unit)
  {
    var j := i + |digits|;
    assert |s[i..]| == |s| - i;
    forall k | i <= k < j ensures IsDigit(s[k]) {
      assert s[k] == s[i..][k - i] == digits[k - i];
    }
    assert s[j] == s[i..][|digits|] == c;
    assert s[i..j] == s[i..][..|digits|] == digits;
    assert s[j + 1..] == s[i..][|digits| + 1..] == tail;
    ScanDigits(parse, s, unit, i, j, i, total, found);
  }

  /** The scan's outcome, token by token. */
  function Tally(tokens: seq<Token>, unit: char, total: real, found: bool): (r: Option<real>) {
    if tokens == [] then if found then Some(total) else None
    else
      var hit := tokens[0].letter == unit;
      Tally(tokens[1..], unit, if hit then total + tokens[0].n as real else total, found || hit)
  }

  lemma {:induction false} TallySums(tokens: seq<Token>, unit: char, total: real, found: bool)
    requires forall k :: 0 <= k < |tokens| ==> 'a' <= tokens[k].letter <= 'z'
    ensures Tally(tokens, unit, total, found)
            == if found || Mentions(tokens, unit) then Some(total + TokenSum(tokens, unit) as real) else None
    decreases |tokens|
  {
    if tokens == [] {
    } else {
      var hit := tokens[0].letter == unit;
      MentionsFirstOrRest(tokens, unit);
      TallySums(tokens[1..], unit, if hit then total + tokens[0].n as real else total, found || hit);
    }
  }

  lemma {:induction false} ScanTokens(parse: string -> Option<real>, s: string, i: nat, tokens: seq<Token>, unit: char,
                                      total: real, found: bool)
    requires i <= |s| && s[i..] == PrintTokens(tokens) && !IsTorn(s, i)
    requires 'a' <= unit <= 'z' && forall k :: 0 <= k < |tokens| ==> 'a' <= tokens[k].letter <= 'z'
    requires forall n: nat :: parse(PrintNat(n)) == Some(n as real)
    ensures Scan(parse, s, unit, i, i, total, found) == Sum(Tally(tokens, unit, total, found))
    decreases |tokens|
  {
    if tokens == [] {
      assert i == |s|;
    } else {
      var t, rest := tokens[0], tokens[1..];
      var digits, c := PrintNat(t.n), t.letter;
      PrintedNatReadsBack(t.n);
      ScanNumber(parse, s, i, digits, c, PrintTokens(rest), unit, t.n as real, total, found);
      ScanTokens(parse, s, i + |digits| + 1, rest, unit, if c == unit then total + t.n as real else total,
          found || c == unit);
    }
  }

  /**
   Every number with the unit asked for counts, whatever stands between and in either case; none
   means no component.
   */
  lemma ComponentSumsTokens(tokens: seq<Token>, unit: char)
    requires IsLetter(unit) && forall i :: 0 <= i < |tokens| ==> IsLetter(tokens[i].letter)
    ensures Component(PrintTokens(tokens), unit)
            == Sum(if Mentions(tokens, LowerChar(unit)) then Some(TokenSum(tokens, LowerChar(unit)) as real) else None)
  {
    var s := Lower(PrintTokens(tokens));
    assert s[0..] == s;
    LowerOfPrinted(tokens);
    LoweredTokens(tokens, LowerChar(unit));
    forall n: nat ensures ParseDecimal(PrintNat(n)) == Some(n as real) {
      DigitsParse(n);
    }
    ScanTokens(ParseDecimal, s, 0, Lowered(tokens), LowerChar(unit), 0.0, false);
    TallySums(Lowered(tokens), LowerChar(unit), 0.0, false);
  }

  // ------------------------------------------------------------ the ISO-8601 round trip

  /** `P[nD][T[nH][nM][nS]]`, each part present or not. */
  datatype Time = Time(hours: Option<nat>, minutes: Option<nat>, seconds: Option<nat>)
  datatype Duration = Duration(days: Option<nat>, time: Option<Time>)

  function UnitToken(n: Option<nat>, letter: char): (tokens: seq<Token>) {
    if n.Some? then [Token(n.value, letter)] else []
  }

  function TimeTokens(t: Time): (tokens: seq<Token>) {
    UnitToken(t.hours, 'H') + UnitToken(t.minutes, 'M') + UnitToken(t.seconds, 'S')
  }

  function PrintIso(d: Duration): (s: string) {
    var days := PrintTokens(UnitToken(d.days, 'D'));
    if d.time.Some? then days + ['T'] + PrintTokens(TimeTokens(d.time.value)) else days
  }

  function PrintDuration(d: Duration): (s: string) {
    ['P'] + PrintIso(d)
  }

  function Or0(n: Option<nat>): (v: nat) {
    if n.Some? then n.value else 0
  }

  function TotalSeconds(d: Duration): (n: nat) {
    86400 * Or0(d.days)
    + if d.time.Some? then 3600 * Or0(d.time.value.hours) + 60 * Or0(d.time.value.minutes) + Or0(d.time.value.seconds)
      else 0
  }

  predicate Plain(s: string) {
    forall i :: 0 <= i < |s| ==> IsDigit(s[i]) || (IsLetter(s[i]) && s[i] != 'T')
  }

  lemma {:induction false} PrintTokensPlain(tokens: seq<Token>)
    requires forall i :: 0 <= i < |tokens| ==> IsLetter(tokens[i].letter) && tokens[i].letter != 'T'
    ensures Plain(PrintTokens(tokens))
    decreases |tokens|
  {
    if tokens == [] {
    } else {
      PrintTokensPlain(tokens[1..]);
      PrintedNatReadsBack(tokens[0].n);
    }
  }

  lemma SumOfUnit(n: Option<nat>, letter: char, unit: char)
    ensures TokenSum(UnitToken(n, letter), unit) == if LowerChar(letter) == unit then Or0(n) else 0
  {
    if n.Some? {
      assert UnitToken(n, letter)[1..] == [];
    }
  }

  lemma SumOfTime(t: Time, unit: char)
    ensures TokenSum(TimeTokens(t), unit)
            == (if unit == 'h' then Or0(t.hours) else 0) + (if unit == 'm' then Or0(t.minutes) else 0)
              + (if unit == 's' then Or0(t.seconds) else 0)
  {
    SumConcat(UnitToken(t.hours, 'H') + UnitToken(t.minutes, 'M'), UnitToken(t.seconds, 'S'), unit);
    SumConcat(UnitToken(t.hours, 'H'), UnitToken(t.minutes, 'M'), unit);
    SumOfUnit(t.hours, 'H', unit);
    SumOfUnit(t.minutes, 'M', unit);
    SumOfUnit(t.seconds, 'S', unit);
  }

  lemma {:induction false} SumConcat(a: seq<Token>, b: seq<Token>, unit: char)
    ensures TokenSum(a + b, unit) == TokenSum(a, unit) + TokenSum(b, unit)
    decreases |a|
  {
    if a == [] {
      assert a + b == b;
    } else {
      SumConcat(a[1..], b, unit);
      assert (a + b)[1..] == a[1..] + b;
    }
  }

  lemma {:induction false} UnmentionedIsZero(tokens: seq<Token>, unit: char)
    requires !Mentions(tokens, unit)
    ensures TokenSum(tokens, unit) == 0
    decreases |tokens|
  {
    if tokens == [] {
    } else {
      MentionsFirstOrRest(tokens, unit);
      UnmentionedIsZero(tokens[1..], unit);
    }
  }

  lemma ComponentOrZero(tokens: seq<Token>, unit: char)
    requires IsLetter(unit) && forall i :: 0 <= i < |tokens| ==> IsLetter(tokens[i].letter)
    ensures Part(Component(PrintTokens(tokens), unit)) == Some(TokenSum(tokens, LowerChar(unit)) as real)
  {
    ComponentSumsTokens(tokens, unit);
    if !Mentions(tokens, LowerChar(unit)) {
      UnmentionedIsZero(tokens, LowerChar(unit));
    }
  }

  /** A duration is not a plain number, and trimming leaves it alone. */
  lemma DurationIsNotPlain(s: string)
    requires s != [] && s[0] == 'P' && IsGraphic(s[|s| - 1])
    ensures Trim(s) == s && ParseSignedDecimal(s) == None
  {
    TrimKeeps(s);
    assert !IsDigit(s[0]);
    var i := IndexOf(s, '.');
    if i < |s| {
      assert i > 0 && (s[..i] + s[i + 1..])[0] == 'P';
    }
  }

  lemma TimeComponents(t: Time, chunk: string)
    requires chunk == PrintTokens(TimeTokens(t))
    ensures Plain(chunk)
    ensures Part(Component(chunk, 'H')) == Some(Or0(t.hours) as real)
    ensures Part(Component(chunk, 'M')) == Some(Or0(t.minutes) as real)
    ensures Part(Component(chunk, 'S')) == Some(Or0(t.seconds) as real)
  {
    var tokens := TimeTokens(t);
    PrintTokensPlain(tokens);
    ComponentOrZero(tokens, 'H');
    ComponentOrZero(tokens, 'M');
    ComponentOrZero(tokens, 'S');
    SumOfTime(t, 'h');
    SumOfTime(t, 'm');
    SumOfTime(t, 's');
  }

  lemma DayComponent(days: Option<nat>, chunk: string)
    requires chunk == PrintTokens(UnitToken(days, 'D'))
    ensures Plain(chunk) && Part(Component(chunk, 'D')) == Some(Or0(days) as real)
  {
    var tokens := UnitToken(days, 'D');
    PrintTokensPlain(tokens);
    ComponentOrZero(tokens, 'D');
    SumOfUnit(days, 'D', 'd');
  }

  /** Where the ISO-8601 branch cuts a duration. */
  lemma IsoSplits(days: string, time: string)
    requires Plain(days)
    ensures IndexOf(days, 'T') == |days|
    ensures var rest := days + ['T'] + time;
            IndexOf(rest, 'T') == |days| && rest[..|days|] == days && rest[|days| + 1..] == time
  {
    IndexOfJoined(days, 'T', time);
    assert forall k :: 0 <= k < |days| ==> days[k] != 'T';
  }

  lemma IsoOfDays(days: string, d: nat)
    requires Plain(days) && Part(Component(days, 'D')) == Some(d as real)
    ensures ParseIso(days) == Sum(Some((86400 * d) as real))
  {
    IsoSplits(days, []);
    assert days[..|days|] == days;
  }

  lemma IsoOfDaysAndTime(days: string, time: string, d: nat, h: nat, m: nat, s: nat)
    requires Plain(days) && Part(Component(days, 'D')) == Some(d as real)
    requires Part(Component(time, 'H')) == Some(h as real)
    requires Part(Component(time, 'M')) == Some(m as real)
    requires Part(Component(time, 'S')) == Some(s as real)
    ensures ParseIso(days + ['T'] + time) == Sum(Some((86400 * d + (3600 * h + 60 * m + s)) as real))
  {
    IsoSplits(days, time);
  }

  lemma IsoRoundTrip(d: Duration, days: string, time: string)
    requires days == PrintTokens(UnitToken(d.days, 'D'))
    requires (d.time.Some? ==> time == PrintTokens(TimeTokens(d.time.value)))
    ensures ParseIso(if d.time.Some? then days + ['T'] + time else days) == Sum(Some(TotalSeconds(d) as real))
  {
    DayComponent(d.days, days);
    if d.time.None? {
      IsoOfDays(days, Or0(d.days));
    } else {
      TimeComponents(d.time.value, time);
      IsoOfDaysAndTime(days, time, Or0(d.days), Or0(d.time.value.hours), Or0(d.time.value.minutes),
          Or0(d.time.value.seconds));
    }
  }

  lemma IsoEnds(d: Duration)
    ensures PrintIso(d) != [] ==> IsGraphic(PrintIso(d)[|PrintIso(d)| - 1])
  {
    PrintTokensPlain(UnitToken(d.days, 'D'));
    if d.time.Some? {
      PrintTokensPlain(TimeTokens(d.time.value));
    }
  }

  /**
   Printing any duration of days, hours, minutes and seconds, with any of them left out, and
   parsing it gives its seconds.
   */
  lemma DurationRoundTrip(d: Duration)
    ensures ParseDuration(PrintDuration(d)) == Sum(Some(TotalSeconds(d) as real))
  {
    IsoEnds(d);
    DurationIsNotPlain(PrintDuration(d));
    assert PrintDuration(d)[1..] == PrintIso(d);
    IsoRoundTrip(d, PrintTokens(UnitToken(d.days, 'D')),
        if d.time.Some? then PrintTokens(TimeTokens(d.time.value)) else []);
  }

  // ------------------------------------------------------------ when parsing panics

  /** Where the number in front of index `j` starts: after the last character that cannot be part of it. */
  function NumberStart(s: string, j: nat): (start: nat)
    requires j <= |s|
    ensures start <= j
    decreases j, s
  {
    if j > 0 && IsNumberChar(s[j - 1]) then NumberStart(s, j - 1) else j
  }

  /** A unit whose number starts right behind a character of several bytes. */
  predicate IsTornUnit(s: string, unit: char, j: nat)
    requires j < |s|
  {
    s[j] == unit && IsTorn(s, NumberStart(s, j))
  }

  /** A unit whose number is well-formed. */
  predicate IsGoodUnit(parse: string -> Option<real>, s: string, unit: char, k: nat)
    requires k < |s|
  {
    s[k] == unit ==> !IsTorn(s, NumberStart(s, k)) && parse(s[NumberStart(s, k)..k]).Some?
  }

  /** A torn unit comes, from index `i` on, before any unit with a malformed number. */
  ghost predicate TornFirst(parse: string -> Option<real>, s: string, unit: char, i: nat, j: nat) {
    i <= j < |s| && IsTornUnit(s, unit, j) && forall k :: i <= k < j ==> IsGoodUnit(parse, s, unit, k)
  }

  ghost predicate MeetsTornUnit(parse: string -> Option<real>, s: string, unit: char, i: nat) {
    exists j: nat :: TornFirst(parse, s, unit, i, j)
  }

  lemma {:induction false} ScanPanics(parse: string -> Option<real>, s: string, unit: char, i: nat, total: real,
                                      found: bool)
    requires i <= |s| && !IsNumberChar(unit)
    ensures Scan(parse, s, unit, i, NumberStart(s, i), total, found).Panic? <==> MeetsTornUnit(parse, s, unit, i)
    decreases |s| - i
  {
    if i == |s| {
    } else {
      var start := NumberStart(s, i);
      if s[i] != unit {
        ScanPanics(parse, s, unit, i + 1, total, found);
        TornFirstOneLater(parse, s, unit, i);
      } else if IsTorn(s, start) {
        assert TornFirst(parse, s, unit, i, i);
      } else if parse(s[start..i]).None? {
        assert !IsGoodUnit(parse, s, unit, i);
      } else {
        ScanPanics(parse, s, unit, i + 1, total + parse(s[start..i]).value, true);
        TornFirstOneLater(parse, s, unit, i);
      }
    }
  }

  lemma TornFirstOneLater(parse: string -> Option<real>, s: string, unit: char, i: nat)
    requires i < |s| && IsGoodUnit(parse, s, unit, i)
    ensures MeetsTornUnit(parse, s, unit, i) <==> MeetsTornUnit(parse, s, unit, i + 1)
  {
    if MeetsTornUnit(parse, s, unit, i) {
      var j: nat :| TornFirst(parse, s, unit, i, j);
      assert TornFirst(parse, s, unit, i + 1, j);
    }
    if MeetsTornUnit(parse, s, unit, i + 1) {
      var j: nat :| TornFirst(parse, s, unit, i + 1, j);
      assert TornFirst(parse, s, unit, i, j);
    }
  }

  /**
   Parsing a component panics exactly if a number with the unit asked for, possibly an empty one,
   stands right behind a character of several bytes, and all such numbers before it are well-formed.
   */
  lemma ComponentPanicsExactlyWhen(chunk: string, unit: char)
    requires IsLetter(unit)
    ensures Component(chunk, unit).Panic? <==> MeetsTornUnit(ParseDecimal, Lower(chunk), LowerChar(unit), 0)
  {
    ScanPanics(ParseDecimal, Lower(chunk), LowerChar(unit), 0, 0.0, false);
  }

  ghost predicate AllAscii(s: string) {
    forall i :: 0 <= i < |s| ==> s[i] as int < 0x80
  }

  lemma AsciiComponentNeverPanics(chunk: string, unit: char)
    requires IsLetter(unit) && AllAscii(chunk)
    ensures !Component(chunk, unit).Panic?
  {
    ComponentPanicsExactlyWhen(chunk, unit);
  }

  /** A duration of ASCII characters is parsed without a panic. */
  lemma AsciiDurationNeverPanics(s: string)
    requires AllAscii(Trim(s))
    ensures !ParseDuration(s).Panic?
  {
    var trimmed := Trim(s);
    if trimmed != [] {
      AsciiIsoNeverPanics(trimmed[1..]);
    }
  }

  lemma AsciiIsoNeverPanics(rest: string)
    requires AllAscii(rest)
    ensures !ParseIso(rest).Panic?
  {
    var t := IndexOf(rest, 'T');
    AsciiComponentNeverPanics(rest[..t], 'D');
    if t < |rest| {
      var time := rest[t + 1..];
      AsciiComponentNeverPanics(time, 'H');
      AsciiComponentNeverPanics(time, 'M');
      AsciiComponentNeverPanics(time, 'S');
    }
  }

  /** Any character of several bytes in front of the seconds of a bare duration makes it panic. */
  lemma AccentedDurationPanics(c: char, s: string)
    requires c as int >= 0x80 && s == ['P', 'T', c, 'S']
    ensures ParseDuration(s).Panic?
  {
    TrimKeeps(s);
    DurationIsNotPlain(s);
    var rest, time := s[1..], [c, 'S'];
    assert rest == [] + ['T'] + time;
    IsoSplits([], time);
    var lower := Lower(time);
    assert lower[0] == c && lower[1] == 's' && !IsNumberChar(c);
    assert NumberStart(lower, 1) == 1;
    assert TornFirst(ParseDecimal, lower, 's', 0, 1);
    assert MeetsTornUnit(ParseDecimal, lower, LowerChar('S'), 0);
    ComponentPanicsExactlyWhen(time, 'S');
    IsoPanicsWithSeconds(rest, [], time);
  }

  lemma IsoPanicsWithSeconds(rest: string, days: string, time: string)
    requires Plain(days) && rest == days + ['T'] + time && Component(time, 'S').Panic?
    ensures ParseIso(rest).Panic?
  {
    IsoSplits(days, time);
  }

  // ------------------------------------------------------------ what a decimal number is worth

  /** Digits before and behind the point: moving the point right by a digit makes the number ten times as large. */
  function Worth(whole: string, part: string): (v: real)
    requires AllDigits(whole) && AllDigits(part)
    ensures v >= 0.0
    decreases |part|
  {
    if part == [] then NatValue(whole) as real else Worth(whole + [part[0]], part[1..]) / 10.0
  }

  lemma Tenth(n: real, p: real)
    requires p > 0.0
    ensures n / p / 10.0 == n / (10.0 * p)
  {
  }

  lemma {:induction false} WorthIsQuotient(whole: string, part: string, all: string, p: real)
    requires AllDigits(whole) && AllDigits(part) && all == whole + part && p == Pow10(|part|)
    ensures AllDigits(all) && Worth(whole, part) == NatValue(all) as real / p
    decreases |part|
  {
    if part == [] {
      assert all == whole;
    } else {
      assert whole + [part[0]] + part[1..] == all;
      WorthIsQuotient(whole + [part[0]], part[1..], all, Pow10(|part| - 1));
      Tenth(NatValue(all) as real, Pow10(|part| - 1));
    }
  }

  /** Digits, a point and digits, of which either side may be empty, are a number. */
  lemma DecimalValue(s: string, whole: string, part: string)
    requires s == whole + ['.'] + part && AllDigits(whole) && AllDigits(part) && whole + part != []
    ensures ParseDecimal(s) == Some(Worth(whole, part))
  {
    IndexOfJoined(whole, '.', part);
    assert s[..|whole|] == whole && s[|whole| + 1..] == part;
    WorthIsQuotient(whole, part, whole + part, Pow10(|part|));
  }

  /** Anything but digits and one point is no number. */
  lemma NotADecimal(s: string, i: nat)
    requires i < |s| && !IsDigit(s[i]) && s[i] != '.'
    ensures ParseDecimal(s) == None
  {
    var k := IndexOf(s, '.');
    if k < |s| {
      var digits := s[..k] + s[k + 1..];
      assert digits[if i < k then i else i - 1] == s[i];
    }
  }

  // ------------------------------------------------------------ plain numbers

  /** A number written plainly: digits, or digits and a point. */
  ghost predicate Reads(s: string, v: real) {
    s != [] && IsDigit(s[0]) && (IsDigit(s[|s| - 1]) || s[|s| - 1] == '.') && ParseDecimal(s) == Some(v) && v >= 0.0
  }

  lemma PrintedNatReads(n: nat)
    ensures Reads(PrintNat(n), n as real)
  {
    PrintedNatReadsBack(n);
    DigitsParse(n);
  }

  lemma PrintedDecimalReads(n: nat, part: string)
    requires AllDigits(part)
    ensures AllDigits(PrintNat(n)) && Reads(PrintNat(n) + ['.'] + part, Worth(PrintNat(n), part))
  {
    PrintedNatReadsBack(n);
    DecimalValue(PrintNat(n) + ['.'] + part, PrintNat(n), part);
  }

  /** For instance one digit behind the point counts tenths. */
  lemma OneDecimal(n: nat, d: nat)
    requires d < 10
    ensures Reads(PrintNat(n) + ['.'] + [DigitOf(d)], (10 * n + d) as real / 10.0)
  {
    var part := [DigitOf(d)];
    PrintedDecimalReads(n, part);
    PrintedNatReadsBack(n);
    var all := PrintNat(n) + part;
    assert part[1..] == [] && all[..|all| - 1] == PrintNat(n);
    assert Worth(all, []) == NatValue(all) as real;
  }

  /** A plain number is a number of seconds, with or without a plus sign and white space around it. */
  lemma PlainNumberIsSeconds(before: string, sign: string, s: string, after: string, text: string, v: real)
    requires Reads(s, v) && AllSpace(before) && AllSpace(after) && (sign == [] || sign == ['+'])
    requires text == before + (sign + s) + after
    ensures ParseDuration(text) == Sum(Some(v))
  {
    TrimRemovesPadding(before, sign + s, after);
    SignedReads(sign + s, sign, s, v);
  }

  lemma SignedReads(t: string, sign: string, s: string, v: real)
    requires Reads(s, v) && t == sign + s && (sign == [] || sign == ['+'])
    ensures ParseSignedDecimal(t) == Some(v)
  {
    if sign == [] {
      assert t == s;
      assert s[0] != '-' && s[0] != '+';
      UnsignedParses(s);
    } else {
      PlusParses(t, s);
    }
  }

  lemma UnsignedParses(s: string)
    requires s != [] && s[0] != '-' && s[0] != '+'
    ensures ParseSignedDecimal(s) == ParseDecimal(s)
  {
  }

  lemma PlusParses(t: string, s: string)
    requires t == ['+'] + s
    ensures ParseSignedDecimal(t) == ParseDecimal(s)
  {
    assert t[1..] == s;
  }

  /** In particular a printed natural number. */
  lemma PrintedNumberIsSeconds(n: nat)
    ensures ParseDuration(PrintNat(n)) == Sum(Some(n as real))
  {
    PrintedNatReads(n);
    var s := PrintNat(n);
    assert [] + ([] + s) + [] == s;
    PlainNumberIsSeconds([], [], s, [], s, n as real);
  }

  /** A negative number is refused, though minus nought is nought. */
  lemma NegativeNumberIsRefused(s: string, v: real)
    requires Reads(s, v)
    ensures ParseDuration(['-'] + s) == Sum(if v > 0.0 then None else Some(0.0))
  {
    var t := ['-'] + s;
    assert t[1..] == s;
    TrimKeeps(t);
  }

  /** Seconds behind `PT` may have a fraction. */
  lemma FractionalSeconds(n: nat, part: string, s: string)
    requires AllDigits(part) && s == "PT" + (PrintNat(n) + ['.'] + part) + "S"
    ensures AllDigits(PrintNat(n)) && ParseDuration(s) == Sum(Some(Worth(PrintNat(n), part)))
  {
    var number := PrintNat(n) + ['.'] + part;
    PrintedNatReadsBack(n);
    PrintedDecimalReads(n, part);
    DurationOfSeconds(s, number, number + ['S'], Worth(PrintNat(n), part));
  }

  lemma DurationOfSeconds(s: string, number: string, time: string, v: real)
    requires s == "PT" + number + "S" && time == number + ['S'] && ParseDecimal(number) == Some(v) && v >= 0.0
    requires forall i :: 0 <= i < |number| ==> IsDigit(number[i]) || number[i] == '.'
    ensures ParseDuration(s) == Sum(Some(v))
  {
    assert s[0] == 'P' && s[|s| - 1] == 'S';
    DurationIsNotPlain(s);
    var rest := s[1..];
    assert rest == [] + ['T'] + time;
    SecondsOnly(number, time, v);
    IsoOfSeconds(rest, time, v);
  }

  lemma IsoOfSeconds(rest: string, time: string, v: real)
    requires rest == [] + ['T'] + time && v >= 0.0
    requires Part(Component(time, 'H')) == Some(0.0) && Part(Component(time, 'M')) == Some(0.0)
    requires Part(Component(time, 'S')) == Some(v)
    ensures ParseIso(rest) == Sum(Some(v))
  {
    EmptyComponent('D');
    IsoSplits([], time);
  }

  lemma EmptyComponent(unit: char)
    ensures Part(Component([], unit)) == Some(0.0)
  {
  }

  /** A number of digits and a point with one unit behind it. */
  lemma SecondsOnly(number: string, time: string, v: real)
    requires time == number + ['S'] && ParseDecimal(number) == Some(v)
    requires forall i :: 0 <= i < |number| ==> IsDigit(number[i]) || number[i] == '.'
    ensures Part(Component(time, 'S')) == Some(v)
    ensures Part(Component(time, 'H')) == Some(0.0) && Part(Component(time, 'M')) == Some(0.0)
  {
    var lower := Lower(time);
    assert lower == number + ['s'];
    assert lower[..|number|] == number && lower[0..|number|] == number;
    ScanNumberChars(ParseDecimal, lower, 's', 0, |number|);
    ScanNumberChars(ParseDecimal, lower, 'h', 0, |number|);
    ScanNumberChars(ParseDecimal, lower, 'm', 0, |number|);
  }

  lemma {:induction false} ScanNumberChars(parse: string -> Option<real>, s: string, unit: char, i: nat, j: nat)
    requires i <= j <= |s| && IsLetter(unit) && forall k :: i <= k < j ==> IsNumberChar(s[k])
    ensures Scan(parse, s, unit, i, 0, 0.0, false) == Scan(parse, s, unit, j, 0, 0.0, false)
    decreases j - i
  {
    if i == j {
    } else {
      ScanNumberChars(parse, s, unit, i + 1, j);
    }
  }

  /** Text that starts with anything but a digit, a sign, a point or `P` is no duration. */
  lemma OtherTextIsNoDuration(s: string)
    requires s != [] && IsGraphic(s[0]) && IsGraphic(s[|s| - 1])
    requires !IsDigit(s[0]) && s[0] != '+' && s[0] != '-' && s[0] != '.' && s[0] != 'P'
    ensures ParseDuration(s) == Sum(None)
  {
    TrimKeeps(s);
    NotADecimal(s, 0);
  }

  /** A comma inside a number spoils it. */
  lemma CommaSpoilsNumber(number: string, i: nat, time: string)
    requires i < |number| && number[i] == ',' && time == number + ['S']
    requires forall k :: 0 <= k < |number| ==> IsDigit(number[k]) || number[k] == '.' || number[k] == ','
    ensures Component(time, 'S') == Sum(None)
  {
    var lower := Lower(time);
    assert lower == number + ['s'];
    assert lower[0..|number|] == number;
    ScanNumberChars(ParseDecimal, lower, 's', 0, |number|);
    NotADecimal(number, i);
  }
}
