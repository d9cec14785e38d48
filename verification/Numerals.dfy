/**
 Decimal numerals as the program prints them (`{}` of an integer) and as `str::parse` reads
 them: an optional sign, at least one digit, and a value that fits the type.
 */
module Numerals {
  import opened Basics
  import opened Text

  const U64_MAX: nat := 0xFFFF_FFFF_FFFF_FFFF
  const I64_MAX: nat := 0x7FFF_FFFF_FFFF_FFFF
  const I64_MIN: int := -0x8000_0000_0000_0000

  predicate AllDigits(s: string) {
    forall i :: 0 <= i < |s| ==> IsDigit(s[i])
  }

  function DigitOf(n: nat): (c: char)
    requires n < 10
  {
    '0' + n as char
  }

  function PrintNat(n: nat): (s: string) {
    if n < 10 then [DigitOf(n)] else PrintNat(n / 10) + [DigitOf(n % 10)]
  }

  function PrintInt(n: int): (s: string) {
    if n < 0 then ['-'] + PrintNat(-n) else PrintNat(n)
  }

  /** The number a string of digits stands for. */
  function NatValue(s: string): (n: nat)
    requires AllDigits(s)
  {
    if s == [] then 0 else 10 * NatValue(s[..|s| - 1]) + (s[|s| - 1] - '0') as nat
  }

  function ParseDigits(s: string, max: nat): (r: Option<nat>) {
    if s != [] && AllDigits(s) && NatValue(s) <= max then Some(NatValue(s)) else None
  }

  /** `parse::<u64>` (with `max` the type's largest value): a leading `+` is allowed. */
  function ParseUnsigned(s: string, max: nat): (r: Option<nat>) {
    ParseDigits(if s != [] && s[0] == '+' then s[1..] else s, max)
  }

  /** `parse::<i64>`. */
  function ParseI64(s: string): (r: Option<int>) {
    if s != [] && s[0] == '-' then
      var digits := ParseDigits(s[1..], I64_MAX + 1);
      if digits.Some? then Some(0 - digits.value as int) else None
    else
      var digits := ParseUnsigned(s, I64_MAX);
      if digits.Some? then Some(digits.value) else None
  }

  predicate FitsI64(n: int) {
    I64_MIN <= n <= I64_MAX
  }

  lemma {:induction false} PrintedNatReadsBack(n: nat)
    ensures PrintNat(n) != [] && AllDigits(PrintNat(n)) && NatValue(PrintNat(n)) == n
    decreases n
  {
    var s := PrintNat(n);
    if n < 10 {
      assert NatValue(s[..0]) == 0;
    } else {
      PrintedNatReadsBack(n / 10);
      assert s[..|s| - 1] == PrintNat(n / 10);
    }
  }

  /** A printed natural parses back exactly when it fits. */
  lemma UnsignedRoundTrip(n: nat, max: nat)
    ensures ParseUnsigned(PrintNat(n), max) == if n <= max then Some(n) else None
  {
    PrintedNatReadsBack(n);
    assert IsDigit(PrintNat(n)[0]);
  }

  lemma I64RoundTrip(n: int)
    ensures ParseI64(PrintInt(n)) == if FitsI64(n) then Some(n) else None
  {
    if n < 0 {
      PrintedNatReadsBack(-n);
      assert PrintInt(n)[1..] == PrintNat(-n);
    } else {
      PrintedNatReadsBack(n);
      UnsignedRoundTrip(n, I64_MAX);
      assert IsDigit(PrintNat(n)[0]);
    }
  }

  // ------------------------------------------------------------ what else is a number

  lemma {:induction false} LeadingZero(s: string)
    requires AllDigits(s)
    ensures AllDigits("0" + s) && NatValue("0" + s) == NatValue(s)
    decreases |s|
  {
    var longer := "0" + s;
    if s == [] {
      assert longer[..0] == [];
    } else {
      LeadingZero(s[..|s| - 1]);
      assert longer[..|longer| - 1] == "0" + s[..|s| - 1];
    }
  }

  /** A plus sign is allowed, a minus sign only for signed numbers, and a number needs a digit. */
  lemma Signs(n: nat, max: nat)
    ensures ParseUnsigned("+" + PrintNat(n), max) == if n <= max then Some(n) else None
    ensures ParseUnsigned("-" + PrintNat(n), max) == None
    ensures ParseI64("+" + PrintNat(n)) == if n <= I64_MAX then Some(n) else None
    ensures ParseI64("-" + PrintNat(n)) == if n <= I64_MAX + 1 then Some(0 - n as int) else None
    ensures ParseUnsigned("", max) == ParseUnsigned("+", max) == None
    ensures ParseI64("") == ParseI64("+") == ParseI64("-") == None
  {
    PrintedNatReadsBack(n);
    var plus, minus := "+" + PrintNat(n), "-" + PrintNat(n);
    assert plus[1..] == PrintNat(n) && minus[1..] == PrintNat(n);
    assert !AllDigits(minus) by {
      assert !IsDigit(minus[0]);
    }
  }

  /** Any other character makes it no number. */
  lemma StrayCharacter(s: string, i: nat, max: nat)
    requires i < |s| && !IsDigit(s[i]) && (i == 0 ==> s[0] != '+' && s[0] != '-')
    ensures ParseUnsigned(s, max) == None && ParseI64(s) == None
  {
    if i > 0 {
      assert s[1..][i - 1] == s[i];
    }
  }
}
