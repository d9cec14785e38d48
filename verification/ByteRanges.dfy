/**
 Range requests on assets (crates/server/src/assets.rs): the parser of the `Range` header and
 the body that is served for it.  Header values are ASCII, one character a byte.
 */
module ByteRanges {
  import opened Basics
  import opened Numerals
  import opened Text

  datatype RangeSpec = Partial(start: nat, end: nat) | Full

  /** One side of the dash: absent, a number, or malformed. */
  datatype Bound = Absent | Present(value: nat) | Malformed

  function ParseBound(raw: string): (b: Bound) {
    if raw == [] then Absent
    else
      var n := ParseUnsigned(Trim(raw), U64_MAX);
      if n.Some? then Present(n.value) else Malformed
  }

  /** The range that two bounds select of `size > 0` bytes; `None` is the error that answers 416. */
  function Select(start: Bound, end: Bound, size: nat): (r: Option<RangeSpec>)
    requires size > 0
    ensures r.Some? && r.value.Partial? ==> r.value.start <= r.value.end < size
  {
    match (start, end)
    case (Malformed, _) => None
    case (_, Malformed) => None
    case (Present(s), Present(e)) =>
      if s > e || s >= size then None else Some(Partial(s, if e < size - 1 then e else size - 1))
    case (Present(s), Absent) => if s >= size then None else Some(Partial(s, size - 1))
    case (Absent, Present(n)) =>
      if n == 0 then None else if n >= size then Some(Full) else Some(Partial(size - n, size - 1))
    case (Absent, Absent) => None
  }

  /** `parse_byte_range`: whatever it accepts lies within the file. */
  function ParseByteRange(raw: string, size: nat): (r: Option<RangeSpec>)
    ensures r.Some? && r.value.Partial? ==> r.value.start <= r.value.end < size
  {
    var header := Trim(raw);
    if size == 0 || |header| < 6 || Lower(header[..6]) != "bytes=" then None
    else
      var rest := header[6..];
      var dash := IndexOf(rest, '-');
      if ',' in rest || dash == |rest| then None
      else Select(ParseBound(rest[..dash]), ParseBound(rest[dash + 1..]), size)
  }

  /** `ranged_body`: seek, then at most `len` bytes. */
  function RangedBody<B>(file: seq<B>, start: nat, len: nat): (body: seq<B>) {
    if start > |file| then [] else if start + len > |file| then file[start..] else file[start..start + len]
  }

  /** The bytes of the response to a parsed range; `None` for 416. */
  function Body<B>(file: seq<B>, spec: Option<RangeSpec>): (body: Option<seq<B>>)
    requires spec.Some? && spec.value.Partial? ==> spec.value.start <= spec.value.end
  {
    match spec
    case None => None
    case Some(Full) => Some(RangedBody(file, 0, |file|))
    case Some(Partial(start, end)) => Some(RangedBody(file, start, end - start + 1))
  }

  function Served<B>(file: seq<B>, header: string): (body: Option<seq<B>>) {
    Body(file, ParseByteRange(header, |file|))
  }

  // ------------------------------------------------------------ printed requests

  const UNIT: string := "bytes="

  function FromTo(a: nat, b: nat): (header: string) {
    UNIT + (PrintNat(a) + ['-'] + PrintNat(b))
  }

  function From(a: nat): (header: string) {
    UNIT + (PrintNat(a) + ['-'] + [])
  }

  function Suffix(n: nat): (header: string) {
    UNIT + ([] + ['-'] + PrintNat(n))
  }

  lemma ParsedBound(n: nat)
    ensures ParseBound(PrintNat(n)) == if n <= U64_MAX then Present(n) else Malformed
  {
    PrintedNatReadsBack(n);
    var s := PrintNat(n);
    assert IsDigit(s[0]) && IsDigit(s[|s| - 1]);
    TrimKeeps(s);
    UnsignedRoundTrip(n, U64_MAX);
  }

  /** What the parser sees of a printed request: the two sides of the dash. */
  lemma HeaderSplits(a: string, b: string)
    requires AllDigits(a) && AllDigits(b)
    ensures var header := UNIT + (a + ['-'] + b);
            var rest := header[6..];
            && Trim(header) == header && |header| >= 6 && Lower(header[..6]) == UNIT
            && ',' !in rest && IndexOf(rest, '-') == |a| < |rest| && rest[..|a|] == a && rest[|a| + 1..] == b
  {
    var rest := a + ['-'] + b;
    var header := UNIT + rest;
    assert header[|header| - 1] == rest[|rest| - 1];
    TrimKeeps(header);
    assert header[..6] == UNIT && header[6..] == rest;
    assert Lower(UNIT) == UNIT;
    IndexOfJoined(a, '-', b);
    forall i | 0 <= i < |rest| ensures rest[i] != ',' {
      assert rest[i] == '-' || IsDigit(rest[i]);
    }
    assert rest[..|a|] == a && rest[|a| + 1..] == b;
  }

  lemma ParsesTo(header: string, a: string, b: string, size: nat)
    requires AllDigits(a) && AllDigits(b) && header == UNIT + (a + ['-'] + b)
    ensures ParseByteRange(header, size) == if size == 0 then None else Select(ParseBound(a), ParseBound(b), size)
  {
    HeaderSplits(a, b);
  }

  /**
   An explicit range is clamped to the file, and refused exactly when it is empty, starts past
   the end or overflows.
   */
  lemma FromToParses(a: nat, b: nat, size: nat)
    ensures ParseByteRange(FromTo(a, b), size)
            == if a <= b <= U64_MAX && a < size then Some(Partial(a, if b < size then b else size - 1)) else None
  {
    PrintedNatReadsBack(a);
    PrintedNatReadsBack(b);
    ParsesTo(FromTo(a, b), PrintNat(a), PrintNat(b), size);
    ParsedBound(a);
    ParsedBound(b);
  }

  /** An open range runs to the end. */
  lemma FromParses(a: nat, size: nat)
    requires size <= U64_MAX
    ensures ParseByteRange(From(a), size) == if a < size then Some(Partial(a, size - 1)) else None
  {
    PrintedNatReadsBack(a);
    ParsesTo(From(a), PrintNat(a), [], size);
    ParsedBound(a);
  }

  lemma SuffixOf(header: string, digits: string, n: nat, size: nat)
    requires AllDigits(digits) && header == UNIT + ([] + ['-'] + digits) && ParseBound(digits) == Present(n)
    ensures ParseByteRange(header, size)
            == if n == 0 || size == 0 then None else if n < size then Some(Partial(size - n, size - 1)) else Some(Full)
  {
    ParsesTo(header, [], digits, size);
  }

  /** A suffix range is the last `n` bytes, or the whole file when there are not that many. */
  lemma SuffixParses(n: nat, size: nat)
    requires n <= U64_MAX
    ensures ParseByteRange(Suffix(n), size)
            == if n == 0 || size == 0 then None else if n < size then Some(Partial(size - n, size - 1)) else Some(Full)
  {
    PrintedNatReadsBack(n);
    ParsedBound(n);
    SuffixOf(Suffix(n), PrintNat(n), n, size);
  }

  // ------------------------------------------------------------ a download in pieces

  /** The byte positions at which a download is cut, the first being where it starts. */
  predicate Rises(cuts: seq<nat>, i: nat)
    requires i < |cuts| - 1
  {
    cuts[i] < cuts[i + 1]
  }

  ghost predicate IsSplit(cuts: seq<nat>, size: nat) {
    && cuts != [] && cuts[0] == 0
    && (forall i :: 0 <= i < |cuts| - 1 ==> Rises(cuts, i))
    && (forall i :: 0 <= i < |cuts| - 1 ==> cuts[i] < size)
    && size <= cuts[|cuts| - 1] <= U64_MAX
  }

  /** The `i`-th request of a split download. */
  function Request(cuts: seq<nat>, i: nat): (header: string)
    requires i < |cuts| - 1 && Rises(cuts, i)
  {
    FromTo(cuts[i], cuts[i + 1] - 1)
  }

  function Piece<B>(file: seq<B>, cuts: seq<nat>, i: nat): (bytes: seq<B>)
    requires i < |cuts| - 1 && Rises(cuts, i) && cuts[i] < |file|
  {
    file[cuts[i]..Clamped(cuts[i + 1], |file|)]
  }

  /** Bodies put together, provided all requests succeeded. */
  function Joined<B>(bodies: seq<Option<seq<B>>>): (bytes: Option<seq<B>>) {
    if bodies == [] then Some([])
    else
      var before, last := Joined(bodies[..|bodies| - 1]), bodies[|bodies| - 1];
      if before.Some? && last.Some? then Some(before.value + last.value) else None
  }

  function Clamped(n: nat, size: nat): (r: nat) {
    if n < size then n else size
  }

  lemma BodyOfSlice<B>(file: seq<B>, a: nat, b: nat)
    requires a <= b && a < |file|
    ensures Body(file, Some(Partial(a, if b < |file| then b else |file| - 1))) == Some(file[a..Clamped(b + 1, |file|)])
  {
  }

  /** A request is answered with exactly the requested positions that the file has. */
  lemma ServedFromTo<B>(file: seq<B>, a: nat, b: nat)
    ensures Served(file, FromTo(a, b))
            == if a <= b <= U64_MAX && a < |file| then Some(file[a..Clamped(b + 1, |file|)]) else None
  {
    FromToParses(a, b, |file|);
    if a <= b <= U64_MAX && a < |file| {
      BodyOfSlice(file, a, b);
    }
  }

  lemma ServedRequest<B>(file: seq<B>, cuts: seq<nat>, i: nat)
    requires IsSplit(cuts, |file|) && i < |cuts| - 1
    ensures Rises(cuts, i) && cuts[i] < |file| && Served(file, Request(cuts, i)) == Some(Piece(file, cuts, i))
  {
    assert Rises(cuts, i);
    LastCutIsLargest(cuts, i + 1);
    ServedFromTo(file, cuts[i], cuts[i + 1] - 1);
  }

  lemma {:induction false} JoinedSlices<B>(file: seq<B>, cuts: seq<nat>, bodies: seq<Option<seq<B>>>)
    requires IsSplit(cuts, |file|) && |bodies| < |cuts|
    requires forall i :: 0 <= i < |bodies| ==> Rises(cuts, i) && bodies[i] == Some(Piece(file, cuts, i))
    ensures Joined(bodies) == Some(file[..Clamped(cuts[|bodies|], |file|)])
    decreases |bodies|
  {
    var n := |bodies|;
    if n == 0 {
      assert file[..0] == [];
    } else {
      JoinedSlices(file, cuts, bodies[..n - 1]);
      assert cuts[n - 1] < |file| && Rises(cuts, n - 1);
      assert bodies[n - 1] == Some(Piece(file, cuts, n - 1));
      var upTo := Clamped(cuts[n], |file|);
      assert file[..cuts[n - 1]] + file[cuts[n - 1]..upTo] == file[..upTo];
    }
  }

  lemma {:induction false} LastCutIsLargest(cuts: seq<nat>, n: nat)
    requires n < |cuts| && forall i :: 0 <= i < |cuts| - 1 ==> Rises(cuts, i)
    ensures cuts[n] <= cuts[|cuts| - 1]
    decreases |cuts| - n
  {
    if n == |cuts| - 1 {
    } else {
      assert Rises(cuts, n);
      LastCutIsLargest(cuts, n + 1);
    }
  }

  /**
   Any split of a file into consecutive `bytes=a-b` requests, the last of which may ask beyond
   the end, is served in full: every request succeeds and the bodies put together are the file.
   */
  lemma {:induction false} PiecesMakeTheFile<B>(file: seq<B>, cuts: seq<nat>, bodies: seq<Option<seq<B>>>)
    requires IsSplit(cuts, |file|) && |bodies| == |cuts| - 1
    requires forall i :: 0 <= i < |bodies| ==> Rises(cuts, i) && bodies[i] == Served(file, Request(cuts, i))
    ensures Joined(bodies) == Some(file)
  {
    forall i | 0 <= i < |bodies| ensures Rises(cuts, i) && cuts[i] < |file| && bodies[i] == Some(Piece(file, cuts, i)) {
      ServedRequest(file, cuts, i);
    }
    JoinedSlices(file, cuts, bodies);
    assert file[..|file|] == file;
  }

  lemma BodyOfSuffix<B>(file: seq<B>, n: nat)
    requires 0 < n
    ensures Body(file, if n < |file| then Some(Partial(|file| - n, |file| - 1)) else Some(Full))
            == Some(if n < |file| then file[|file| - n..] else file)
  {
    assert file[0..|file|] == file;
    assert n < |file| ==> file[|file| - n..|file|] == file[|file| - n..];
  }

  /** The last `n` bytes, however few there are. */
  lemma ServedSuffix<B>(file: seq<B>, n: nat)
    requires 0 < n <= U64_MAX && 0 < |file|
    ensures Served(file, Suffix(n)) == Some(if n < |file| then file[|file| - n..] else file)
  {
    SuffixParses(n, |file|);
    BodyOfSuffix(file, n);
  }

  // ------------------------------------------------------------ other ways to write a request

  /** The unit may be written in either case. */
  predicate IsUnit(u: string) {
    |u| == 6 && forall i :: 0 <= i < 6 ==> u[i] == "bytes="[i] || u[i] == "BYTES="[i]
  }

  lemma UnitIsLower(u: string)
    requires IsUnit(u)
    ensures Lower(u) == UNIT
  {
    var lower, upper := "bytes=", "BYTES=";
    assert lower[0] == 'b' && lower[1] == 'y' && lower[2] == 't';
    assert lower[3] == 'e' && lower[4] == 's' && lower[5] == '=';
    assert upper[0] == 'B' && upper[1] == 'Y' && upper[2] == 'T';
    assert upper[3] == 'E' && upper[4] == 'S' && upper[5] == '=';
    assert forall i :: 0 <= i < 6 ==> Lower(u)[i] == lower[i];
  }

  /** A number may have white space around it. */
  lemma PaddedBound(before: string, n: nat, after: string)
    requires AllSpace(before) && AllSpace(after)
    ensures ParseBound(before + PrintNat(n) + after) == if n <= U64_MAX then Present(n) else Malformed
  {
    PrintedNatReadsBack(n);
    var s := PrintNat(n);
    assert IsDigit(s[0]) && IsDigit(s[|s| - 1]);
    TrimRemovesPadding(before, s, after);
    UnsignedRoundTrip(n, U64_MAX);
  }

  /** The parser looks at the trimmed header, its unit in lower case and what follows. */
  lemma {:induction false} SameHeader(raw: string, header: string, raw': string, header': string, size: nat)
    requires Trim(raw) == header && Trim(raw') == header' && |header| >= 6 && |header'| >= 6
    requires Lower(header[..6]) == Lower(header'[..6]) && header[6..] == header'[6..]
    ensures ParseByteRange(raw, size) == ParseByteRange(raw', size)
  {
  }

  /** Nor does white space around the header, or the case of the unit, matter. */
  lemma {:induction false} HeaderVariants(before: string, u: string, rest: string, after: string, raw: string,
                                          size: nat)
    requires AllSpace(before) && AllSpace(after) && IsUnit(u) && raw == before + (u + rest) + after
    requires rest != [] && IsGraphic(rest[|rest| - 1])
    ensures ParseByteRange(raw, size) == ParseByteRange(UNIT + rest, size)
  {
    var there, here := u + rest, UNIT + rest;
    assert there[..6] == u && there[6..] == rest && here[..6] == UNIT && here[6..] == rest;
    assert there[0] == u[0] && there[|there| - 1] == rest[|rest| - 1] && here[|here| - 1] == rest[|rest| - 1];
    UnitIsLower(u);
    UnitIsLower(UNIT);
    TrimRemovesPadding(before, there, after);
    TrimKeeps(here);
    SameHeader(raw, there, here, here, size);
  }

  /** Requests that are refused: several ranges, no dash, neither bound, another unit, an empty file. */
  lemma Refused(rest: string, raw: string, size: nat)
    requires raw == UNIT + rest && (rest != [] ==> IsGraphic(rest[|rest| - 1]))
    ensures ',' in rest || '-' !in rest || rest == "-" || size == 0 ==> ParseByteRange(raw, size) == None
  {
    TrimKeeps(raw);
    assert raw[6..] == rest;
    var dash := IndexOf(rest, '-');
    assert '-' in rest ==> dash < |rest|;
    if rest == "-" {
      assert rest[..0] == [] && rest[1..] == [];
    }
  }

  lemma OtherUnitRefused(raw: string, i: nat, size: nat)
    requires |raw| >= 6 && IsGraphic(raw[0]) && IsGraphic(raw[|raw| - 1])
    requires i < 6 && raw[i] != "bytes="[i] && raw[i] != "BYTES="[i]
    ensures ParseByteRange(raw, size) == None
  {
    TrimKeeps(raw);
    assert Lower(raw[..6])[i] == LowerChar(raw[i]);
    var lower, upper := "bytes=", "BYTES=";
    assert lower[0] == 'b' && lower[1] == 'y' && lower[2] == 't';
    assert lower[3] == 'e' && lower[4] == 's' && lower[5] == '=';
    assert upper[0] == 'B' && upper[1] == 'Y' && upper[2] == 'T';
    assert upper[3] == 'E' && upper[4] == 'S' && upper[5] == '=';
  }
}
