/**
 * The UnitParser utility: parses "2.5 KB" or "500ms" into a count of bytes or
 * nanoseconds and converts such a count back into any unit of the tables.
 * Doubles are exact reals here; each (long) cast truncates toward zero.
 */
module UnitParser {
  import opened Results
  import opened JavaText
  import opened JavaNumbers

  const SIZE_UNITS: seq<string> := ["B", "KB", "MB", "GB", "TB"]
  const SIZE_MULTIPLIERS: seq<nat> :=
    [1, 1024, 1024 * 1024, 1024 * 1024 * 1024, 1024 * 1024 * 1024 * 1024]

  const TIME_UNITS: seq<string> := ["ns", "us", "ms", "s", "m", "h"]
  const TIME_MULTIPLIERS: seq<nat> :=
    [1, 1_000, 1_000_000, 1_000_000_000, 60 * 1_000_000_000, 3600 * 1_000_000_000]

  predicate StrictlyIncreasing(s: seq<nat>) {
    forall i, j :: 0 <= i < j < |s| ==> s[i] < s[j]
  }

  predicate Distinct(s: seq<string>) {
    forall i, j :: 0 <= i < j < |s| ==> s[i] != s[j]
  }

  /** The unit and multiplier tables are parallel, their units distinct, their multipliers increasing from 1. */
  lemma TablesWellFormed()
    ensures |SIZE_UNITS| == |SIZE_MULTIPLIERS| && |TIME_UNITS| == |TIME_MULTIPLIERS|
    ensures Distinct(SIZE_UNITS) && Distinct(TIME_UNITS)
    ensures StrictlyIncreasing(SIZE_MULTIPLIERS) && StrictlyIncreasing(TIME_MULTIPLIERS)
    ensures SIZE_MULTIPLIERS[0] == 1 && TIME_MULTIPLIERS[0] == 1
    ensures forall i :: 0 < i < |SIZE_MULTIPLIERS| ==> SIZE_MULTIPLIERS[i] == 1024 * SIZE_MULTIPLIERS[i - 1]
  {
  }

  /** The search loops over a unit table, from index i: the first index holding u. */
  function IndexFrom(table: seq<string>, u: string, i: nat): (r: Option<nat>)
    requires i <= |table|
    ensures r.Some? ==> i <= r.value < |table| && table[r.value] == u
    ensures r.Some? ==> forall j :: i <= j < r.value ==> table[j] != u
    ensures r.None? <==> forall j :: i <= j < |table| ==> table[j] != u
    decreases |table| - i
  {
    if i == |table| then None
    else if table[i] == u then Some(i)
    else IndexFrom(table, u, i + 1)
  }

  function IndexOf(table: seq<string>, u: string): (r: Option<nat>)
    ensures r.Some? ==> r.value < |table| && table[r.value] == u
    ensures r.None? <==> u !in table
  {
    IndexFrom(table, u, 0)
  }

  function SizeMultiplier(u: string): (m: nat)
    requires u in SIZE_UNITS
    ensures m >= 1
  {
    SIZE_MULTIPLIERS[IndexOf(SIZE_UNITS, u).value]
  }

  function TimeMultiplier(u: string): (m: nat)
    requires u in TIME_UNITS
    ensures m >= 1
  {
    TIME_MULTIPLIERS[IndexOf(TIME_UNITS, u).value]
  }

  /** The multiplier of the unit at index i of a table is the entry at index i: the units are distinct. */
  lemma SizeEntry(i: nat, u: string)
    requires i < |SIZE_UNITS| && SIZE_UNITS[i] == u
    ensures u in SIZE_UNITS && SizeMultiplier(u) == SIZE_MULTIPLIERS[i]
  {
    TablesWellFormed();
  }

  lemma TimeEntry(i: nat, u: string)
    requires i < |TIME_UNITS| && TIME_UNITS[i] == u
    ensures u in TIME_UNITS && TimeMultiplier(u) == TIME_MULTIPLIERS[i]
  {
    TablesWellFormed();
  }

  lemma SizeMultiplierValues()
    ensures SizeMultiplier("B") == 1 && SizeMultiplier("KB") == 1024
    ensures SizeMultiplier("MB") == 1024 * 1024 && SizeMultiplier("GB") == 1024 * 1024 * 1024
    ensures SizeMultiplier("TB") == 1024 * 1024 * 1024 * 1024
  {
    SizeEntry(0, "B");
    SizeEntry(1, "KB");
    SizeEntry(2, "MB");
    SizeEntry(3, "GB");
    SizeEntry(4, "TB");
  }

  lemma TimeMultiplierValues()
    ensures TimeMultiplier("ns") == 1 && TimeMultiplier("us") == 1_000 && TimeMultiplier("ms") == 1_000_000
    ensures TimeMultiplier("s") == 1_000_000_000 && TimeMultiplier("m") == 60_000_000_000
    ensures TimeMultiplier("h") == 3_600_000_000_000
  {
    TimeEntry(0, "ns");
    TimeEntry(1, "us");
    TimeEntry(2, "ms");
    TimeEntry(3, "s");
    TimeEntry(4, "m");
    TimeEntry(5, "h");
  }

  /*
   * The grammar (\d+(?:\.\d+)?)\s*(UNIT)? of SIZE_PATTERN and TIME_PATTERN.
   * A Quantity is one way of spelling a full match: group 1 (whole part and
   * optional fraction), the skipped whitespace and group 2.
   */
  datatype Quantity = Quantity(whole: string, fraction: Option<string>, space: string, unit: Option<string>)

  predicate WellFormed(q: Quantity, units: seq<string>) {
    && |q.whole| > 0 && AllDigits(q.whole)
    && (q.fraction.Some? ==> |q.fraction.value| > 0 && AllDigits(q.fraction.value))
    && AllRegexSpace(q.space)
    && (q.unit.Some? ==> q.unit.value in units)
  }

  function FractionText(fraction: Option<string>): string {
    if fraction.Some? then "." + fraction.value else ""
  }

  function UnitText(unit: Option<string>): string {
    if unit.Some? then unit.value else ""
  }

  function Spell(q: Quantity): string {
    q.whole + FractionText(q.fraction) + q.space + UnitText(q.unit)
  }

  /** Matcher.matches(): the input is one whole spelling of a well-formed quantity. */
  ghost predicate FullMatch(t: string, units: seq<string>) {
    exists q :: WellFormed(q, units) && Spell(q) == t
  }

  /** No unit can be mistaken for a digit, the decimal point or whitespace. */
  predicate Separable(units: seq<string>) {
    forall u :: u in units ==> |u| > 0 && !IsDigit(u[0]) && u[0] != '.' && !IsRegexSpace(u[0])
  }

  function DigitPrefix(s: string): (r: string)
    ensures |r| <= |s| && r == s[..|r|] && AllDigits(r)
    ensures |r| < |s| ==> !IsDigit(s[|r|])
  {
    if |s| > 0 && IsDigit(s[0]) then [s[0]] + DigitPrefix(s[1..]) else []
  }

  function SpacePrefix(s: string): (r: string)
    ensures |r| <= |s| && r == s[..|r|] && AllRegexSpace(r)
    ensures |r| < |s| ==> !IsRegexSpace(s[|r|])
  {
    if |s| > 0 && IsRegexSpace(s[0]) then [s[0]] + SpacePrefix(s[1..]) else []
  }

  lemma {:induction false} DigitPrefixOf(a: string, b: string)
    requires AllDigits(a)
    requires |b| > 0 ==> !IsDigit(b[0])
    ensures DigitPrefix(a + b) == a
  {
    if |a| > 0 {
      assert (a + b)[1..] == a[1..] + b;
      DigitPrefixOf(a[1..], b);
    } else {
      assert a + b == b;
    }
  }

  lemma {:induction false} SpacePrefixOf(a: string, b: string)
    requires AllRegexSpace(a)
    requires |b| > 0 ==> !IsRegexSpace(b[0])
    ensures SpacePrefix(a + b) == a
  {
    if |a| > 0 {
      assert (a + b)[1..] == a[1..] + b;
      SpacePrefixOf(a[1..], b);
    } else {
      assert a + b == b;
    }
  }

  /** The optional group (?:\.\d+), greedy; the rest of the input is returned alongside. */
  function MatchFraction(s: string): (r: Option<(Option<string>, string)>)
    ensures r.Some? ==> FractionText(r.value.0) + r.value.1 == s
    ensures r.Some? && r.value.0.Some? ==> |r.value.0.value| > 0 && AllDigits(r.value.0.value)
    ensures r.Some? && |r.value.1| > 0 ==> !IsDigit(r.value.1[0])
  {
    if |s| > 0 && s[0] == '.' then
      var f := DigitPrefix(s[1..]);
      if f == "" then None
      else
        assert s == "." + f + s[1 + |f|..];
        Some((Some(f), s[1 + |f|..]))
    else if |s| > 0 && IsDigit(s[0]) then None
    else Some((None, s))
  }

  /** \s*(UNIT)? up to the end of the input. */
  function MatchTail(s: string, units: seq<string>): (r: Option<(string, Option<string>)>)
    ensures r.Some? ==> AllRegexSpace(r.value.0) && r.value.0 + UnitText(r.value.1) == s
    ensures r.Some? && r.value.1.Some? ==> r.value.1.value in units
  {
    var space := SpacePrefix(s);
    var tail := s[|space|..];
    assert s == space + tail;
    if tail == "" then Some((space, None))
    else if tail in units then Some((space, Some(tail)))
    else None
  }

  lemma SpellParts(q: Quantity)
    ensures Spell(q) == q.whole + (FractionText(q.fraction) + (q.space + UnitText(q.unit)))
  {
  }

  /** Pieces read off the front of t, one after another, spell t back. */
  lemma MatchedSpelling(t: string, q: Quantity, rest: string)
    requires |q.whole| <= |t| && q.whole == t[..|q.whole|]
    requires FractionText(q.fraction) + rest == t[|q.whole|..]
    requires q.space + UnitText(q.unit) == rest
    ensures Spell(q) == t
  {
    SpellParts(q);
    assert t == q.whole + t[|q.whole|..];
  }

  /** Greedy matcher: maximal digits, an optional '.' with maximal digits, maximal whitespace, then a whole unit or nothing. */
  function MatchQuantity(t: string, units: seq<string>): (r: Option<Quantity>)
    ensures r.Some? ==> WellFormed(r.value, units) && Spell(r.value) == t
  {
    var whole := DigitPrefix(t);
    if |whole| == 0 then None
    else
      var afterWhole := MatchFraction(t[|whole|..]);
      if afterWhole.None? then None
      else
        var afterFraction := MatchTail(afterWhole.value.1, units);
        if afterFraction.None? then None
        else
          var q := Quantity(whole, afterWhole.value.0, afterFraction.value.0, afterFraction.value.1);
          MatchedSpelling(t, q, afterWhole.value.1);
          Some(q)
  }

  lemma MatchTailComplete(space: string, unit: Option<string>, units: seq<string>)
    requires Separable(units) && AllRegexSpace(space)
    requires unit.Some? ==> unit.value in units
    ensures MatchTail(space + UnitText(unit), units) == Some((space, unit))
  {
    SpacePrefixOf(space, UnitText(unit));
    assert (space + UnitText(unit))[|space|..] == UnitText(unit);
  }

  lemma MatchFractionComplete(fraction: Option<string>, rest: string)
    requires fraction.Some? ==> |fraction.value| > 0 && AllDigits(fraction.value)
    requires |rest| > 0 ==> !IsDigit(rest[0]) && rest[0] != '.'
    ensures MatchFraction(FractionText(fraction) + rest) == Some((fraction, rest))
  {
    if fraction.Some? {
      var f := fraction.value;
      assert (FractionText(fraction) + rest)[1..] == f + rest;
      DigitPrefixOf(f, rest);
      assert (FractionText(fraction) + rest)[1 + |f|..] == rest;
    } else {
      assert FractionText(fraction) + rest == rest;
    }
  }

  /** The matcher finds every full match, and reads it back the only way it can be read. */
  lemma MatchComplete(q: Quantity, units: seq<string>)
    requires Separable(units) && WellFormed(q, units)
    ensures MatchQuantity(Spell(q), units) == Some(q)
  {
    var tail := q.space + UnitText(q.unit);
    MatchTailComplete(q.space, q.unit, units);
    TailStart(q, units);
    MatchFractionComplete(q.fraction, tail);
    var afterWhole := FractionText(q.fraction) + tail;
    SpellParts(q);
    assert |afterWhole| > 0 ==> !IsDigit(afterWhole[0]);
    DigitPrefixOf(q.whole, afterWhole);
    assert Spell(q)[|q.whole|..] == afterWhole;
  }

  lemma TailStart(q: Quantity, units: seq<string>)
    requires Separable(units) && WellFormed(q, units)
    ensures var tail := q.space + UnitText(q.unit);
      |tail| > 0 ==> !IsDigit(tail[0]) && tail[0] != '.'
  {
    var tail := q.space + UnitText(q.unit);
    if |q.space| > 0 {
      assert tail[0] == q.space[0];
    } else if q.unit.Some? {
      assert tail[0] == q.unit.value[0];
    }
  }

  lemma MatchIff(t: string, units: seq<string>)
    requires Separable(units)
    ensures MatchQuantity(t, units).Some? <==> FullMatch(t, units)
  {
    if FullMatch(t, units) {
      var q :| WellFormed(q, units) && Spell(q) == t;
      MatchComplete(q, units);
    }
  }

  function Pow10(k: nat): (p: nat)
    ensures p >= 1
  {
    if k == 0 then 1 else 10 * Pow10(k - 1)
  }

  function FractionDigits(q: Quantity): string {
    if q.fraction.Some? then q.fraction.value else ""
  }

  /** The digits of group 1 read without the decimal point. */
  function Mantissa(q: Quantity): nat
    requires AllDigits(q.whole) && AllDigits(FractionDigits(q))
  {
    DigitsValue(q.whole) * Pow10(|FractionDigits(q)|) + DigitsValue(FractionDigits(q))
  }

  /** Double.parseDouble(group(1)), exactly. */
  function Value(q: Quantity): real
    requires AllDigits(q.whole) && AllDigits(FractionDigits(q))
  {
    Mantissa(q) as real / Pow10(|FractionDigits(q)|) as real
  }

  /** (long) (value * multiplier), computed on integers: the product is never negative. */
  function Scaled(q: Quantity, multiplier: nat): int
    requires AllDigits(q.whole) && AllDigits(FractionDigits(q))
  {
    Mantissa(q) * multiplier / Pow10(|FractionDigits(q)|)
  }

  /** Without a fraction nothing is divided: the count is the digits times the multiplier. */
  lemma ScaledWhole(q: Quantity, multiplier: nat)
    requires AllDigits(q.whole) && FractionDigits(q) == ""
    ensures Scaled(q, multiplier) == Mantissa(q) * multiplier
  {
    assert Pow10(|FractionDigits(q)|) == 1;
  }

  lemma ScaledNonNegative(q: Quantity, multiplier: nat)
    requires AllDigits(q.whole) && AllDigits(FractionDigits(q))
    ensures Scaled(q, multiplier) >= 0
  {
    var a, b := Mantissa(q), Pow10(|FractionDigits(q)|);
    MulNonNegative(a, multiplier);
    DivNonNegative(a * multiplier, b);
  }

  /** Scaled is the real product value * multiplier truncated toward zero. */
  lemma ScaledTruncates(q: Quantity, multiplier: nat)
    requires AllDigits(q.whole) && AllDigits(FractionDigits(q))
    ensures Scaled(q, multiplier) == TruncReal(Value(q) * multiplier as real)
  {
    TruncScaledFraction(Value(q), Mantissa(q), Pow10(|FractionDigits(q)|), multiplier);
  }

  function UnitOr(q: Quantity, default: string): string {
    if q.unit.Some? then q.unit.value else default
  }

  /** What parseByteSize does with the outcome of the match: group 2 or "B", looked up, then (long) (value * multiplier). */
  function SizeOfMatch(m: Option<Quantity>): (r: Result<int>)
    requires m.Some? ==> WellFormed(m.value, SIZE_UNITS)
    ensures r.Success? ==> r.value >= 0
    ensures r.Failure? ==> r.error == InvalidByteSizeFormat
  {
    match m
    case None => Failure(InvalidByteSizeFormat)
    case Some(q) =>
      var unit := UnitOr(q, "B");
      match IndexOf(SIZE_UNITS, unit)
      case None => Failure(UnknownSizeUnit)
      case Some(i) =>
        ScaledNonNegative(q, SIZE_MULTIPLIERS[i]);
        Success(Scaled(q, SIZE_MULTIPLIERS[i]))
  }

  /** parseByteSize: trim, upper-case, full match against SIZE_PATTERN, then evaluate. */
  function ParseByteSize(sizeStr: string): (r: Result<int>)
    ensures r.Success? ==> r.value >= 0
    ensures r.Failure? ==> r.error == InvalidByteSizeFormat
  {
    SizeOfMatch(MatchQuantity(ToUpperAscii(Trim(sizeStr)), SIZE_UNITS))
  }

  /** What parseTimeDuration does with the outcome of the match: group 2 or "ns", looked up, then (long) (value * multiplier). */
  function TimeOfMatch(m: Option<Quantity>): (r: Result<int>)
    requires m.Some? ==> WellFormed(m.value, TIME_UNITS)
    ensures r.Success? ==> r.value >= 0
    ensures r.Failure? ==> r.error == InvalidTimeDurationFormat
  {
    match m
    case None => Failure(InvalidTimeDurationFormat)
    case Some(q) =>
      var unit := UnitOr(q, "ns");
      match IndexOf(TIME_UNITS, unit)
      case None => Failure(UnknownTimeUnit)
      case Some(i) =>
        ScaledNonNegative(q, TIME_MULTIPLIERS[i]);
        Success(Scaled(q, TIME_MULTIPLIERS[i]))
  }

  /** parseTimeDuration: trim, lower-case, full match against TIME_PATTERN, then evaluate. */
  function ParseTimeDuration(durationStr: string): (r: Result<int>)
    ensures r.Success? ==> r.value >= 0
    ensures r.Failure? ==> r.error == InvalidTimeDurationFormat
  {
    TimeOfMatch(MatchQuantity(ToLowerAscii(Trim(durationStr)), TIME_UNITS))
  }

  /** convertBytes: bytes / multiplier of the upper-cased unit. */
  function ConvertBytes(bytes: int, toUnit: string): (r: Result<real>)
    ensures r.Success? <==> ToUpperAscii(toUnit) in SIZE_UNITS
    ensures r.Success? ==> r.value * SizeMultiplier(ToUpperAscii(toUnit)) as real == bytes as real
    ensures r.Failure? ==> r.error == InvalidByteUnit(ToUpperAscii(toUnit))
  {
    var u := ToUpperAscii(toUnit);
    match IndexOf(SIZE_UNITS, u)
    case None => Failure(InvalidByteUnit(u))
    case Some(i) => Success(bytes as real / SIZE_MULTIPLIERS[i] as real)
  }

  /** convertTime: nanos / multiplier of the lower-cased unit. */
  function ConvertTime(nanos: int, toUnit: string): (r: Result<real>)
    ensures r.Success? <==> ToLowerAscii(toUnit) in TIME_UNITS
    ensures r.Success? ==> r.value * TimeMultiplier(ToLowerAscii(toUnit)) as real == nanos as real
    ensures r.Failure? ==> r.error == InvalidTimeUnit(ToLowerAscii(toUnit))
  {
    var u := ToLowerAscii(toUnit);
    match IndexOf(TIME_UNITS, u)
    case None => Failure(InvalidTimeUnit(u))
    case Some(i) => Success(nanos as real / TIME_MULTIPLIERS[i] as real)
  }

  /* Properties of the two parsers and converters. */

  lemma SizeUnitsSeparable()
    ensures Separable(SIZE_UNITS)
  {
  }

  lemma TimeUnitsSeparable()
    ensures Separable(TIME_UNITS)
  {
  }

  /** Every size unit is upper-case and ends in a visible character. */
  lemma SizeUnitsUpper(u: string)
    requires u in SIZE_UNITS
    ensures NoLower(u) && |u| > 0 && !IsTrimmed(u[|u| - 1])
  {
    var i :| 0 <= i < |SIZE_UNITS| && SIZE_UNITS[i] == u;
    assert i == 0 || i == 1 || i == 2 || i == 3 || i == 4;
  }

  /** Every time unit is lower-case and ends in a visible character. */
  lemma TimeUnitsLower(u: string)
    requires u in TIME_UNITS
    ensures NoUpper(u) && |u| > 0 && !IsTrimmed(u[|u| - 1])
  {
    var i :| 0 <= i < |TIME_UNITS| && TIME_UNITS[i] == u;
    assert i == 0 || i == 1 || i == 2 || i == 3 || i == 4 || i == 5;
  }

  lemma SizeOfMatchValue(q: Quantity)
    requires WellFormed(q, SIZE_UNITS)
    ensures UnitOr(q, "B") in SIZE_UNITS
    ensures SizeOfMatch(Some(q)) == Success(Scaled(q, SizeMultiplier(UnitOr(q, "B"))))
  {
    var i := IndexOf(SIZE_UNITS, UnitOr(q, "B"));
    assert i.Some?;
    assert SizeOfMatch(Some(q)).Success?;
    assert SizeOfMatch(Some(q)).value == Scaled(q, SIZE_MULTIPLIERS[i.value]);
  }

  lemma TimeOfMatchValue(q: Quantity)
    requires WellFormed(q, TIME_UNITS)
    ensures UnitOr(q, "ns") in TIME_UNITS
    ensures TimeOfMatch(Some(q)) == Success(Scaled(q, TimeMultiplier(UnitOr(q, "ns"))))
  {
    var i := IndexOf(TIME_UNITS, UnitOr(q, "ns"));
    assert i.Some?;
    assert TimeOfMatch(Some(q)).Success?;
    assert TimeOfMatch(Some(q)).value == Scaled(q, TIME_MULTIPLIERS[i.value]);
  }

  /** parseByteSize succeeds exactly when the trimmed, upper-cased input fully matches SIZE_PATTERN. */
  lemma ParseByteSizeSucceedsIff(sizeStr: string)
    ensures ParseByteSize(sizeStr).Success? <==> FullMatch(ToUpperAscii(Trim(sizeStr)), SIZE_UNITS)
  {
    SizeUnitsSeparable();
    MatchIff(ToUpperAscii(Trim(sizeStr)), SIZE_UNITS);
  }

  /** parseTimeDuration succeeds exactly when the trimmed, lower-cased input fully matches TIME_PATTERN. */
  lemma ParseTimeDurationSucceedsIff(durationStr: string)
    ensures ParseTimeDuration(durationStr).Success? <==> FullMatch(ToLowerAscii(Trim(durationStr)), TIME_UNITS)
  {
    TimeUnitsSeparable();
    MatchIff(ToLowerAscii(Trim(durationStr)), TIME_UNITS);
  }

  /** A full match yields trunc(value * multiplier), the unit defaulting to "B". */
  lemma ParseByteSizeValue(sizeStr: string, q: Quantity)
    requires WellFormed(q, SIZE_UNITS) && Spell(q) == ToUpperAscii(Trim(sizeStr))
    ensures UnitOr(q, "B") in SIZE_UNITS
    ensures ParseByteSize(sizeStr) == Success(Scaled(q, SizeMultiplier(UnitOr(q, "B"))))
  {
    SizeUnitsSeparable();
    MatchComplete(q, SIZE_UNITS);
    SizeOfMatchValue(q);
  }

  /** A full match yields trunc(value * multiplier), the unit defaulting to "ns". */
  lemma ParseTimeDurationValue(durationStr: string, q: Quantity)
    requires WellFormed(q, TIME_UNITS) && Spell(q) == ToLowerAscii(Trim(durationStr))
    ensures UnitOr(q, "ns") in TIME_UNITS
    ensures ParseTimeDuration(durationStr) == Success(Scaled(q, TimeMultiplier(UnitOr(q, "ns"))))
  {
    TimeUnitsSeparable();
    MatchComplete(q, TIME_UNITS);
    TimeOfMatchValue(q);
  }

  /** Inputs that differ only in the case of ASCII letters parse alike. */
  lemma ParseByteSizeCaseInsensitive(s: string, s': string)
    requires ToUpperAscii(s) == ToUpperAscii(s')
    ensures ParseByteSize(s) == ParseByteSize(s')
  {
    TrimUpper(s);
    TrimUpper(s');
  }

  lemma ParseTimeDurationCaseInsensitive(s: string, s': string)
    requires ToLowerAscii(s) == ToLowerAscii(s')
    ensures ParseTimeDuration(s) == ParseTimeDuration(s')
  {
    TrimLower(s);
    TrimLower(s');
  }

  /** The quantity spelled by the digits of n, some whitespace, then unit u. */
  function Plain(n: nat, space: string, u: Option<string>): Quantity {
    Quantity(NatToDigits(n), None, space, u)
  }

  lemma PlainSpelling(n: nat, space: string, u: Option<string>)
    requires AllRegexSpace(space) && (u.Some? ==> |u.value| > 0 && !IsTrimmed(u.value[|u.value| - 1]))
    requires u.None? ==> space == ""
    ensures Trim(Spell(Plain(n, space, u))) == Spell(Plain(n, space, u))
    ensures FractionDigits(Plain(n, space, u)) == "" && Mantissa(Plain(n, space, u)) == n
  {
    var t := Spell(Plain(n, space, u));
    var d := NatToDigits(n);
    assert t[0] == d[0];
    if u.Some? {
      assert t[|t| - 1] == u.value[|u.value| - 1];
    } else {
      assert t == d;
    }
    TrimUntrimmable(t);
    DigitsRoundTrip(n);
  }

  lemma NatDigitsNoLetters(n: nat)
    ensures NoLower(NatToDigits(n)) && NoUpper(NatToDigits(n))
  {
  }

  lemma QuotientAsReal(a: nat, b: nat)
    requires b > 0
    ensures (a * b) as real / b as real == a as real
  {
    assert (a * b) as real == a as real * b as real;
  }

  lemma PlainCase(n: nat, space: string, u: string)
    requires AllRegexSpace(space)
    ensures NoLower(u) ==> ToUpperAscii(NatToDigits(n) + space + u) == NatToDigits(n) + space + u
    ensures NoUpper(u) ==> ToLowerAscii(NatToDigits(n) + space + u) == NatToDigits(n) + space + u
  {
  }

  lemma PlainSize(n: nat, space: string, u: string)
    requires u in SIZE_UNITS && AllRegexSpace(space)
    ensures ParseByteSize(NatToDigits(n) + space + u) == Success(n * SizeMultiplier(u))
  {
    var q := Plain(n, space, Some(u));
    var s := NatToDigits(n) + space + u;
    assert s == Spell(q);
    SizeUnitsUpper(u);
    PlainSpelling(n, space, Some(u));
    ScaledWhole(q, SizeMultiplier(u));
    PlainCase(n, space, u);
    ParseByteSizeValue(s, q);
  }

  lemma PlainTime(n: nat, space: string, u: string)
    requires u in TIME_UNITS && AllRegexSpace(space)
    ensures ParseTimeDuration(NatToDigits(n) + space + u) == Success(n * TimeMultiplier(u))
  {
    var q := Plain(n, space, Some(u));
    var s := NatToDigits(n) + space + u;
    assert s == Spell(q);
    TimeUnitsLower(u);
    PlainSpelling(n, space, Some(u));
    ScaledWhole(q, TimeMultiplier(u));
    PlainCase(n, space, u);
    ParseTimeDurationValue(s, q);
  }

  /** Round trip: n followed by any table unit parses to n * multiplier, which converts back to exactly n. */
  lemma SizeRoundTrip(n: nat, space: string, u: string)
    requires u in SIZE_UNITS && AllRegexSpace(space)
    ensures ParseByteSize(NatToDigits(n) + space + u) == Success(n * SizeMultiplier(u))
    ensures ConvertBytes(n * SizeMultiplier(u), u) == Success(n as real)
  {
    PlainSize(n, space, u);
    SizeUnitsUpper(u);
    UpperFixed(u);
    QuotientAsReal(n, SizeMultiplier(u));
  }

  lemma TimeRoundTrip(n: nat, space: string, u: string)
    requires u in TIME_UNITS && AllRegexSpace(space)
    ensures ParseTimeDuration(NatToDigits(n) + space + u) == Success(n * TimeMultiplier(u))
    ensures ConvertTime(n * TimeMultiplier(u), u) == Success(n as real)
  {
    PlainTime(n, space, u);
    TimeUnitsLower(u);
    LowerFixed(u);
    QuotientAsReal(n, TimeMultiplier(u));
  }

  /** A bare count is a well-formed quantity with no fraction and no unit, already trimmed and in either case. */
  lemma BareCount(n: nat, q: Quantity)
    requires q == Quantity(NatToDigits(n), None, [], None)
    ensures Spell(q) == NatToDigits(n) && FractionDigits(q) == "" && Mantissa(q) == n
    ensures Trim(NatToDigits(n)) == NatToDigits(n)
    ensures ToUpperAscii(NatToDigits(n)) == NatToDigits(n) && ToLowerAscii(NatToDigits(n)) == NatToDigits(n)
  {
    assert q == Plain(n, [], None);
    PlainSpelling(n, [], None);
    NatDigitsNoLetters(n);
    UpperFixed(NatToDigits(n));
    LowerFixed(NatToDigits(n));
  }

  lemma MissingSizeUnit(n: nat)
    ensures ParseByteSize(NatToDigits(n)) == Success(n)
  {
    var q := Quantity(NatToDigits(n), None, [], None);
    BareCount(n, q);
    SizeEntry(0, "B");
    ScaledWhole(q, 1);
    ParseByteSizeValue(NatToDigits(n), q);
  }

  lemma MissingTimeUnit(n: nat)
    ensures ParseTimeDuration(NatToDigits(n)) == Success(n)
  {
    var q := Quantity(NatToDigits(n), None, [], None);
    BareCount(n, q);
    TimeEntry(0, "ns");
    ScaledWhole(q, 1);
    ParseTimeDurationValue(NatToDigits(n), q);
  }

  /** A suffix that is not a table unit makes the match fail, whatever the case of the letters. */
  lemma UnknownSuffixRejected(n: nat, space: string, suffix: string, units: seq<string>)
    requires AllRegexSpace(space) && |suffix| > 0 && suffix !in units
    requires !IsDigit(suffix[0]) && suffix[0] != '.' && !IsRegexSpace(suffix[0])
    ensures MatchQuantity(NatToDigits(n) + space + suffix, units) == None
  {
    var t := NatToDigits(n) + space + suffix;
    var afterWhole := space + suffix;
    assert t == NatToDigits(n) + afterWhole;
    assert afterWhole[0] == if |space| > 0 then space[0] else suffix[0];
    DigitPrefixOf(NatToDigits(n), afterWhole);
    assert t[|NatToDigits(n)|..] == afterWhole;
    assert MatchFraction(afterWhole) == Some((None, afterWhole));
    SpacePrefixOf(space, suffix);
    assert afterWhole[|space|..] == suffix;
  }

  /** "5ZB" and "5x" fail with the format error; the unknown-unit error is never raised. */
  lemma UnknownSuffixIsFormatError()
    ensures ParseByteSize("5ZB") == Failure(InvalidByteSizeFormat)
    ensures ParseTimeDuration("5x") == Failure(InvalidTimeDurationFormat)
  {
    UnknownSizeSuffix("5ZB");
    UnknownTimeSuffix("5x");
  }

  lemma UnknownSizeSuffix(s: string)
    requires s == "5ZB"
    ensures ParseByteSize(s) == Failure(InvalidByteSizeFormat)
  {
    var none, suffix := s[..0], s[1..];
    assert NatToDigits(5) == [s[0]];
    TrimUntrimmable(s);
    UpperFixed(s);
    assert s == NatToDigits(5) + none + suffix;
    UnknownSuffixRejected(5, none, suffix, SIZE_UNITS);
  }

  lemma UnknownTimeSuffix(s: string)
    requires s == "5x"
    ensures ParseTimeDuration(s) == Failure(InvalidTimeDurationFormat)
  {
    var none, suffix := s[..0], s[1..];
    assert NatToDigits(5) == [s[0]];
    TrimUntrimmable(s);
    LowerFixed(s);
    assert s == NatToDigits(5) + none + suffix;
    UnknownSuffixRejected(5, none, suffix, TIME_UNITS);
  }

  /** "abcKB" has no leading digit and fails the match. */
  lemma NonNumericIsFormatError()
    ensures ParseByteSize("abcKB") == Failure(InvalidByteSizeFormat)
  {
    TrimUntrimmable("abcKB");
    assert ToUpperAscii("abcKB") == "ABCKB";
    assert DigitPrefix("ABCKB") == "";
  }

  lemma DigitsOfTwentyFive()
    ensures DigitsValue("2") == 2 && DigitsValue("5") == 5
  {
    assert "2"[..0] == "" && "5"[..0] == "";
  }

  /** The parts of "2.5 KB": the fraction is kept until the final truncation. */
  lemma FractionalParts(q: Quantity)
    requires q == Quantity("2", Some("5"), " ", Some("KB"))
    ensures WellFormed(q, SIZE_UNITS) && UnitOr(q, "B") == "KB"
    ensures Scaled(q, 1024) == 2560
  {
    DigitsOfTwentyFive();
    assert FractionDigits(q) == "5";
    assert Pow10(1) == 10;
    assert Mantissa(q) == 25;
  }

  lemma FractionalSpelling(q: Quantity, s: string)
    requires q == Quantity("2", Some("5"), " ", Some("KB")) && s == "2.5 KB"
    ensures Spell(q) == s && ToUpperAscii(Trim(s)) == s
  {
    TrimUntrimmable(s);
    UpperFixed(s);
  }

  /** "2.5 KB" is 2560 bytes. */
  lemma FractionalSize(s: string)
    requires s == "2.5 KB"
    ensures ParseByteSize(s) == Success(2560)
  {
    var q := Quantity("2", Some("5"), " ", Some("KB"));
    FractionalSpelling(q, s);
    FractionalParts(q);
    ParseByteSizeValue(s, q);
    SizeMultiplierValues();
  }

  /** A unit may be written in any case: the input is lower-cased before the match. */
  lemma TimeUnitAnyCase(n: nat, u: string, written: string)
    requires u in TIME_UNITS && ToLowerAscii(written) == u
    ensures ParseTimeDuration(NatToDigits(n) + written) == Success(n * TimeMultiplier(u))
  {
    var d := NatToDigits(n);
    PlainTimeNoSpace(n, u);
    DigitsThenLower(d, written, u);
    ParseTimeDurationCaseInsensitive(d + written, d + u);
  }

  lemma NoSpace(d: string, space: string, u: string)
    requires space == []
    ensures d + space + u == d + u
  {
  }

  lemma PlainSizeNoSpace(n: nat, u: string)
    requires u in SIZE_UNITS
    ensures ParseByteSize(NatToDigits(n) + u) == Success(n * SizeMultiplier(u))
  {
    var none := u[..0];
    PlainSize(n, none, u);
    NoSpace(NatToDigits(n), none, u);
  }

  lemma PlainTimeNoSpace(n: nat, u: string)
    requires u in TIME_UNITS
    ensures ParseTimeDuration(NatToDigits(n) + u) == Success(n * TimeMultiplier(u))
  {
    var none := u[..0];
    PlainTime(n, none, u);
    NoSpace(NatToDigits(n), none, u);
  }

  lemma DigitsThenLower(d: string, written: string, u: string)
    requires AllDigits(d) && u in TIME_UNITS && ToLowerAscii(written) == u
    ensures ToLowerAscii(d + written) == ToLowerAscii(d + u)
  {
    assert NoUpper(d);
    LowerFixed(d);
    TimeUnitsLower(u);
    LowerFixed(u);
    LowerConcat(d, written);
    LowerConcat(d, u);
  }

  /** The time input is lower-cased first, so "5M" is five minutes: an upper-case "M" is the minute unit. */
  lemma UpperCaseMinutes(n: nat)
    ensures ParseTimeDuration(NatToDigits(n) + "M") == Success(n * 60_000_000_000)
  {
    TimeEntry(4, "m");
    assert ToLowerAscii("M") == "m";
    TimeUnitAnyCase(n, "m", "M");
  }
}
