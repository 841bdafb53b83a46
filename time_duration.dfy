/**
 * The TimeDuration token: a narrower, older parser of durations such as
 * "500ms". It recognises only the suffixes ms, s and m (tested in that
 * order), strips every occurrence of the suffix with String.replace, reads
 * the rest with Long.parseLong and scales to milliseconds in 64-bit
 * arithmetic.
 */
module TimeDurationToken {
  import opened Results
  import opened JavaText
  import opened JavaNumbers
  import UnitParser

  /** The token: a millisecond count fixed once when it is built. */
  datatype TimeDuration = TimeDuration(millis: int)
  {
    /** getMillis(). */
    function GetMillis(): int {
      millis
    }
  }

  /** The body left by replace(suffix, ""), parsed and multiplied by each factor in turn, in long arithmetic. */
  function Suffixed(s: string, suffix: string, factors: seq<int>): (r: Result<int>)
    requires |suffix| > 0
    ensures r.Success? ==> InLongRange(r.value)
    ensures r.Failure? ==> r.error == NumberFormat
  {
    var n :- ParseLong(RemoveAll(s, suffix));
    Success(MultiplyAll(n, factors))
  }

  /** n * f1 * f2 * ..., left to right, each product wrapped to a long. */
  function MultiplyAll(n: int, factors: seq<int>): (r: int)
    requires InLongRange(n)
    ensures InLongRange(r)
    decreases |factors|
  {
    if |factors| == 0 then n else MultiplyAll(Wrap64(n * factors[0]), factors[1..])
  }

  /** parseTime(input): trim, lower-case, then the suffix tests. */
  function ParseTime(input: string): (r: Result<int>)
    ensures r.Success? ==> InLongRange(r.value)
    ensures r.Failure? ==> r.error == NumberFormat
  {
    ParseLower(ToLowerAscii(Trim(input)))
  }

  /** The chain of endsWith tests on the trimmed, lower-cased input; the first that holds decides. */
  function ParseLower(s: string): (r: Result<int>)
    ensures r.Success? ==> InLongRange(r.value)
    ensures r.Failure? ==> r.error == NumberFormat
  {
    if EndsWith(s, "ms") then Suffixed(s, "ms", [])
    else if EndsWith(s, "s") then Suffixed(s, "s", [1000])
    else if EndsWith(s, "m") then Suffixed(s, "m", [60, 1000])
    else ParseLong(s)
  }

  /** new TimeDuration(value): the constructor throws when parsing fails, and otherwise getMillis() returns the parsed count. */
  function NewTimeDuration(value: string): (r: Result<TimeDuration>)
    ensures r.Success? <==> ParseTime(value).Success?
    ensures r.Success? ==> r.value.GetMillis() == ParseTime(value).value
    ensures r.Failure? ==> r.error == NumberFormat
  {
    var millis :- ParseTime(value);
    Success(TimeDuration(millis))
  }

  lemma LowerAfterLower(s: string)
    ensures ToLowerAscii(ToLowerAscii(s)) == ToLowerAscii(s)
  {
  }

  /** Case does not matter: upper- or lower-casing the input first changes nothing. */
  lemma CaseInsensitive(input: string)
    ensures ParseTime(ToLowerAscii(input)) == ParseTime(input)
    ensures ParseTime(ToUpperAscii(input)) == ParseTime(input)
  {
    TrimLower(input);
    LowerAfterLower(Trim(input));
    TrimUpper(input);
    LowerAfterUpper(Trim(input));
  }

  /** Long.toString(n) followed by a letter suffix is already trimmed and lower-case. */
  lemma Normalised(n: int, suffix: string)
    requires |suffix| > 0 && NoUpper(suffix) && !IsTrimmed(suffix[|suffix| - 1])
    ensures ToLowerAscii(Trim(IntToString(n) + suffix)) == IntToString(n) + suffix
  {
    var s := IntToString(n) + suffix;
    IntToStringChars(n);
    assert s[0] == IntToString(n)[0];
    TrimUntrimmable(s);
    assert NoUpper(s) by {
      forall i | 0 <= i < |s|
        ensures !('A' <= s[i] <= 'Z')
      {
        if i >= |IntToString(n)| {
          assert s[i] == suffix[i - |IntToString(n)|];
        }
      }
    }
    LowerFixed(s);
  }

  /** replace(suffix, "") on Long.toString(n) + suffix gives back Long.toString(n). */
  lemma Stripped(n: int, suffix: string)
    requires |suffix| > 0 && !IsDigit(suffix[0]) && suffix[0] != '-'
    ensures RemoveAll(IntToString(n) + suffix, suffix) == IntToString(n)
  {
    IntToStringChars(n);
    RemoveAllSkips(IntToString(n), suffix, suffix);
    RemoveAllSelf(suffix);
    assert IntToString(n) + "" == IntToString(n);
  }

  /** The branch the suffix tests choose, by the last one or two characters. */
  lemma DispatchMillis(s: string)
    requires |s| >= 2 && s[|s| - 2..] == "ms"
    ensures ParseLower(s) == Suffixed(s, "ms", [])
  {
  }

  lemma DispatchSeconds(s: string)
    requires |s| >= 2 && s[|s| - 1] == 's' && s[|s| - 2] != 'm'
    ensures ParseLower(s) == Suffixed(s, "s", [1000])
  {
    assert s[|s| - 1..] == "s";
  }

  lemma DispatchMinutes(s: string)
    requires |s| >= 2 && s[|s| - 1] == 'm'
    ensures ParseLower(s) == Suffixed(s, "m", [60, 1000])
  {
    assert s[|s| - 1..] == "m";
  }

  /** "nms" is n milliseconds: the "ms" test comes before the "s" test, so "5ms" is 5 and not 5000. */
  lemma MillisValue(n: int)
    requires InLongRange(n)
    ensures ParseTime(IntToString(n) + "ms") == Success(n)
  {
    var s := IntToString(n) + "ms";
    Normalised(n, "ms");
    assert s[|s| - 2..] == "ms";
    DispatchMillis(s);
    Stripped(n, "ms");
    ParseLongToString(n);
  }

  /** "ns" is n seconds, n * 1000 milliseconds wrapped to a long. */
  lemma SecondsValue(n: int)
    requires InLongRange(n)
    ensures ParseTime(IntToString(n) + "s") == Success(Wrap64(n * 1000))
  {
    var s := IntToString(n) + "s";
    Normalised(n, "s");
    IntToStringChars(n);
    assert s[|s| - 1] == 's' && s[|s| - 2] == IntToString(n)[|IntToString(n)| - 1];
    DispatchSeconds(s);
    Stripped(n, "s");
    ParseLongToString(n);
    assert [1000][1..] == [];
  }

  lemma MinutesProduct(n: int)
    requires InLongRange(n)
    ensures MultiplyAll(n, [60, 1000]) == Wrap64(n * 60_000)
  {
    assert [60, 1000][1..] == [1000];
    assert [1000][1..] == [];
    WrapMul(n * 60, 1000);
  }

  /** "nm" is n minutes, n * 60 * 1000 milliseconds; wrapping after each step equals wrapping the whole product. */
  lemma MinutesValue(n: int)
    requires InLongRange(n)
    ensures ParseTime(IntToString(n) + "m") == Success(Wrap64(n * 60_000))
  {
    var s := IntToString(n) + "m";
    Normalised(n, "m");
    IntToStringChars(n);
    assert s[|s| - 1] == 'm';
    DispatchMinutes(s);
    Stripped(n, "m");
    ParseLongToString(n);
    MinutesProduct(n);
  }

  /** Input with no suffix is a plain long count of milliseconds. */
  lemma PlainMillis(n: int)
    requires InLongRange(n)
    ensures ParseTime(IntToString(n)) == Success(n)
  {
    var s := IntToString(n);
    IntToStringChars(n);
    TrimUntrimmable(s);
    LowerFixed(s);
    DispatchPlain(s);
    ParseLongToString(n);
  }

  /** Input ending in a digit passes every suffix test and is read as a long. */
  lemma DispatchPlain(s: string)
    requires |s| > 0 && IsDigit(s[|s| - 1])
    ensures ParseLower(s) == ParseLong(s)
  {
    NotEndsWith(s, "ms");
    NotEndsWith(s, "s");
    NotEndsWith(s, "m");
  }

  /** The suffix and the millisecond factor of each supported unit. */
  function Factor(suffix: string): (f: int)
    requires suffix in {"ms", "s", "m"}
    ensures f in {1, 1000, 60_000}
  {
    if suffix == "ms" then 1 else if suffix == "s" then 1000 else 60_000
  }

  /** Without overflow the suffixed count is exact. */
  lemma SuffixValueExact(n: int, suffix: string)
    requires suffix in {"ms", "s", "m"}
    requires InLongRange(n * Factor(suffix))
    ensures ParseTime(IntToString(n) + suffix) == Success(n * Factor(suffix))
  {
    assert InLongRange(n) by {
      if n > 0 {
        assert n <= n * Factor(suffix);
      } else if n < 0 {
        assert n * Factor(suffix) <= n;
      }
    }
    if suffix == "ms" {
      MillisValue(n);
    } else if suffix == "s" {
      SecondsValue(n);
    } else {
      MinutesValue(n);
    }
  }

  /** "nh" ends in no supported suffix and is not a long, so it is a number-format error. */
  lemma HoursRejected(n: int)
    ensures ParseTime(IntToString(n) + "h") == Failure(NumberFormat)
  {
    var s := IntToString(n) + "h";
    Normalised(n, "h");
    assert s[|s| - 1] == 'h';
    NotEndsWith(s, "ms");
    NotEndsWith(s, "s");
    NotEndsWith(s, "m");
  }

  /** replace("s", "") on Long.toString(n) + c + "s" leaves Long.toString(n) + c, when c is not 's'. */
  lemma StrippedBefore(n: int, c: char)
    requires c != 's'
    ensures RemoveAll(IntToString(n) + [c] + "s", "s") == IntToString(n) + [c]
  {
    IntToStringChars(n);
    var d := IntToString(n) + [c];
    assert forall i :: 0 <= i < |d| ==> d[i] != 's';
    RemoveAllSkips(d, "s", "s");
    RemoveAllSelf("s");
    assert d + "" == d;
  }

  /** "nus" and "nns" end in "s" but not "ms": stripping "s" leaves "nu" or "nn", which is not a long. */
  lemma SubMillisRejected(n: int, c: char)
    requires c == 'u' || c == 'n'
    ensures ParseTime(IntToString(n) + [c] + "s") == Failure(NumberFormat)
  {
    var s := IntToString(n) + [c] + "s";
    assert s == IntToString(n) + ([c] + "s");
    Normalised(n, [c] + "s");
    IntToStringChars(n);
    StrippedBefore(n, c);
    assert s[|s| - 1] == 's' && s[|s| - 2] == c;
    DispatchSeconds(s);
    var body := IntToString(n) + [c];
    assert body[|body| - 1] == c;
  }

  lemma NanosPerMilli(n: nat, suffix: string)
    requires suffix in {"ms", "s", "m"}
    ensures suffix in UnitParser.TIME_UNITS
    ensures n * UnitParser.TimeMultiplier(suffix) == 1_000_000 * (n * Factor(suffix))
  {
    if suffix == "ms" {
      UnitParser.TimeEntry(2, suffix);
    } else if suffix == "s" {
      UnitParser.TimeEntry(3, suffix);
    } else {
      UnitParser.TimeEntry(4, suffix);
    }
  }

  /**
   * The two duration parsers agree up to the canonical unit: on "nms", "ns"
   * and "nm" with a non-negative n that does not overflow, the unit parser's
   * nanoseconds are exactly a million times these milliseconds.
   */
  lemma AgreesWithUnitParser(n: nat, suffix: string)
    requires suffix in {"ms", "s", "m"}
    requires InLongRange(n * Factor(suffix))
    ensures ParseTime(NatToDigits(n) + suffix).Success?
    ensures UnitParser.ParseTimeDuration(NatToDigits(n) + suffix)
         == Success(1_000_000 * ParseTime(NatToDigits(n) + suffix).value)
  {
    SuffixValueExact(n, suffix);
    NanosPerMilli(n, suffix);
    UnitParser.PlainTimeNoSpace(n, suffix);
  }

  /** Hours are accepted by the unit parser only. */
  lemma HoursDiverge(n: nat)
    ensures ParseTime(NatToDigits(n) + "h").Failure?
    ensures UnitParser.ParseTimeDuration(NatToDigits(n) + "h").Success?
  {
    HoursRejected(n);
    UnitParser.TimeEntry(5, "h");
    UnitParser.PlainTimeNoSpace(n, "h");
  }

  /** Microseconds and nanoseconds are accepted by the unit parser only. */
  lemma SubMillisDiverge(n: nat, c: char)
    requires c == 'u' || c == 'n'
    ensures ParseTime(NatToDigits(n) + [c] + "s").Failure?
    ensures UnitParser.ParseTimeDuration(NatToDigits(n) + [c] + "s").Success?
  {
    SubMillisRejected(n, c);
    SubMillisAccepted(n, c);
  }

  lemma SubMillisAccepted(n: nat, c: char)
    requires c == 'u' || c == 'n'
    ensures UnitParser.ParseTimeDuration(NatToDigits(n) + [c] + "s").Success?
  {
    var u := [c] + "s";
    if c == 'u' {
      UnitParser.TimeEntry(1, u);
    } else {
      UnitParser.TimeEntry(0, u);
    }
    ConcatAssoc(NatToDigits(n), [c], "s");
    UnitParser.PlainTimeNoSpace(n, u);
  }
}
