/**
 * The ByteSize token: a narrower, older parser of sizes such as "10KB".
 * It recognises only the suffixes KB, MB and GB, strips every occurrence of
 * the suffix with String.replace, reads the rest with Long.parseLong and
 * multiplies in 64-bit arithmetic.
 */
module ByteSizeToken {
  import opened Results
  import opened JavaText
  import opened JavaNumbers
  import UnitParser

  /** The token: a byte count fixed once when it is built. */
  datatype ByteSize = ByteSize(bytes: int)
  {
    /** getBytes(). */
    function GetBytes(): int {
      bytes
    }
  }

  /** Long.parseLong(body) * 1024, repeated `times` times, each step in long arithmetic. */
  function Scale(n: int, times: nat): (r: int)
    requires InLongRange(n)
    ensures InLongRange(r)
  {
    if times == 0 then n else Wrap64(Scale(n, times - 1) * 1024)
  }

  function Power1024(times: nat): (p: nat)
    ensures p >= 1
  {
    if times == 0 then 1 else 1024 * Power1024(times - 1)
  }

  /** Scaling step by step wraps to the same long as one exact multiplication. */
  lemma {:induction false} ScaleIsWrappedProduct(n: int, times: nat)
    requires InLongRange(n)
    ensures Scale(n, times) == Wrap64(n * Power1024(times))
  {
    if times > 0 {
      var p := Power1024(times - 1);
      ScaleIsWrappedProduct(n, times - 1);
      WrapMul(n * p, 1024);
      Regroup(n, p);
    }
  }

  lemma Regroup(n: int, p: int)
    ensures n * p * 1024 == n * (1024 * p)
  {
  }

  /** The body left by replace(suffix, ""), parsed and scaled. */
  function Suffixed(s: string, suffix: string, times: nat): (r: Result<int>)
    requires |suffix| > 0
    ensures r.Success? ==> InLongRange(r.value)
    ensures r.Failure? ==> r.error == NumberFormat
  {
    var n :- ParseLong(RemoveAll(s, suffix));
    Success(Scale(n, times))
  }

  /** parseByteSize(input): trim, upper-case, then the suffix tests. */
  function ParseByteSize(input: string): (r: Result<int>)
    ensures r.Success? ==> InLongRange(r.value)
    ensures r.Failure? ==> r.error == NumberFormat
  {
    ParseUpper(ToUpperAscii(Trim(input)))
  }

  /** The chain of endsWith tests on the trimmed, upper-cased input; the first that holds decides. */
  function ParseUpper(s: string): (r: Result<int>)
    ensures r.Success? ==> InLongRange(r.value)
    ensures r.Failure? ==> r.error == NumberFormat
  {
    if EndsWith(s, "KB") then Suffixed(s, "KB", 1)
    else if EndsWith(s, "MB") then Suffixed(s, "MB", 2)
    else if EndsWith(s, "GB") then Suffixed(s, "GB", 3)
    else ParseLong(s)
  }

  /** new ByteSize(value): the constructor throws when parsing fails, and otherwise getBytes() returns the parsed count. */
  function NewByteSize(value: string): (r: Result<ByteSize>)
    ensures r.Success? <==> ParseByteSize(value).Success?
    ensures r.Success? ==> r.value.GetBytes() == ParseByteSize(value).value
    ensures r.Failure? ==> r.error == NumberFormat
  {
    var bytes :- ParseByteSize(value);
    Success(ByteSize(bytes))
  }

  /** Case does not matter: upper- or lower-casing the input first changes nothing. */
  lemma CaseInsensitive(input: string)
    ensures ParseByteSize(ToLowerAscii(input)) == ParseByteSize(input)
    ensures ParseByteSize(ToUpperAscii(input)) == ParseByteSize(input)
  {
    TrimLower(input);
    UpperAfterLower(Trim(input));
    TrimUpper(input);
    UpperAfterUpper(Trim(input));
  }

  lemma UpperAfterUpper(s: string)
    ensures ToUpperAscii(ToUpperAscii(s)) == ToUpperAscii(s)
  {
  }

  /** Long.toString(n) followed by a letter suffix is already trimmed and upper-case. */
  lemma Normalised(n: int, suffix: string)
    requires |suffix| > 0 && NoLower(suffix) && !IsTrimmed(suffix[|suffix| - 1])
    ensures ToUpperAscii(Trim(IntToString(n) + suffix)) == IntToString(n) + suffix
  {
    var s := IntToString(n) + suffix;
    IntToStringChars(n);
    assert s[0] == IntToString(n)[0];
    TrimUntrimmable(s);
    assert NoLower(s) by {
      forall i | 0 <= i < |s|
        ensures !('a' <= s[i] <= 'z')
      {
        if i >= |IntToString(n)| {
          assert s[i] == suffix[i - |IntToString(n)|];
        }
      }
    }
    UpperFixed(s);
  }

  /** replace(suffix, "") on Long.toString(n) + suffix gives back Long.toString(n). */
  lemma Stripped(n: int, suffix: string)
    requires |suffix| > 0 && !IsDigit(suffix[0]) && suffix[0] != '-'
    ensures RemoveAll(IntToString(n) + suffix, suffix) == IntToString(n)
  {
    IntToStringChars(n);
    RemoveAllSkips(IntToString(n), suffix, suffix);
    RemoveAllSelf(suffix);
    assert IntToString(n) + "" == IntToString(n);
  }

  /** An input ending in "KB", "MB" or "GB" goes to the matching branch. */
  lemma Dispatch(s: string, suffix: string, times: nat)
    requires (suffix, times) in {("KB", 1), ("MB", 2), ("GB", 3)}
    requires |s| >= 2 && s[|s| - 2..] == suffix
    ensures ParseUpper(s) == Suffixed(s, suffix, times)
  {
  }

  /** A suffixed count: "nKB", "nMB" and "nGB" give n times 1024, 1024^2 and 1024^3, wrapped to a long. */
  lemma SuffixValue(n: int, suffix: string, times: nat)
    requires InLongRange(n)
    requires (suffix, times) in {("KB", 1), ("MB", 2), ("GB", 3)}
    ensures ParseByteSize(IntToString(n) + suffix) == Success(Wrap64(n * Power1024(times)))
  {
    var s := IntToString(n) + suffix;
    Normalised(n, suffix);
    assert s[|s| - 2..] == suffix;
    Dispatch(s, suffix, times);
    Stripped(n, suffix);
    ParseLongToString(n);
    ScaleIsWrappedProduct(n, times);
  }

  /** Without overflow the suffixed count is exact: 10KB is 10240 bytes. */
  lemma SuffixValueExact(n: int, suffix: string, times: nat)
    requires (suffix, times) in {("KB", 1), ("MB", 2), ("GB", 3)}
    requires InLongRange(n * Power1024(times))
    ensures ParseByteSize(IntToString(n) + suffix) == Success(n * Power1024(times))
  {
    assert InLongRange(n) by {
      if n > 0 {
        assert n <= n * Power1024(times);
      } else if n < 0 {
        assert n * Power1024(times) <= n;
      }
    }
    SuffixValue(n, suffix, times);
  }

  lemma PowerValues()
    ensures Power1024(1) == 1024 && Power1024(2) == 1024 * 1024 && Power1024(3) == 1024 * 1024 * 1024
  {
  }

  /** Input with no recognised suffix is a plain long count of bytes. */
  lemma PlainCount(n: int)
    requires InLongRange(n)
    ensures ParseByteSize(IntToString(n)) == Success(n)
  {
    var s := IntToString(n);
    IntToStringChars(n);
    TrimUntrimmable(s);
    UpperFixed(s);
    DispatchPlain(s);
    ParseLongToString(n);
  }

  /** Input ending in a digit passes every suffix test and is read as a long. */
  lemma DispatchPlain(s: string)
    requires |s| > 0 && IsDigit(s[|s| - 1])
    ensures ParseUpper(s) == ParseLong(s)
  {
    NotEndsWith(s, "KB");
    NotEndsWith(s, "MB");
    NotEndsWith(s, "GB");
  }

  /** Any normalised input ending in "B" but not in "KB", "MB" or "GB" (so "B" or "TB") is a number-format error. */
  lemma BareBRejected(input: string)
    requires EndsWith(ToUpperAscii(Trim(input)), "B")
    requires !EndsWith(ToUpperAscii(Trim(input)), "KB")
    requires !EndsWith(ToUpperAscii(Trim(input)), "MB")
    requires !EndsWith(ToUpperAscii(Trim(input)), "GB")
    ensures ParseByteSize(input) == Failure(NumberFormat)
  {
    var s := ToUpperAscii(Trim(input));
    assert s[|s| - 1] == 'B';
  }

  /** In particular "nB" and "nTB" are rejected, although the unit parser accepts both. */
  lemma ByteAndTerabyteRejected(n: int)
    ensures ParseByteSize(IntToString(n) + "B") == Failure(NumberFormat)
    ensures ParseByteSize(IntToString(n) + "TB") == Failure(NumberFormat)
  {
    ByteRejected(n, "B");
    TerabyteRejected(n, "TB");
  }

  lemma ByteRejected(n: int, u: string)
    requires u == "B"
    ensures ParseByteSize(IntToString(n) + u) == Failure(NumberFormat)
  {
    IntToStringChars(n);
    var d := IntToString(n);
    Normalised(n, u);
    var b := d + u;
    assert b[|b| - 1] == 'B' && b[|b| - 2] == d[|d| - 1];
    BareBRejected(b);
  }

  lemma TerabyteRejected(n: int, u: string)
    requires u == "TB"
    ensures ParseByteSize(IntToString(n) + u) == Failure(NumberFormat)
  {
    var d := IntToString(n);
    Normalised(n, u);
    var t := d + u;
    assert t[|t| - 1] == 'B' && t[|t| - 2] == 'T';
    BareBRejected(t);
  }

  /** A fractional body is not a long: "n.5KB" is a number-format error. */
  lemma FractionRejected(n: int)
    ensures ParseByteSize(IntToString(n) + ".5KB") == Failure(NumberFormat)
  {
    var d := IntToString(n);
    var body := d + ".5";
    var k := "KB";
    var s := body + k;
    assert d + ".5KB" == s;
    Normalised(n, ".5KB");
    assert RemoveAll(s, k) == body by {
      IntToStringChars(n);
      assert forall i :: 0 <= i < |body| ==> body[i] != 'K';
      RemoveAllSkips(body, k, k);
      RemoveAllSelf(k);
      assert body + "" == body;
    }
    assert ParseLong(body).Failure? by {
      assert body[|body| - 2] == '.';
      assert !AllDigits(body) && !AllDigits(body[1..]);
    }
    assert s[|s| - 2..] == k;
    KiloBranch(s);
  }

  /** A normalised input ending in "KB" takes the kilobyte branch. */
  lemma KiloBranch(s: string)
    requires ToUpperAscii(Trim(s)) == s && |s| >= 2 && s[|s| - 2..] == "KB"
    ensures ParseByteSize(s) == Suffixed(s, "KB", 1)
  {
    Dispatch(s, "KB", 1);
  }

  /** replace removes both copies of the suffix in a + suffix + b + suffix, and the one copy in a + b + suffix. */
  lemma RemoveBoth(a: string, b: string, suffix: string)
    requires AllDigits(a) && AllDigits(b)
    requires |suffix| > 0 && !IsDigit(suffix[0])
    ensures RemoveAll(a + suffix + b + suffix, suffix) == a + b
    ensures RemoveAll(a + b + suffix, suffix) == a + b
  {
    RemoveAllSelf(suffix);
    RemoveAllSkips(b, suffix, suffix);
    assert RemoveAll(b + suffix, suffix) == b by {
      assert b + "" == b;
    }
    RemoveAllFront(b + suffix, suffix);
    assert a + suffix + b + suffix == a + (suffix + (b + suffix));
    RemoveAllSkips(a, suffix + (b + suffix), suffix);
    RemoveAllSkips(a + b, suffix, suffix);
    assert a + b + "" == a + b;
  }

  /** Every occurrence of the suffix is removed, so the digits on both sides of an inner "KB" are joined. */
  lemma InnerSuffixRemoved(a: string, b: string)
    requires AllDigits(a) && AllDigits(b) && |b| > 0
    ensures ParseByteSize(a + "KB" + b + "KB") == ParseByteSize(a + b + "KB")
  {
    var k := "KB";
    var s := a + k + b + k;
    var t := a + b + k;
    DigitsNormalised(s);
    DigitsNormalised(t);
    RemoveBoth(a, b, k);
    KiloBranch(s);
    KiloBranch(t);
  }

  /** Upper-case text that starts with a visible character and ends in "B", are already trimmed and upper-case. */
  lemma DigitsNormalised(s: string)
    requires |s| > 0 && !IsTrimmed(s[0]) && s[|s| - 1] == 'B' && NoLower(s)
    ensures ToUpperAscii(Trim(s)) == s
  {
    TrimUntrimmable(s);
    UpperFixed(s);
  }

  /** "1KB2KB" is 12 * 1024 bytes. */
  lemma RepeatedSuffix(s: string)
    requires s == "1KB2KB"
    ensures ParseByteSize(s) == Success(12 * 1024)
  {
    var a, b := [s[0]], [s[3]];
    assert s == a + "KB" + b + "KB";
    InnerSuffixRemoved(a, b);
    TwelveSpelled(a, b);
    SuffixValueExact(12, "KB", 1);
  }

  lemma TwelveSpelled(a: string, b: string)
    requires a == ['1'] && b == ['2']
    ensures a + b == IntToString(12)
  {
    assert NatToDigits(12) == NatToDigits(1) + [DigitChar(2)];
  }

  /** Signed bodies are accepted: "-5KB" is -5120 bytes. */
  lemma NegativeSize(s: string)
    requires s == "-5KB"
    ensures ParseByteSize(s) == Success(-5120)
  {
    var k := s[2..];
    assert s == IntToString(-5) + k;
    SuffixValueExact(-5, k, 1);
  }

  /**
   * Where the two size parsers meet: on "nKB", "nMB" and "nGB" with a
   * non-negative n whose product fits a long they agree, while on "nTB",
   * "nB", a fraction or a sign they part ways.
   */
  lemma AgreesWithUnitParser(n: nat, suffix: string, times: nat)
    requires (suffix, times) in {("KB", 1), ("MB", 2), ("GB", 3)}
    requires InLongRange(n * Power1024(times))
    ensures ParseByteSize(NatToDigits(n) + suffix) == UnitParser.ParseByteSize(NatToDigits(n) + suffix)
  {
    SuffixValueExact(n, suffix, times);
    assert IntToString(n) == NatToDigits(n);
    MultiplierIsPower(suffix, times);
    UnitParser.PlainSizeNoSpace(n, suffix);
  }

  /** The suffixes this token knows are units of the unit parser, with the same multipliers. */
  lemma MultiplierIsPower(suffix: string, times: nat)
    requires (suffix, times) in {("KB", 1), ("MB", 2), ("GB", 3)}
    ensures suffix in UnitParser.SIZE_UNITS && UnitParser.SizeMultiplier(suffix) == Power1024(times)
  {
    UnitParser.SizeMultiplierValues();
    PowerValues();
    if times == 1 {
      assert suffix == "KB";
    } else if times == 2 {
      assert suffix == "MB";
    } else {
      assert suffix == "GB";
    }
  }

  lemma DivergesFromUnitParser(n: nat)
    ensures ParseByteSize(NatToDigits(n) + "TB").Failure?
    ensures UnitParser.ParseByteSize(NatToDigits(n) + "TB").Success?
    ensures ParseByteSize(NatToDigits(n) + "B").Failure?
    ensures UnitParser.ParseByteSize(NatToDigits(n) + "B").Success?
  {
    DivergesAt(n, "TB");
    DivergesAt(n, "B");
  }

  lemma DivergesAt(n: nat, u: string)
    requires u == "TB" || u == "B"
    ensures ParseByteSize(NatToDigits(n) + u).Failure?
    ensures UnitParser.ParseByteSize(NatToDigits(n) + u).Success?
  {
    TokenRejects(n, u);
    UnitParserAccepts(n, u);
  }

  lemma TokenRejects(n: nat, u: string)
    requires u == "TB" || u == "B"
    ensures ParseByteSize(NatToDigits(n) + u).Failure?
  {
    assert IntToString(n) == NatToDigits(n);
    if u == "B" {
      ByteRejected(n, u);
    } else {
      TerabyteRejected(n, u);
    }
  }

  lemma UnitParserAccepts(n: nat, u: string)
    requires u == "TB" || u == "B"
    ensures UnitParser.ParseByteSize(NatToDigits(n) + u).Success?
  {
    assert u == UnitParser.SIZE_UNITS[0] || u == UnitParser.SIZE_UNITS[4];
    UnitParser.PlainSizeNoSpace(n, u);
  }
}
