/**
 * The parts of java.lang.String and java.util.regex that the parsers rely on:
 * ASCII digits, the regex class \s, ASCII case mapping, trim(), endsWith()
 * and replace(target, "").
 */
module JavaText {

  predicate IsDigit(c: char) {
    '0' <= c <= '9'
  }

  predicate AllDigits(s: string) {
    forall i :: 0 <= i < |s| ==> IsDigit(s[i])
  }

  function DigitValue(c: char): (d: nat)
    requires IsDigit(c)
    ensures d < 10
  {
    c as int - '0' as int
  }

  function DigitChar(d: nat): (c: char)
    requires d < 10
    ensures IsDigit(c) && DigitValue(c) == d
  {
    ('0' as int + d) as char
  }

  /** The value of a decimal digit string, most significant digit first. */
  function DigitsValue(s: string): nat
    requires AllDigits(s)
  {
    if |s| == 0 then 0 else 10 * DigitsValue(s[..|s| - 1]) + DigitValue(s[|s| - 1])
  }

  /** The shortest decimal spelling of n (no sign, no leading zeros). */
  function NatToDigits(n: nat): (s: string)
    ensures |s| > 0 && AllDigits(s)
  {
    if n < 10 then [DigitChar(n)] else NatToDigits(n / 10) + [DigitChar(n % 10)]
  }

  lemma {:induction false} DigitsRoundTrip(n: nat)
    ensures DigitsValue(NatToDigits(n)) == n
  {
    var s := NatToDigits(n);
    if n >= 10 {
      DigitsRoundTrip(n / 10);
      assert s[..|s| - 1] == NatToDigits(n / 10);
    }
  }

  /** The character class \s of java.util.regex: [ \t\n\x0B\f\r]. */
  predicate IsRegexSpace(c: char) {
    c == ' ' || c == '\t' || c == '\n' || c == '\r' || c as int == 0x0B || c as int == 0x0C
  }

  predicate AllRegexSpace(s: string) {
    forall i :: 0 <= i < |s| ==> IsRegexSpace(s[i])
  }

  /** String.trim() removes every leading and trailing character up to U+0020. */
  predicate IsTrimmed(c: char) {
    c <= ' '
  }

  function TrimStart(s: string): (r: string)
    ensures |r| <= |s|
  {
    if |s| > 0 && IsTrimmed(s[0]) then TrimStart(s[1..]) else s
  }

  function TrimEnd(s: string): (r: string)
    ensures |r| <= |s|
  {
    if |s| > 0 && IsTrimmed(s[|s| - 1]) then TrimEnd(s[..|s| - 1]) else s
  }

  function Trim(s: string): string {
    TrimEnd(TrimStart(s))
  }

  lemma TrimUntrimmable(s: string)
    requires |s| > 0 && !IsTrimmed(s[0]) && !IsTrimmed(s[|s| - 1])
    ensures Trim(s) == s
  {
  }

  function UpperChar(c: char): char {
    if 'a' <= c <= 'z' then (c as int - 32) as char else c
  }

  function LowerChar(c: char): char {
    if 'A' <= c <= 'Z' then (c as int + 32) as char else c
  }

  function MapChars(s: string, f: char -> char): (r: string)
    ensures |r| == |s|
    ensures forall i :: 0 <= i < |s| ==> r[i] == f(s[i])
  {
    seq(|s|, i requires 0 <= i < |s| => f(s[i]))
  }

  /** toUpperCase(Locale.ROOT) restricted to ASCII letters. */
  function ToUpperAscii(s: string): string {
    MapChars(s, UpperChar)
  }

  /** toLowerCase(Locale.ROOT) restricted to ASCII letters. */
  function ToLowerAscii(s: string): string {
    MapChars(s, LowerChar)
  }

  /** A character map that leaves the trimmed characters exactly as trimmable commutes with trim(). */
  lemma {:induction false} TrimStartMap(s: string, f: char -> char)
    requires forall c :: IsTrimmed(f(c)) <==> IsTrimmed(c)
    ensures TrimStart(MapChars(s, f)) == MapChars(TrimStart(s), f)
  {
    if |s| > 0 && IsTrimmed(s[0]) {
      assert MapChars(s, f)[1..] == MapChars(s[1..], f);
      TrimStartMap(s[1..], f);
    }
  }

  lemma {:induction false} TrimEndMap(s: string, f: char -> char)
    requires forall c :: IsTrimmed(f(c)) <==> IsTrimmed(c)
    ensures TrimEnd(MapChars(s, f)) == MapChars(TrimEnd(s), f)
  {
    if |s| > 0 && IsTrimmed(s[|s| - 1]) {
      assert MapChars(s, f)[..|s| - 1] == MapChars(s[..|s| - 1], f);
      TrimEndMap(s[..|s| - 1], f);
    }
  }

  lemma TrimUpper(s: string)
    ensures Trim(ToUpperAscii(s)) == ToUpperAscii(Trim(s))
  {
    TrimStartMap(s, UpperChar);
    TrimEndMap(TrimStart(s), UpperChar);
  }

  lemma TrimLower(s: string)
    ensures Trim(ToLowerAscii(s)) == ToLowerAscii(Trim(s))
  {
    TrimStartMap(s, LowerChar);
    TrimEndMap(TrimStart(s), LowerChar);
  }

  lemma ConcatAssoc(a: string, b: string, c: string)
    ensures a + b + c == a + (b + c)
  {
  }

  lemma LowerConcat(a: string, b: string)
    ensures ToLowerAscii(a + b) == ToLowerAscii(a) + ToLowerAscii(b)
  {
  }

  lemma UpperAfterLower(s: string)
    ensures ToUpperAscii(ToLowerAscii(s)) == ToUpperAscii(s)
  {
  }

  lemma LowerAfterUpper(s: string)
    ensures ToLowerAscii(ToUpperAscii(s)) == ToLowerAscii(s)
  {
  }

  /** No ASCII lower-case letter in s. */
  predicate NoLower(s: string) {
    forall i :: 0 <= i < |s| ==> !('a' <= s[i] <= 'z')
  }

  predicate NoUpper(s: string) {
    forall i :: 0 <= i < |s| ==> !('A' <= s[i] <= 'Z')
  }

  lemma UpperFixed(s: string)
    requires NoLower(s)
    ensures ToUpperAscii(s) == s
  {
  }

  lemma LowerFixed(s: string)
    requires NoUpper(s)
    ensures ToLowerAscii(s) == s
  {
  }

  /** String.endsWith(suffix). */
  predicate EndsWith(s: string, suffix: string) {
    |suffix| <= |s| && s[|s| - |suffix|..] == suffix
  }

  /** A string whose last character differs from the suffix's last character does not end with it. */
  lemma NotEndsWith(s: string, suffix: string)
    requires |s| > 0 && |suffix| > 0 && s[|s| - 1] != suffix[|suffix| - 1]
    ensures !EndsWith(s, suffix)
  {
    if |suffix| <= |s| {
      assert s[|s| - |suffix|..][|suffix| - 1] == s[|s| - 1];
    }
  }

  /** String.replace(target, ""): every non-overlapping occurrence, scanned left to right, is removed. */
  function RemoveAll(s: string, target: string): (r: string)
    requires |target| > 0
    ensures |r| <= |s|
  {
    if |s| < |target| then s
    else if s[..|target|] == target then RemoveAll(s[|target|..], target)
    else [s[0]] + RemoveAll(s[1..], target)
  }

  /** An occurrence of the target at the front is dropped. */
  lemma RemoveAllFront(b: string, target: string)
    requires |target| > 0
    ensures RemoveAll(target + b, target) == RemoveAll(b, target)
  {
    assert (target + b)[..|target|] == target;
    assert (target + b)[|target|..] == b;
  }

  /** replace(target, "") on the target alone leaves nothing. */
  lemma RemoveAllSelf(target: string)
    requires |target| > 0
    ensures RemoveAll(target, target) == ""
  {
    RemoveAllFront("", target);
    assert target + "" == target;
  }

  /** A prefix that never holds the first character of the target passes through replace untouched. */
  lemma {:induction false} RemoveAllSkips(a: string, b: string, target: string)
    requires |target| > 0
    requires forall i :: 0 <= i < |a| ==> a[i] != target[0]
    ensures RemoveAll(a + b, target) == a + RemoveAll(b, target)
  {
    if |a| > 0 {
      assert (a + b)[1..] == a[1..] + b;
      RemoveAllSkips(a[1..], b, target);
    } else {
      assert a + b == b;
    }
  }
}
