/**
 * Java's 64-bit long: Long.parseLong, Long.toString, two's-complement
 * multiplication and the truncating cast from a (here exact) double.
 */
module JavaNumbers {
  import opened Results
  import opened JavaText

  const LONG_MIN: int := -0x8000_0000_0000_0000
  const LONG_MAX: int := 0x7FFF_FFFF_FFFF_FFFF
  const TWO_64: int := 0x1_0000_0000_0000_0000

  predicate InLongRange(x: int) {
    LONG_MIN <= x <= LONG_MAX
  }

  /** The long that a mathematically exact product x wraps to. */
  function Wrap64(x: int): (r: int)
    ensures InLongRange(r)
    ensures (r - x) % TWO_64 == 0
    ensures InLongRange(x) ==> r == x
  {
    (x - LONG_MIN) % TWO_64 + LONG_MIN
  }

  /** A long is determined by its residue modulo 2^64. */
  lemma Wrap64Unique(r: int, x: int)
    requires InLongRange(r) && (r - x) % TWO_64 == 0
    ensures r == Wrap64(x)
  {
    var w := Wrap64(x);
    assert (r - w) % TWO_64 == 0;
    assert -TWO_64 < r - w < TWO_64;
  }

  lemma MultipleMod(y: int)
    ensures (y * TWO_64) % TWO_64 == 0
  {
  }

  /** Wrapping after every step of a product is the same as wrapping once at the end. */
  lemma WrapMul(x: int, k: int)
    ensures Wrap64(Wrap64(x) * k) == Wrap64(x * k)
  {
    var w := Wrap64(x);
    var j := (w - x) / TWO_64;
    assert w - x == j * TWO_64;
    var r := Wrap64(w * k);
    var i := (r - w * k) / TWO_64;
    assert r - w * k == i * TWO_64;
    assert w * k == x * k + (j * k) * TWO_64 by {
      assert w * k == (x + j * TWO_64) * k;
    }
    assert r - x * k == (i + j * k) * TWO_64;
    MultipleMod(i + j * k);
    Wrap64Unique(r, x * k);
  }

  /** Long.parseLong(s): an optional '+' or '-', then at least one digit, and a value in range. */
  function ParseLong(s: string): (r: Result<int>)
    ensures r.Success? ==> InLongRange(r.value)
    ensures r.Success? ==> |s| > 0 && IsDigit(s[|s| - 1])
    ensures r.Failure? ==> r.error == NumberFormat
  {
    if |s| == 0 then Failure(NumberFormat)
    else
      var signed := s[0] == '-' || s[0] == '+';
      var body := if signed then s[1..] else s;
      if |body| == 0 || !AllDigits(body) then Failure(NumberFormat)
      else
        var v: int := if s[0] == '-' then 0 - DigitsValue(body) as int else DigitsValue(body);
        if InLongRange(v) then Success(v) else Failure(NumberFormat)
  }

  /** Long.toString(n). */
  function IntToString(n: int): (s: string)
    ensures |s| > 0 && IsDigit(s[|s| - 1])
  {
    if n < 0 then "-" + NatToDigits(0 - n) else NatToDigits(n)
  }

  /** Long.toString writes an optional '-' and then digits only. */
  lemma IntToStringChars(n: int)
    ensures IsDigit(IntToString(n)[0]) || IntToString(n)[0] == '-'
    ensures forall i :: 0 <= i < |IntToString(n)| ==> IsDigit(IntToString(n)[i]) || IntToString(n)[i] == '-'
    ensures NoLower(IntToString(n)) && NoUpper(IntToString(n))
  {
  }

  /** Long.parseLong reads back what Long.toString writes, and rejects the spelling of any integer outside the long range. */
  lemma ParseLongToString(n: int)
    ensures ParseLong(IntToString(n)) == if InLongRange(n) then Success(n) else Failure(NumberFormat)
  {
    var s := IntToString(n);
    if n < 0 {
      assert s[1..] == NatToDigits(-n);
      DigitsRoundTrip(-n);
    } else {
      DigitsRoundTrip(n);
    }
  }

  /** Long.parseLong accepts an explicit '+' sign in front of the digits. */
  lemma ParseLongPlus(n: nat)
    requires InLongRange(n)
    ensures ParseLong("+" + NatToDigits(n)) == Success(n)
  {
    var s := "+" + NatToDigits(n);
    assert s[1..] == NatToDigits(n);
    DigitsRoundTrip(n);
  }

  /** The cast (long) d of a finite double d, without saturation: truncation toward zero. */
  function TruncReal(x: real): (r: int)
    ensures x >= 0.0 ==> r >= 0
    ensures x <= 0.0 ==> r <= 0
  {
    if x >= 0.0 then x.Floor else -((-x).Floor)
  }

  /**
   * (long) (a / (double) b): division by zero gives NaN (cast to 0) when a is 0
   * and an infinity (cast to the nearest long bound) otherwise.
   */
  function LongQuotient(a: int, b: int): (r: int)
    ensures b != 0 && a as real / b as real >= 0.0 ==> r as real <= a as real / b as real < r as real + 1.0
    ensures b != 0 && a as real / b as real < 0.0 ==> r as real - 1.0 < a as real / b as real <= r as real
    ensures b == 0 ==> r == (if a == 0 then 0 else if a > 0 then LONG_MAX else LONG_MIN)
  {
    if b == 0 then
      if a == 0 then 0 else if a > 0 then LONG_MAX else LONG_MIN
    else TruncReal(a as real / b as real)
  }

  lemma MulNonNegative(a: nat, b: nat)
    ensures a * b >= 0
  {
  }

  lemma DivNonNegative(a: int, b: int)
    requires a >= 0 && b > 0
    ensures a / b >= 0
  {
  }

  /** For a non-negative dividend and positive divisor, the truncated quotient is Euclidean division. */
  lemma TruncQuotient(a: int, b: int)
    requires a >= 0 && b > 0
    ensures TruncReal(a as real / b as real) == a / b
  {
    var q, m := a / b, a % b;
    assert a as real == q as real * b as real + m as real;
    assert a as real / b as real == q as real + m as real / b as real;
    assert 0.0 <= m as real / b as real < 1.0;
  }

  /** Truncating value * m where value is the exact fraction a / b. */
  lemma TruncScaledFraction(x: real, a: nat, b: nat, m: nat)
    requires b > 0 && x == a as real / b as real
    ensures TruncReal(x * m as real) == a * m / b
  {
    MulNonNegative(a, m);
    assert (a * m) as real == a as real * m as real;
    assert a as real / b as real * m as real == (a * m) as real / b as real;
    TruncQuotient(a * m, b);
  }
}
