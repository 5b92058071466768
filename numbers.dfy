/**
 * The JVM integer arithmetic and the decimal conversions that the session
 * token check and the pin request rely on: `Long`, `Int`, `String.toLong()`,
 * `Int.toString()`, `TimeUnit.SECONDS.toMillis` and `Long.plus`.
 */
module Numbers {
  import opened Failures

  const LONG_MIN: int := -0x8000_0000_0000_0000
  const LONG_MAX: int := 0x7FFF_FFFF_FFFF_FFFF
  const INT_MIN: int := -0x8000_0000
  const INT_MAX: int := 0x7FFF_FFFF
  const TWO_TO_THE_64: int := 0x1_0000_0000_0000_0000

  /** Kotlin `Long`: a signed 64-bit integer. */
  type Long = x: int | LONG_MIN <= x <= LONG_MAX

  /** Kotlin `Int`: a signed 32-bit integer. */
  type Int = x: int | INT_MIN <= x <= INT_MAX

  /** A byte of an encoded text, as its unsigned value (the bit pattern of a Kotlin `Byte`). */
  type Octet = b: int | 0 <= b < 0x100

  /** Two's-complement wrap-around of an exact result into the `Long` range. */
  function WrapLong(x: int): (r: Long)
    ensures LONG_MIN <= x <= LONG_MAX ==> r == x
    ensures (x - r) % TWO_TO_THE_64 == 0
  {
    (x - LONG_MIN) % TWO_TO_THE_64 + LONG_MIN
  }

  /** `a.plus(b)` on `Long`: the exact sum when it fits, wrapped around otherwise. */
  function PlusLong(a: Long, b: Long): (r: Long)
    ensures LONG_MIN <= a + b <= LONG_MAX ==> r == a + b
    ensures a + b > LONG_MAX ==> r == a + b - TWO_TO_THE_64
    ensures a + b < LONG_MIN ==> r == a + b + TWO_TO_THE_64
  {
    WrapLong(a + b)
  }

  /** `TimeUnit.SECONDS.toMillis(d)`: multiplies by 1000 and saturates on overflow. */
  function SecondsToMillis(d: Long): (r: Long)
    ensures LONG_MIN <= d * 1000 <= LONG_MAX ==> r == d * 1000
    ensures d * 1000 > LONG_MAX ==> r == LONG_MAX
    ensures d * 1000 < LONG_MIN ==> r == LONG_MIN
  {
    var over := LONG_MAX / 1000;
    if d > over then LONG_MAX
    else if d < -over then LONG_MIN
    else d * 1000
  }

  predicate IsDigit(c: char) {
    '0' <= c <= '9'
  }

  predicate AllDigits(s: string) {
    forall i :: 0 <= i < |s| ==> IsDigit(s[i])
  }

  function DigitChar(d: nat): (c: char)
    requires d < 10
    ensures IsDigit(c)
  {
    ('0' as int + d) as char
  }

  /** The value of a non-empty run of decimal digits, most significant first. */
  function DigitsValue(s: string): nat
    requires AllDigits(s)
  {
    if s == [] then 0
    else DigitsValue(s[..|s| - 1]) * 10 + (s[|s| - 1] as int - '0' as int)
  }

  /** The decimal digits of `n`, without leading zeros. */
  function NatToDigits(n: nat): (s: string)
    ensures |s| > 0 && AllDigits(s)
    decreases n
  {
    if n < 10 then [DigitChar(n)] else NatToDigits(n / 10) + [DigitChar(n % 10)]
  }

  /** `Int.toString()` and `Long.toString()`: an optional '-' and the digits of |n|. */
  function DecimalString(n: int): (s: string)
    ensures |s| > 0
  {
    if n < 0 then "-" + NatToDigits(-n) else NatToDigits(n)
  }

  /** The digits of a numeral after its optional sign. */
  function Unsigned(s: string): string
    requires |s| > 0
  {
    if s[0] == '-' || s[0] == '+' then s[1..] else s
  }

  /** The value a numeral with an optional sign denotes. */
  function SignedValue(s: string): int
    requires |s| > 0 && AllDigits(Unsigned(s))
  {
    var magnitude: int := DigitsValue(Unsigned(s));
    if s[0] == '-' then -magnitude else magnitude
  }

  /**
   * `String.toLong()` (Java's `Long.parseLong(s, 10)`): an optional '+' or
   * '-', then one or more decimal digits, whose value must fit in a `Long`;
   * anything else throws `NumberFormatException` instead of defaulting.
   */
  function ToLong(s: string): (r: Try<Long>)
    ensures r.Thrown? ==> r.error == Failure(NumberFormat(s))
    ensures r.Ok? ==> |s| > 0 && |Unsigned(s)| > 0 && AllDigits(Unsigned(s))
    ensures r.Ok? ==> r.value == SignedValue(s)
    ensures |s| > 0 && |Unsigned(s)| > 0 && AllDigits(Unsigned(s)) && LONG_MIN <= SignedValue(s) <= LONG_MAX ==> r.Ok?
  {
    if |s| == 0 || |Unsigned(s)| == 0 || !AllDigits(Unsigned(s)) then Thrown(Failure(NumberFormat(s)))
    else
      var v := SignedValue(s);
      if LONG_MIN <= v <= LONG_MAX then Ok(v) else Thrown(Failure(NumberFormat(s)))
  }

  lemma {:induction false} DigitsValueOfNatToDigits(n: nat)
    ensures DigitsValue(NatToDigits(n)) == n
    decreases n
  {
    var s := NatToDigits(n);
    if n >= 10 {
      DigitsValueOfNatToDigits(n / 10);
      assert s[..|s| - 1] == NatToDigits(n / 10);
    }
  }

  /** Printing a `Long` in decimal and parsing it back gives the same `Long`. */
  lemma {:induction false} ToLongOfDecimalString(n: Long)
    ensures ToLong(DecimalString(n)) == Ok(n)
  {
    var s := DecimalString(n);
    var magnitude: nat := if n < 0 then -(n as int) else n;
    var digits := NatToDigits(magnitude);
    DigitsValueOfNatToDigits(magnitude);
    assert IsDigit(digits[0]);
    assert Unsigned(s) == digits;
    assert SignedValue(s) == n;
  }

  /** An empty string and a string made only of a sign are not numbers. */
  lemma ToLongRejectsEmptyNumerals()
    ensures ToLong("").Thrown? && ToLong("-").Thrown? && ToLong("+").Thrown?
  {
  }
}
