/** Java's numeric limits and the primitive conversions the library relies on.
    A Java double is modelled as a real: NaN, the infinities and rounding are not
    represented, so every finite double is a real in [-DoubleMax, DoubleMax]. */
module JavaNum {

  /** Double.MAX_VALUE, that is (2 - 2^-52) * 2^1023, written out exactly. */
  const DoubleMax: real := 179769313486231570814527423731704356798070567525844996598917476803157260780028538760589558632766878171540458953514382464234321326889464182768467546703537516986049910576551282076245490090389328944075868508455133942304583236903222948165808559332123348274797826204144723168738177180919299881250404026184124858368.0

  const IntMin: int := -0x8000_0000
  const IntMax: int := 0x7fff_ffff
  const LongMin: int := -0x8000_0000_0000_0000
  const LongMax: int := 0x7fff_ffff_ffff_ffff

  /** A real that a finite Java double can hold (up to rounding). */
  predicate IsFinite(x: real) { -DoubleMax <= x <= DoubleMax }

  predicate IsIntegral(x: real) { x.Floor as real == x }

  /** Rounding toward zero, the first step of every Java cast from double to an integer type. */
  function Truncate(x: real): (n: int)
    ensures 0.0 <= x ==> 0 <= n && n as real <= x < n as real + 1.0
    ensures x < 0.0 ==> n <= 0 && n as real - 1.0 < x <= n as real
  {
    if x >= 0.0 then x.Floor else -((-x).Floor)
  }

  /** Truncation leaves an integral value unchanged. */
  lemma TruncateIntegral(x: real)
    ensures IsIntegral(x) ==> Truncate(x) as real == x
  {
    if IsIntegral(x) && x < 0.0 {
      var k := x.Floor;
      assert (-k) as real == -x;
      assert (-x).Floor == -k;
    }
  }

  function Saturate(n: int, lo: int, hi: int): (r: int)
    requires lo <= hi
    ensures lo <= r <= hi
    ensures lo <= n <= hi ==> r == n
  {
    if n < lo then lo else if n > hi then hi else n
  }

  /** `(int) x` for a double x: truncation, then saturation at the int range (JLS 5.1.3). */
  function DoubleToInt(x: real): (n: int)
    ensures IntMin <= n <= IntMax
    ensures IsIntegral(x) && IntMin as real <= x <= IntMax as real ==> n as real == x
  {
    TruncateIntegral(x);
    Saturate(Truncate(x), IntMin, IntMax)
  }

  /** `(long) x` for a double x: truncation, then saturation at the long range. */
  function DoubleToLong(x: real): (n: int)
    ensures LongMin <= n <= LongMax
    ensures IsIntegral(x) && LongMin as real <= x <= LongMax as real ==> n as real == x
  {
    TruncateIntegral(x);
    Saturate(Truncate(x), LongMin, LongMax)
  }

  /** `(int)(x / y)` for doubles x and y. A zero divisor gives an infinity of x's sign, which
      the cast saturates, or NaN for 0 / 0, which the cast turns into 0 (JLS 5.1.3). */
  function DivideToInt(x: real, y: real): (n: int)
    ensures IntMin <= n <= IntMax
    ensures y == 0.0 ==> (n == 0 <==> x == 0.0)
    ensures y != 0.0 ==> n == DoubleToInt(x / y)
  {
    if y == 0.0 then (if x > 0.0 then IntMax else if x < 0.0 then IntMin else 0)
    else DoubleToInt(x / y)
  }

  /** Two's-complement wrap-around of a mathematical integer into the int range:
      the result of int arithmetic that overflows, and of the narrowing cast `(int) someLong`. */
  function WrapInt(n: int): (r: int)
    ensures IntMin <= r <= IntMax
    ensures IntMin <= n <= IntMax ==> r == n
  {
    (n - IntMin) % 0x1_0000_0000 + IntMin
  }

  /** `Math.round(x)` for a double x: floor(x + 1/2), saturated at the long range. */
  function MathRound(x: real): (n: int)
    ensures LongMin <= n <= LongMax
  {
    Saturate((x + 0.5).Floor, LongMin, LongMax)
  }

  /** The product of two non-negative reals is non-negative (a step the solver needs spelt out). */
  lemma NonNegProduct(x: real, y: real)
    requires 0.0 <= x && 0.0 <= y
    ensures 0.0 <= x * y
  {
  }

  lemma PosProduct(x: real, y: real)
    requires 0.0 < x && 0.0 < y
    ensures 0.0 < x * y
  {
  }
}
