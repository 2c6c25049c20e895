/** Stand-ins for the Java numeric behaviour the locator relies on:
    `double` values that may be NaN, the `(int)` cast, and `Double.MAX_VALUE`. */
module Numerics {

  /** Java's `Double.MAX_VALUE`, that is (2^53 - 1) * 2^971. */
  const MaxDouble: real := 179769313486231570814527423731704356798070567525844996598917476803157260780028538760589558632766878171540458953514382464234321326889464182768467546703537516986049910576551282076245490090389328944075868508455133942304583236903222948165808559332123348274797826204144723168738177180919299881250404026184124858368.0

  /** A spherical distance as the locator receives it: a finite, non-negative double. */
  type Distance = d: real | 0.0 <= d <= MaxDouble witness 0.0

  /** A non-negative real, the range of a triangle weight and of a power of a fraction. */
  type NonNegReal = r: real | 0.0 <= r witness 0.0

  /** A real in [0, 1], the domain on which the falloff curve is evaluated. */
  type Fraction = r: real | 0.0 <= r <= 1.0 witness 0.0

  /** A Java `double` as far as this model needs it: a finite value, or NaN.
      Rounding, overflow and infinities are not represented. */
  datatype Double = Finite(value: real) | NaN

  /** `a + b`; NaN absorbs. */
  function Add(a: Double, b: Double): (r: Double)
    ensures r.NaN? <==> a.NaN? || b.NaN?
    ensures r.Finite? ==> r.value == a.value + b.value
  {
    if a.NaN? || b.NaN? then NaN else Finite(a.value + b.value)
  }

  /** `a * b`; NaN absorbs, even against zero. */
  function Mul(a: Double, b: Double): (r: Double)
    ensures r.NaN? <==> a.NaN? || b.NaN?
    ensures r.Finite? ==> r.value == a.value * b.value
  {
    if a.NaN? || b.NaN? then NaN else Finite(a.value * b.value)
  }

  /** `a / b` where the quotient is not an infinity: a finite non-zero numerator
      is never divided by zero, and a NaN divisor comes with a NaN numerator. */
  function Div(a: Double, b: Double): (r: Double)
    requires b.NaN? ==> a.NaN?
    requires b == Finite(0.0) && a.Finite? ==> a.value == 0.0
    ensures r.NaN? <==> a.NaN? || b == Finite(0.0)
    ensures r.Finite? ==> r.value * b.value == a.value
  {
    if a.NaN? || b.NaN? || b.value == 0.0 then NaN else Finite(a.value / b.value)
  }

  /** Java's `(int)` cast of a finite value: truncation toward zero.
      Saturation at the bounds of `int` is not represented. */
  function Trunc(x: real): (n: int)
    ensures 0.0 <= x ==> n as real <= x < n as real + 1.0
    ensures x < 0.0 ==> n as real - 1.0 < x <= n as real
  {
    if 0.0 <= x then x.Floor else -((-x).Floor)
  }
}
