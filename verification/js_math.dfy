/** JavaScript's `Math.floor`, `Math.ceil`, `Math.round` and `Math.max`,
    stated on exact reals (IEEE-754 rounding is not modelled). */
module JsMath {

  /** `Math.floor`: the greatest integer not above `x`. */
  function Floor(x: real): (r: int)
    ensures r as real <= x < r as real + 1.0
  {
    x.Floor
  }

  /** `Math.ceil`: the least integer not below `x`. */
  function Ceil(x: real): (r: int)
    ensures x <= r as real < x + 1.0
  {
    -((-x).Floor)
  }

  /** `Math.round`: the nearest integer, halves rounded towards +infinity. */
  function Round(x: real): (r: int)
    ensures x - 0.5 < r as real <= x + 0.5
  {
    (x + 0.5).Floor
  }

  /** `Math.max` of two numbers. */
  function Max(a: real, b: real): (r: real)
    ensures r >= a && r >= b
    ensures r == a || r == b
  {
    if a >= b then a else b
  }

  /** `Math.floor(n / 1000)` agrees with integer division of `Math.floor(n)`. */
  lemma FloorDivThousand(n: real)
    ensures Floor(n / 1000.0) == Floor(n) / 1000
  {
    var f := Floor(n);
    var q := f / 1000;
    assert q as real * 1000.0 <= f as real;
    assert f as real < (q + 1) as real * 1000.0;
    assert q as real <= n / 1000.0;
    assert n < (f + 1) as real <= (q + 1) as real * 1000.0;
  }

  /** A quotient by a positive divisor of a value between 0 and `c * d`
      lies between 0 and `c`. */
  lemma QuotientWithin(x: real, d: real, c: real)
    requires d > 0.0 && 0.0 <= x <= c * d
    ensures 0.0 <= x / d <= c
  {
    var q := x / d;
    assert q * d == x;
    assert (c - q) * d == c * d - x;
    NonNegativeFactor(q, d);
    NonNegativeFactor(c - q, d);
  }

  /** A factor whose product with a positive number is not negative is not
      negative. */
  lemma NonNegativeFactor(a: real, d: real)
    requires d > 0.0 && a * d >= 0.0
    ensures a >= 0.0
  {
  }
}
