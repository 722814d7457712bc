/**
 * Java's numeric conversions written out over unbounded integers and reals.
 * Floats are modelled as reals; a cast `(int) x` truncates toward zero,
 * `Math.ceil` rounds up, `Math.round` rounds half up, and `/` on Java
 * integers truncates toward zero (Dafny's own `/` is Euclidean).
 */
module JavaNumbers {

  /** `(int) x` for a float `x`: truncation toward zero. */
  function Trunc(x: real): (r: int)
    ensures x >= 0.0 ==> 0 <= r && r as real <= x < r as real + 1.0
    ensures x < 0.0 ==> r <= 0 && r as real - 1.0 < x <= r as real
  {
    if x >= 0.0 then x.Floor else -((-x).Floor)
  }

  /** A real between two integers truncates to an integer between them. */
  lemma TruncBetween(lo: int, hi: int, x: real)
    requires lo as real <= x <= hi as real
    ensures lo <= Trunc(x) <= hi
  {
  }

  /** Truncating an integer-valued real gives that integer back. */
  lemma TruncOfInt(n: int)
    ensures Trunc(n as real) == n
  {
  }

  /** `Math.ceil(x)`, the least integer not below `x`. */
  function Ceil(x: real): (r: int)
    ensures r as real - 1.0 < x <= r as real
  {
    -((-x).Floor)
  }

  /** `Math.round(x)`: the nearest integer, halves rounded up. */
  function Round(x: real): (r: int)
    ensures r as real - 0.5 <= x < r as real + 0.5
  {
    (x + 0.5).Floor
  }

  /** `Math.max(lo, Math.min(hi, v))`. */
  function Clamp(lo: int, hi: int, v: int): (r: int)
    requires lo <= hi
    ensures lo <= r <= hi
    ensures lo <= v <= hi ==> r == v
  {
    if v < lo then lo else if v > hi then hi else v
  }

  function MinReal(x: real, y: real): (r: real)
    ensures r <= x && r <= y && (r == x || r == y)
  {
    if x <= y then x else y
  }

  function MaxReal(x: real, y: real): (r: real)
    ensures r >= x && r >= y && (r == x || r == y)
  {
    if x >= y then x else y
  }

  /** Java's integer `a / b`: the quotient truncated toward zero. */
  function JavaDiv(a: int, b: int): (q: int)
    requires b != 0
    ensures var rem := a - q * b;
            (a >= 0 ==> 0 <= rem < (if b > 0 then b else -b)) &&
            (a < 0 ==> -(if b > 0 then b else -b) < rem <= 0)
  {
    if a >= 0 then
      (if b > 0 then a / b else -(a / -b))
    else
      (if b > 0 then -((-a) / b) else (-a) / (-b))
  }

  /** `a + t * (b - a)`: the point at weight t on the way from a to b. */
  function Weighted(a: real, b: real, t: real): real
  {
    a + t * (b - a)
  }

  /** The point at weight t in [0, 1] on the way from a to b lies between them, at a for 0 and at b for 1. */
  lemma WeightedBetween(a: real, b: real, t: real)
    requires 0.0 <= t <= 1.0
    ensures a <= b ==> a <= Weighted(a, b, t) <= b
    ensures b <= a ==> b <= Weighted(a, b, t) <= a
    ensures t == 0.0 ==> Weighted(a, b, t) == a
    ensures t == 1.0 ==> Weighted(a, b, t) == b
  {
    if a <= b {
      MulNonNegative(t, b - a);
      MulNonNegative(1.0 - t, b - a);
    } else {
      MulNonNegative(t, a - b);
      MulNonNegative(1.0 - t, a - b);
    }
  }

  lemma MulNonNegative(a: real, b: real)
    requires a >= 0.0 && b >= 0.0
    ensures a * b >= 0.0
  {
  }

  /** `Math.round` of a whole number is that number. */
  lemma RoundOfInt(n: int)
    ensures Round(n as real) == n
  {
  }

  /** Java's floating-point `x % m`: the remainder of the quotient truncated toward zero. */
  function FRem(x: real, m: real): (r: real)
    requires m > 0.0
    ensures x >= 0.0 ==> 0.0 <= r < m
    ensures x < 0.0 ==> -m < r <= 0.0
  {
    TruncQuotient(x, m);
    x - Trunc(x / m) as real * m
  }

  /** A quotient by a positive number has the dividend's sign. */
  lemma QuotientSign(x: real, m: real)
    requires m > 0.0
    ensures x >= 0.0 <==> x / m >= 0.0
  {
    var q := x / m;
    if q < 0.0 {
      MulPositive(-q, m);
      assert -q * m == -x;
    } else {
      MulNonNegative(q, m);
    }
  }

  /** The truncated quotient times the divisor is within one divisor of the dividend, on its side of zero. */
  lemma TruncQuotient(x: real, m: real)
    requires m > 0.0
    ensures var k := Trunc(x / m) as real;
            (x >= 0.0 ==> k * m <= x < k * m + m) && (x < 0.0 ==> k * m - m < x <= k * m)
  {
    var q := x / m;
    var k := Trunc(q) as real;
    QuotientSign(x, m);
    if x >= 0.0 {
      AtLeastScaled(x, m, q, k);
      BelowNextScaled(x, m, q, k);
    } else {
      AtMostScaled(x, m, q, k);
      AbovePreviousScaled(x, m, q, k);
    }
  }

  /** With `q * m == x` and `m > 0`: `k <= q` scales to `k * m <= x`. */
  lemma AtLeastScaled(x: real, m: real, q: real, k: real)
    requires m > 0.0 && q * m == x && k <= q
    ensures k * m <= x
  {
    MulNonNegative(q - k, m);
    assert (q - k) * m == x - k * m;
  }

  /** With `q * m == x` and `m > 0`: `q <= k` scales to `x <= k * m`. */
  lemma AtMostScaled(x: real, m: real, q: real, k: real)
    requires m > 0.0 && q * m == x && q <= k
    ensures x <= k * m
  {
    MulNonNegative(k - q, m);
    assert (k - q) * m == k * m - x;
  }

  /** With `q * m == x` and `m > 0`: `q < k + 1` scales to `x < k * m + m`. */
  lemma BelowNextScaled(x: real, m: real, q: real, k: real)
    requires m > 0.0 && q * m == x && q < k + 1.0
    ensures x < k * m + m
  {
    MulPositive(k + 1.0 - q, m);
    assert (k + 1.0 - q) * m == k * m + m - x;
  }

  /** With `q * m == x` and `m > 0`: `k - 1 < q` scales to `k * m - m < x`. */
  lemma AbovePreviousScaled(x: real, m: real, q: real, k: real)
    requires m > 0.0 && q * m == x && k - 1.0 < q
    ensures k * m - m < x
  {
    MulPositive(q - k + 1.0, m);
    assert (q - k + 1.0) * m == x - k * m + m;
  }

  lemma MulPositive(a: real, b: real)
    requires a > 0.0 && b > 0.0
    ensures a * b > 0.0
  {
  }

  lemma MulMonotone(a: real, b: real, m: real)
    requires a <= b && m > 0.0
    ensures a * m <= b * m
    ensures a < b ==> a * m < b * m
  {
    MulNonNegative(b - a, m);
    if a < b {
      assert (b - a) * m > 0.0;
    }
  }

  /** A quotient of a number by a larger positive one lies in [-1, 1], with the numerator's sign. */
  lemma QuotientBounds(a: real, d: real)
    requires d > 0.0 && -d <= a <= d
    ensures -1.0 <= a / d <= 1.0
    ensures a >= 0.0 ==> a / d >= 0.0
    ensures a > 0.0 ==> a / d > 0.0
    ensures a < 0.0 ==> a / d < 0.0
  {
  }

  /** Truncation of non-negative reals is monotone. */
  lemma TruncMonotone(x: real, y: real)
    requires 0.0 <= x <= y
    ensures Trunc(x) <= Trunc(y)
  {
  }

  /** `Math.ceil` is monotone, and is the identity on integers. */
  lemma CeilMonotone(x: real, y: real)
    requires x <= y
    ensures Ceil(x) <= Ceil(y)
  {
  }

  lemma CeilOfInt(n: int)
    ensures Ceil(n as real) == n
  {
  }

  /** `Math.min` on ints. */
  function MinInt(a: int, b: int): (r: int)
    ensures r <= a && r <= b && (r == a || r == b)
  {
    if a <= b then a else b
  }

  /** `Math.max` on ints. */
  function MaxInt(a: int, b: int): (r: int)
    ensures r >= a && r >= b && (r == a || r == b)
  {
    if a >= b then a else b
  }
}
