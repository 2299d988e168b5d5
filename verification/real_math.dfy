/** Exact arithmetic helpers: the maximum of two reals and natural powers. */
module RealMath {

  /** The larger of `a` and `b`: Python's `max(a, b)` and pandas' `clip(lower=a)`. */
  function Max(a: real, b: real): (m: real)
    ensures m >= a && m >= b
    ensures m == a || m == b
  {
    if b > a then b else a
  }

  /** A quotient is the one value that multiplied by the divisor gives the dividend. */
  lemma QuotientUnique(x: real, y: real, z: real)
    requires y != 0.0 && z * y == x
    ensures x / y == z
  {
  }

  lemma ZeroQuotient(x: real, y: real)
    requires y != 0.0
    ensures x == 0.0 ==> x / y == 0.0
  {
    if x == 0.0 {
      QuotientUnique(x, y, 0.0);
    }
  }

  /** `x` raised to a natural power, the exact counterpart of Python's `x ** n`. */
  function Pow(x: real, n: nat): real
  {
    if n == 0 then 1.0 else x * Pow(x, n - 1)
  }

  lemma {:induction false} PowPositive(x: real, n: nat)
    requires x > 0.0
    ensures Pow(x, n) > 0.0
  {
    if n > 0 {
      PowPositive(x, n - 1);
    }
  }

  lemma {:induction false} PowAtLeastOne(x: real, n: nat)
    requires x >= 1.0
    ensures Pow(x, n) >= 1.0
  {
    if n > 0 {
      PowAtLeastOne(x, n - 1);
    }
  }

  /** A base above one raised to a positive power stays above one. */
  lemma PowAboveOne(x: real, n: nat)
    requires x > 1.0 && n > 0
    ensures Pow(x, n) > 1.0
  {
    PowAtLeastOne(x, n - 1);
  }

  lemma {:induction false} PowOfOne(n: nat)
    ensures Pow(1.0, n) == 1.0
  {
    if n > 0 {
      PowOfOne(n - 1);
    }
  }

  /** Scaling a non-negative value by a factor in [0, 1] never increases it. */
  lemma ScaleDown(x: real, y: real)
    requires 0.0 <= x <= 1.0 && y >= 0.0
    ensures 0.0 <= x * y <= y
  {
    assert y - x * y == (1.0 - x) * y;
  }

  /** For a base in [0, 1], raising to a larger power never gives a larger value. */
  lemma {:induction false} PowNonIncreasing(x: real, m: nat, n: nat)
    requires 0.0 <= x <= 1.0 && m <= n
    ensures 0.0 <= Pow(x, n) <= Pow(x, m)
  {
    if m < n {
      var prev := Pow(x, n - 1);
      PowNonIncreasing(x, m, n - 1);
      assert 0.0 <= prev <= Pow(x, m);
      ScaleDown(x, prev);
      assert Pow(x, n) == x * prev;
    } else {
      PowNonNegative(x, n);
    }
  }

  lemma {:induction false} PowNonNegative(x: real, n: nat)
    requires x >= 0.0
    ensures Pow(x, n) >= 0.0
  {
    if n > 0 {
      PowNonNegative(x, n - 1);
      ScaleUpNonNegative(x, Pow(x, n - 1));
    }
  }

  lemma ScaleUpNonNegative(x: real, y: real)
    requires x >= 0.0 && y >= 0.0
    ensures x * y >= 0.0
  {
  }

  /** For a base in (0, 1), raising to a larger power gives a strictly smaller value. */
  lemma PowDecreasing(x: real, m: nat, n: nat)
    requires 0.0 < x < 1.0 && m < n
    ensures Pow(x, n) < Pow(x, m)
  {
    var prev := Pow(x, n - 1);
    PowPositive(x, n - 1);
    ScaleDownStrict(x, prev);
    PowNonIncreasing(x, m, n - 1);
    assert Pow(x, n) == x * prev;
  }

  lemma ScaleDownStrict(x: real, y: real)
    requires 0.0 < x < 1.0 && y > 0.0
    ensures x * y < y
  {
    assert y - x * y == (1.0 - x) * y;
  }
}
