/** The two numeric conversions the generator relies on: Python's `int()` on a
    float (truncation toward zero) and `int(np.sqrt(n))` (the integer square
    root). Floats are modelled as exact reals. */
module Numeric {

  /** `int(v)` for a Python float: truncation toward zero. */
  function Trunc(v: real): (t: int)
    ensures v >= 0.0 ==> 0 <= t && t as real <= v < t as real + 1.0
    ensures v < 0.0 ==> t <= 0 && t as real - 1.0 < v <= t as real
  {
    if v >= 0.0 then v.Floor else -((-v).Floor)
  }

  /** Truncation toward zero never reverses the order of two values. */
  lemma TruncMonotone(a: real, b: real)
    ensures a <= b ==> Trunc(a) <= Trunc(b)
  {
    if a > b {
    } else if a >= 0.0 {
      assert a.Floor <= b.Floor;
    } else if b < 0.0 {
      assert (-b).Floor <= (-a).Floor;
    }
  }

  /** On an integral value truncation is the identity. */
  lemma TruncOfInt(n: int)
    ensures Trunc(n as real) == n
  {
  }

  /** On a non-negative numerator and one of the divisors the generator's
      bounds use, the rounded-down integer quotient is `int()` of the exact
      one. */
  lemma FloorOfQuotient(a: nat, b: nat)
    requires b == 2 || b == 4 || b == 100
    ensures Trunc(a as real / b as real) == a / b
  {
    if b == 2 {
      assert a as real / 2.0 == a as real / b as real;
    } else if b == 4 {
      assert a as real / 4.0 == a as real / b as real;
    } else {
      assert a as real / 100.0 == a as real / b as real;
    }
  }

  /** `int(np.sqrt(n))`: the largest k with k * k <= n. */
  function ISqrt(n: nat): (k: nat)
    ensures k * k <= n < (k + 1) * (k + 1)
  {
    if n == 0 then 0
    else
      var k := ISqrt(n - 1);
      if (k + 1) * (k + 1) <= n then k + 1 else k
  }

  lemma SquareStrictlyMonotone(a: nat, b: nat)
    requires a < b
    ensures a * a < b * b
  {
    assert a * a <= a * b;
    assert a * b < b * b;
  }

  /** The integer square root of a perfect square is its root. */
  lemma ISqrtOfSquare(n: nat)
    ensures ISqrt(n * n) == n
  {
    var k := ISqrt(n * n);
    if k < n {
      SquareStrictlyMonotone(k, n);
      if k + 1 < n { SquareStrictlyMonotone(k + 1, n); }
    } else if k > n {
      SquareStrictlyMonotone(n, k);
    }
  }
}
