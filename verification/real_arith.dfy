/** Small facts of real arithmetic that the speedup proofs rely on. */
module RealArith {

  /** Bounds on `x / n` for a non-negative `x`. */
  lemma QuotientBounds(x: real, n: real)
    requires 0.0 <= x && 0.0 < n
    ensures 0.0 <= x / n
    ensures 0.0 < x ==> 0.0 < x / n
    ensures 1.0 <= n ==> x / n <= x
    ensures n <= 1.0 ==> x <= x / n
  {
  }

  /** Dividing a non-negative `x` by a larger divisor gives a smaller quotient. */
  lemma QuotientAntitone(x: real, n: real, m: real)
    requires 0.0 <= x && 0.0 < n <= m
    ensures x / m <= x / n
    ensures x / m < x / n <==> 0.0 < x && n < m
  {
    assert (x / n) * n == x && (x / m) * m == x;
    if 0.0 < x && n < m {
      assert (x / m) * n < (x / m) * m;
    } else if n == m {
    } else {
      assert x == 0.0;
    }
  }

  /** Division by a common divisor distributes over a sum. */
  lemma SumOfQuotients(x: real, y: real, n: real)
    requires n != 0.0
    ensures x / n + y / n == (x + y) / n
  {
    assert (x / n) * n == x;
    assert (y / n) * n == y;
    assert ((x + y) / n) * n == x + y;
    assert (x / n + y / n) * n == x + y;
  }

  /** A product of two positive reals is positive. */
  lemma ProductPositive(x: real, y: real)
    requires 0.0 < x && 0.0 < y
    ensures 0.0 < x * y
  {
  }

  /** Dividing by a quotient undoes it. */
  lemma DivideByQuotient(x: real, n: real)
    requires 0.0 < x && 0.0 < n
    ensures x / (x / n) == n
  {
  }

  /** A positive number divided by itself is one. */
  lemma SelfQuotient(x: real)
    requires 0.0 < x
    ensures x / x == 1.0
  {
  }

  /** Beyond `1 + x / eps`, the quotient `x / n` is below `eps`. */
  lemma ShrinksBelow(x: real, eps: real, n: real)
    requires 0.0 <= x && 0.0 < eps && 0.0 < n
    requires 1.0 + x / eps <= n
    ensures x / n < eps
  {
    assert (x / eps) * eps == x;
    assert x < n * eps;
    assert (x / n) * n == x;
  }

  /** The two divisions in `c * (x / n) / a` may be exchanged. */
  lemma Regroup(c: real, x: real, a: real, n: real)
    requires 0.0 < a && 0.0 < n
    ensures c * (x / n) / a == c * (x / a) / n
  {
    assert (x / n) * n == x && (x / a) * a == x;
    assert c * (x / n) / a * (a * n) == c * x;
    assert c * (x / a) / n * (a * n) == c * x;
  }

  /** A weighted value `(1 - f) + f * n`, with `f` in [0, 1], lies between 1 and `n`. */
  lemma BetweenOneAndPoint(f: real, n: real)
    requires 0.0 <= f <= 1.0 && 0.0 < n
    ensures 1.0 <= n ==> 1.0 <= (1.0 - f) + f * n <= n
    ensures n <= 1.0 ==> n <= (1.0 - f) + f * n <= 1.0
  {
    if 1.0 <= n {
      ProductNonNegative(f, n - 1.0);
      ProductNonNegative(1.0 - f, n - 1.0);
    } else {
      ProductNonNegative(f, 1.0 - n);
      ProductNonNegative(1.0 - f, 1.0 - n);
    }
  }

  /** A product of two non-negative reals is non-negative. */
  lemma ProductNonNegative(x: real, y: real)
    requires 0.0 <= x && 0.0 <= y
    ensures 0.0 <= x * y
  {
  }

  /** A positive number plus its reciprocal is at least 2, with equality only at 1. */
  lemma ReciprocalSum(n: real, r: real)
    requires 0.0 < n && r * n == 1.0
    ensures 2.0 <= n + r
    ensures n != 1.0 ==> 2.0 < n + r
  {
    if 1.0 < n {
      assert r < 1.0;
      var x, y := n - 1.0, 1.0 - r;
      ProductPositive(x, y);
      assert x * y == n + r - 2.0;
    } else if n < 1.0 {
      assert 1.0 < r;
      var x, y := 1.0 - n, r - 1.0;
      ProductPositive(x, y);
      assert x * y == n + r - 2.0;
    }
  }
}
