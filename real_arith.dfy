/** Facts about exact real arithmetic that the complex-number proofs rest on. Each one
    is stated over plain `real` variables so that the solver meets one polynomial
    identity or one sign fact at a time. Signs of squares go through `Square`, so
    that they are facts about one term rather than about a product. */
module RealArith {

  /** `a` times itself. */
  function Square(a: real): real
  {
    a * a
  }

  /** A real squared is never negative. */
  lemma SquareNonNegative(a: real)
    ensures Square(a) >= 0.0
  {
  }

  /** The product of two positive reals is positive. */
  lemma ProductPositive(x: real, y: real, p: real)
    requires x > 0.0 && y > 0.0 && p == x * y
    ensures p > 0.0
  {
  }

  /** A nonzero real squared is positive. */
  lemma SquarePositive(a: real)
    requires a != 0.0
    ensures Square(a) > 0.0
  {
    if a > 0.0 {
      ProductPositive(a, a, Square(a));
    } else {
      assert Square(a) == (-a) * (-a);
      ProductPositive(-a, -a, Square(a));
    }
  }

  /** A sum of two squares is zero exactly when both reals are zero. */
  lemma SumOfSquaresZero(a: real, b: real)
    ensures Square(a) + Square(b) == 0.0 <==> a == 0.0 && b == 0.0
  {
    SquareNonNegative(a);
    SquareNonNegative(b);
    if a != 0.0 {
      SquarePositive(a);
    } else if b != 0.0 {
      SquarePositive(b);
    }
  }

  /** Multiplication by a nonzero real can be cancelled. */
  lemma Cancel(x: real, y: real, n: real)
    requires n != 0.0 && x * n == y * n
    ensures x == y
  {
    assert (x - y) * n == 0.0;
  }

  /** Dividing by `n` and multiplying back by `n` is the identity. */
  lemma DivMul(p: real, n: real)
    requires n != 0.0
    ensures (p / n) * n == p
  {
  }

  /** If `u` and `v` are the two portions of the quotient of `a + i b` by `c + i d`,
      scaled by the squared norm `n`, then multiplying back by `c + i d` restores
      `a + i b`. */
  lemma QuotientTimesDivisor(a: real, b: real, c: real, d: real, n: real, u: real, v: real)
    requires n == c * c + d * d && n != 0.0
    requires u * n == a * c + b * d && v * n == b * c - a * d
    ensures u * c - v * d == a && u * d + v * c == b
  {
    calc {
      (u * c - v * d) * n;
    ==
      (u * n) * c - (v * n) * d;
    ==
      (a * c + b * d) * c - (b * c - a * d) * d;
    ==
      a * n;
    }
    Cancel(u * c - v * d, a, n);
    calc {
      (u * d + v * c) * n;
    ==
      (u * n) * d + (v * n) * c;
    ==
      (a * c + b * d) * d + (b * c - a * d) * c;
    ==
      b * n;
    }
    Cancel(u * d + v * c, b, n);
  }

  /** Multiplying by a nonzero `n` and dividing back by `n` is the identity. */
  lemma MulDiv(p: real, n: real)
    requires n != 0.0
    ensures (p * n) / n == p
  {
  }

  /** Scaling both terms by `t` scales a sum of squares by `t` squared. */
  lemma ScaledSumOfSquares(a: real, b: real, t: real)
    ensures (a * t) * (a * t) + (b * t) * (b * t) == t * t * (a * a + b * b)
  {
  }

  /** Two sums of two squares multiply to a sum of two squares (Brahmagupta's
      identity), in the form that complex multiplication produces. */
  lemma ProductOfSumsOfSquares(a: real, b: real, c: real, d: real)
    ensures (a * c - b * d) * (a * c - b * d) + (a * d + b * c) * (a * d + b * c)
         == (a * a + b * b) * (c * c + d * d)
  {
  }

  /** Multiplying `a + i b` by `(c - i d) / n` portion by portion gives the same two
      quotients as dividing the products by `n` afterwards. */
  lemma CombinationOfQuotients(a: real, b: real, c: real, d: real, n: real)
    requires n != 0.0
    ensures a * (c / n) - b * (-d / n) == (a * c + b * d) / n
    ensures a * (-d / n) + b * (c / n) == (b * c - a * d) / n
  {
    var u, v := c / n, -d / n;
    DivMul(c, n);
    DivMul(-d, n);
    DivMul(a * c + b * d, n);
    DivMul(b * c - a * d, n);
    assert (a * u - b * v) * n == a * (u * n) - b * (v * n);
    Cancel(a * u - b * v, (a * c + b * d) / n, n);
    assert (a * v + b * u) * n == a * (v * n) + b * (u * n);
    Cancel(a * v + b * u, (b * c - a * d) / n, n);
  }
}
