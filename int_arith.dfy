/** Integer division as Rust's primitive integer types perform it, and the facts about
    integer products that the integer complex proofs rest on. */
module IntArith {

  /** Absolute value. */
  function Abs(a: int): nat
  {
    if a < 0 then -a else a
  }

  /** `a / b` on a Rust integer type: the quotient truncated toward zero, so the
      remainder `a - q * b` is smaller than the divisor in magnitude and is never of
      the opposite sign to the dividend. (Dafny's own `/` is Euclidean instead.) */
  function Quot(a: int, b: int): (q: int)
    requires b != 0
    ensures Abs(a - q * b) < Abs(b)
    ensures a - q * b == 0 || (a - q * b < 0 <==> a < 0)
  {
    var m := Abs(a) / Abs(b);
    var q := if (a < 0) == (b < 0) then m else -m;
    QuotRemainder(a, b, m, q);
    q
  }

  /** The remainder left by the truncated quotient `q` is `Abs(a) % Abs(b)`, with the
      sign of `a`. */
  lemma QuotRemainder(a: int, b: int, m: int, q: int)
    requires b != 0 && m == Abs(a) / Abs(b)
    requires q == if (a < 0) == (b < 0) then m else -m
    ensures a - q * b == (if a < 0 then -(Abs(a) % Abs(b)) else Abs(a) % Abs(b))
  {
    DivMod(Abs(a), Abs(b));
    if b < 0 {
      NegMul(m, Abs(b));
      NegMul(-m, Abs(b));
      assert Abs(b) == -b;
    }
  }

  /** Euclidean division of a natural number by a positive divisor. */
  lemma DivMod(x: nat, y: int)
    requires y > 0
    ensures x == (x / y) * y + x % y && 0 <= x % y < y
  {
  }

  /** Negating one factor negates the product. */
  lemma NegMul(m: int, b: int)
    ensures m * (-b) == -(m * b) && (-m) * b == -(m * b)
  {
  }

  /** The magnitude of a product is the product of the magnitudes. */
  lemma AbsMul(k: int, t: int)
    ensures Abs(k * t) == Abs(k) * Abs(t)
  {
    if k < 0 && t < 0 {
      assert k * t == (-k) * (-t);
    } else if k < 0 {
      assert -(k * t) == (-k) * t;
    } else if t < 0 {
      assert -(k * t) == k * (-t);
    }
  }

  /** A positive multiple of a natural number is at least that number. */
  lemma MulMonotone(k: nat, t: nat)
    requires k >= 1
    ensures k * t >= t
  {
    assert k * t == t + (k - 1) * t;
  }

  /** A nonzero multiple of `t` is at least as large as `t` in magnitude. */
  lemma NonzeroMultiple(k: int, t: int)
    requires k != 0
    ensures Abs(k * t) >= Abs(t)
  {
    AbsMul(k, t);
    MulMonotone(Abs(k), Abs(t));
  }

  /** Dividing an exact multiple `a * t` by `t` gives back `a`. */
  lemma QuotExact(a: int, t: int)
    requires t != 0
    ensures Quot(a * t, t) == a
  {
    var q := Quot(a * t, t);
    var r := a * t - q * t;
    assert Abs(r) < Abs(t);
    assert r == (a - q) * t;
    if a != q {
      NonzeroMultiple(a - q, t);
    }
  }

  /** `a` times itself. */
  function Square(a: int): int
  {
    a * a
  }

  /** A product of two positive integers is positive. */
  lemma ProductPositive(x: int, y: int, p: int)
    requires x > 0 && y > 0 && p == x * y
    ensures p > 0
  {
  }

  /** A nonzero integer squared is positive; any integer squared is not negative. */
  lemma SquareSign(a: int)
    ensures Square(a) >= 0
    ensures a != 0 ==> Square(a) > 0
  {
    if a > 0 {
      ProductPositive(a, a, Square(a));
    } else if a < 0 {
      assert Square(a) == (-a) * (-a);
      ProductPositive(-a, -a, Square(a));
    }
  }

  /** A sum of two squares is zero exactly when both integers are zero. */
  lemma SumOfSquaresZero(a: int, b: int)
    ensures Square(a) + Square(b) == 0 <==> a == 0 && b == 0
  {
    SquareSign(a);
    SquareSign(b);
  }
}
