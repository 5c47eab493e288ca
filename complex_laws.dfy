/** Algebraic laws of the exact complex arithmetic in module `Complex`, including the
    identities the source's own tests check on its constants. */
module ComplexLaws {

  import opened Complex
  import RealArith

  /** `new` builds the constants of the tests, the zero and the one among them, whose
      squared norms are 0 and 1. */
  lemma ConstantsExamples()
    ensures New(0.0, 0.0) == Zero() && New(1.0, 0.0) == One()
    ensures New(0.0, 1.0) == I() && New(0.5, 0.5) == Complex(0.5, 0.5)
    ensures NormSqr(Zero()) == 0.0 && NormSqr(One()) == 1.0
  {
  }

  /** The squared norms of the test constants `1 + i`, `-1 + i` and `0.5 + 0.5i`. */
  lemma NormSqrExamples()
    ensures NormSqr(Complex(1.0, 1.0)) == 2.0 && NormSqr(Complex(-1.0, 1.0)) == 2.0
    ensures NormSqr(Complex(0.5, 0.5)) == 0.5
  {
  }

  /** Scaling by `t` is multiplying by the complex number `t + 0i`, and it multiplies
      the squared norm by `t` squared. */
  lemma ScaleIsMulByReal(z: Complex, t: real)
    ensures Scale(z, t) == Mul(z, Complex(t, 0.0))
    ensures NormSqr(Scale(z, t)) == t * t * NormSqr(z)
  {
    RealArith.ScaledSumOfSquares(z.re, z.im, t);
  }

  /** For a nonzero `t`, `unscale` by `t` undoes `scale` by `t` and the other way round. */
  lemma ScaleUnscale(z: Complex, t: real)
    requires t != 0.0
    ensures Unscale(Scale(z, t), t) == z
    ensures Scale(Unscale(z, t), t) == z
  {
    RealArith.DivMul(z.re, t);
    RealArith.DivMul(z.im, t);
    RealArith.MulDiv(z.re, t);
    RealArith.MulDiv(z.im, t);
  }

  /** `0.5 + 0.5i` scaled by 2 is `1 + 1i`, and `1 + 1i` unscaled by 2 is `0.5 + 0.5i`. */
  lemma ScaleUnscaleExamples()
    ensures Scale(Complex(0.5, 0.5), 2.0) == Complex(1.0, 1.0)
    ensures Unscale(Complex(1.0, 1.0), 2.0) == Complex(0.5, 0.5)
  {
  }

  /** The conjugate keeps `re` and negates `im`, and conjugating twice is the identity. */
  lemma ConjInvolution(z: Complex)
    ensures Conj(z) == Complex(z.re, -z.im)
    ensures Conj(Conj(z)) == z
  {
  }

  /** A value times its conjugate is its squared norm, as a complex number with no
      imaginary portion. */
  lemma ConjTimesValue(z: Complex)
    ensures Mul(z, Conj(z)) == Complex(NormSqr(z), 0.0)
    ensures NormSqr(Conj(z)) == NormSqr(z)
  {
  }

  /** Negation negates both portions, negating twice is the identity, and the
      negation is the additive inverse. */
  lemma NegInvolution(z: Complex)
    ensures Neg(z) == Complex(-z.re, -z.im)
    ensures Neg(Neg(z)) == z
    ensures Add(z, Neg(z)) == Zero()
  {
  }

  /** `Zero()` is `0 + 0i`, satisfies `is_zero`, and is an identity for `+` on both sides. */
  lemma AddZero(z: Complex)
    ensures Zero() == Complex(0.0, 0.0) && IsZero(Zero())
    ensures Add(Zero(), z) == z && Add(z, Zero()) == z
  {
  }

  /** Subtracting is adding the negation. */
  lemma SubIsAddNeg(x: Complex, y: Complex)
    ensures Sub(x, y) == Add(x, Neg(y))
  {
  }

  /** Subtraction undoes addition, and addition undoes subtraction. */
  lemma SubUndoesAdd(x: Complex, y: Complex)
    ensures Sub(Add(x, y), y) == x
    ensures Add(Sub(x, y), y) == x
  {
  }

  /** Subtracting zero changes nothing; a value minus itself is zero. */
  lemma SubZero(z: Complex)
    ensures Sub(z, Zero()) == z
    ensures Sub(z, z) == Zero()
  {
  }

  /** `is_zero` holds exactly when both portions are zero, exactly when the squared
      norm is zero: `is_zero` is the negation of the precondition of `Div` and `Inv`. */
  lemma IsZeroIffNormSqrZero(z: Complex)
    ensures IsZero(z) <==> z.re == 0.0 && z.im == 0.0
    ensures IsZero(z) <==> NormSqr(z) == 0.0
  {
    NormSqrZero(z);
  }

  /** Addition is commutative and associative. */
  lemma AddCommAssoc(x: Complex, y: Complex, w: Complex)
    ensures Add(x, y) == Add(y, x)
    ensures Add(Add(x, y), w) == Add(x, Add(y, w))
  {
  }

  /** Multiplication is commutative and associative. */
  lemma MulCommAssoc(x: Complex, y: Complex, w: Complex)
    ensures Mul(x, y) == Mul(y, x)
    ensures Mul(Mul(x, y), w) == Mul(x, Mul(y, w))
  {
  }

  /** `One()` is `1 + 0i` and an identity for `*` on both sides. */
  lemma MulOne(z: Complex)
    ensures One() == Complex(1.0, 0.0)
    ensures Mul(z, One()) == z && Mul(One(), z) == z
  {
  }

  /** Multiplying by `i` turns `re + i im` into `-im + i re`, a quarter turn: three
      quarter turns take `re + i im` to `im - i re`. */
  lemma MulByI(z: Complex)
    ensures Mul(z, I()) == Complex(-z.im, z.re)
    ensures Mul(Mul(Mul(z, I()), I()), I()) == Complex(z.im, -z.re)
  {
  }

  /** Powers of the imaginary unit: `i*i == -1` and `i*i*i*i == 1`. */
  lemma ImaginaryUnitPowers()
    ensures Mul(I(), I()) == Neg(One())
    ensures Mul(Mul(Mul(I(), I()), I()), I()) == One()
  {
    MulByI(I());
  }

  /** `(-i) * i == 1`. */
  lemma NegITimesI()
    ensures Mul(Neg(I()), I()) == One()
  {
    MulByI(Neg(I()));
  }

  /** The sums the tests check on their constants. */
  lemma AddExamples()
    ensures Add(Complex(0.5, 0.5), Complex(0.5, 0.5)) == Complex(1.0, 1.0)
    ensures Add(I(), One()) == Complex(1.0, 1.0)
    ensures Add(One(), Complex(-1.0, 1.0)) == I()
  {
  }

  /** The differences the tests check on their constants. */
  lemma SubExamples()
    ensures Sub(Complex(0.5, 0.5), Complex(0.5, 0.5)) == Zero()
    ensures Sub(I(), One()) == Complex(-1.0, 1.0)
    ensures Sub(I(), Complex(-1.0, 1.0)) == One()
  {
  }

  /** The products the tests check on their constants. */
  lemma MulExamples()
    ensures Mul(Complex(0.5, 0.5), Complex(0.5, 0.5)) == Unscale(I(), 2.0)
    ensures Mul(Complex(1.0, 1.0), I()) == Complex(-1.0, 1.0)
  {
    assert Mul(Complex(0.5, 0.5), Complex(0.5, 0.5)) == Complex(0.0, 0.5);
  }

  /** The negations the tests check on their constants (the product `(-i)*i` is
      `NegITimesI`). */
  lemma NegExamples()
    ensures Add(Neg(One()), I()) == Complex(-1.0, 1.0)
    ensures Neg(Neg(Complex(-1.0, 1.0))) == Complex(-1.0, 1.0)
  {
    NegInvolution(Complex(-1.0, 1.0));
    assert Neg(One()) == Complex(-1.0, 0.0);
  }

  /** Conjugation distributes over products. */
  lemma ConjMul(x: Complex, y: Complex)
    ensures Conj(Mul(x, y)) == Mul(Conj(x), Conj(y))
  {
  }

  /** The squared norm of a product is the product of the squared norms. */
  lemma NormSqrMul(x: Complex, y: Complex)
    ensures NormSqr(Mul(x, y)) == NormSqr(x) * NormSqr(y)
  {
    RealArith.ProductOfSumsOfSquares(x.re, x.im, y.re, y.im);
  }

  /** Any value other than zero divided by itself is one. */
  lemma DivSelf(z: Complex)
    requires z != Zero()
    ensures NormSqr(z) != 0.0
    ensures Div(z, z) == One()
  {
    NormSqrZero(z);
    var n := NormSqr(z);
    assert z.re * z.re + z.im * z.im == n;
    assert (z.re * z.re + z.im * z.im) / n == 1.0;
    assert (z.im * z.re - z.re * z.im) / n == 0.0;
  }

  /** `(-1 + i) / i == 1 + i`. */
  lemma DivExample()
    ensures NormSqr(I()) == 1.0
    ensures Div(Complex(-1.0, 1.0), I()) == Complex(1.0, 1.0)
  {
  }

  /** Division is multiplication by the conjugate of the divisor, unscaled by the
      divisor's squared norm. */
  lemma DivIsMulConjUnscaled(x: Complex, y: Complex)
    requires NormSqr(y) != 0.0
    ensures Div(x, y) == Unscale(Mul(x, Conj(y)), NormSqr(y))
  {
    var a, b, c, d, n := x.re, x.im, y.re, y.im, NormSqr(y);
    var m := Mul(x, Conj(y));
    assert m.re == a * c + b * d && m.im == b * c - a * d;
  }

  /** `inv` is the conjugate unscaled by the squared norm. */
  lemma InvIsConjUnscaled(z: Complex)
    requires NormSqr(z) != 0.0
    ensures Inv(z) == Unscale(Conj(z), NormSqr(z))
  {
  }

  /** Division is multiplication by the inverse of the divisor. */
  lemma DivIsMulInv(x: Complex, y: Complex)
    requires NormSqr(y) != 0.0
    ensures Div(x, y) == Mul(x, Inv(y))
  {
    var a, b, c, d, n := x.re, x.im, y.re, y.im, NormSqr(y);
    var v := Inv(y);
    assert v.re == c / n && v.im == -d / n;
    RealArith.CombinationOfQuotients(a, b, c, d, n);
    var m := Mul(x, v);
    assert m.re == a * (c / n) - b * (-d / n);
    assert m.im == a * (-d / n) + b * (c / n);
    var q := Div(x, y);
    assert q.re == (a * c + b * d) / n;
    assert q.im == (b * c - a * d) / n;
  }

  /** Multiplying by a divisor of nonzero squared norm and dividing back by it gives
      the value back: together with `DivTimesDivisor`, `Div` by `y` and `Mul` by `y`
      are inverse to each other. */
  lemma MulThenDiv(w: Complex, y: Complex)
    requires NormSqr(y) != 0.0
    ensures Div(Mul(w, y), y) == w
  {
    DivIsMulInv(Mul(w, y), y);
    MulCommAssoc(w, y, Inv(y));
    InvTimesValue(y);
    MulOne(w);
  }

  /** `inv` is one divided by the value. */
  lemma InvIsOneOver(y: Complex)
    requires NormSqr(y) != 0.0
    ensures Inv(y) == Div(One(), y)
  {
    var n, c, d := NormSqr(y), y.re, y.im;
    assert 1.0 * c + 0.0 * d == c && 0.0 * c - 1.0 * d == -d;
  }

  /** `inv(1 + i) == conj(0.5 + 0.5i)`. */
  lemma InvExample()
    ensures Inv(Complex(1.0, 1.0)) == Conj(Complex(0.5, 0.5))
  {
  }
}
