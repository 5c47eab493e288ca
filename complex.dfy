/** The exact-arithmetic layer of the generic Cartesian complex type `Complex<T>`
    (src/complex.rs), instantiated at an exact field scalar: `T` is Dafny's `real`,
    so every operation below is the source's closed-form formula over `re` and `im`
    with no rounding. Division by a zero scalar is excluded by `requires`, as the
    scalar's own division excludes it. */
module Complex {

  import RealArith

  /** A complex number in Cartesian form: real portion `re`, imaginary portion `im`.
      Equality is structural, field by field (the derived `PartialEq`). */
  datatype Complex = Complex(re: real, im: real)

  /** `Complex::new`: builds the value from its two portions, without validation. */
  function New(re: real, im: real): (z: Complex)
    ensures z.re == re && z.im == im
  {
    Complex(re, im)
  }

  /** Additive identity `0 + 0i` (`Zero::zero`). */
  function Zero(): Complex
  {
    Complex(0.0, 0.0)
  }

  /** Multiplicative identity `1 + 0i` (`One::one`). */
  function One(): Complex
  {
    Complex(1.0, 0.0)
  }

  /** The imaginary unit `0 + 1i` (the constant `_0_1i` of the tests). */
  function I(): Complex
  {
    Complex(0.0, 1.0)
  }

  /** Squared norm `re^2 + im^2`, never negative. */
  function NormSqr(z: Complex): (n: real)
    ensures n >= 0.0
  {
    z.re * z.re + z.im * z.im
  }

  /** The squared norm vanishes exactly at the origin: the one value that division
      and `inv` cannot take. */
  lemma NormSqrZero(z: Complex)
    ensures NormSqr(z) == 0.0 <==> z == Zero()
  {
    assert NormSqr(z) == RealArith.Square(z.re) + RealArith.Square(z.im);
    RealArith.SumOfSquaresZero(z.re, z.im);
  }

  /** `is_zero`: both portions are zero, that is, the value is `Zero()`, and so its
      squared norm vanishes and it cannot be a divisor. */
  predicate IsZero(z: Complex)
    ensures IsZero(z) <==> z == Zero()
  {
    z.re == 0.0 && z.im == 0.0
  }

  /** Multiplies both portions by the scalar `t`. */
  function Scale(z: Complex, t: real): Complex
  {
    Complex(z.re * t, z.im * t)
  }

  /** Divides both portions by the scalar `t`, which must not be zero. */
  function Unscale(z: Complex, t: real): Complex
    requires t != 0.0
  {
    Complex(z.re / t, z.im / t)
  }

  /** Complex conjugate `re - i im`. */
  function Conj(z: Complex): Complex
  {
    Complex(z.re, -z.im)
  }

  /** Unary negation, portion by portion. */
  function Neg(z: Complex): Complex
  {
    Complex(-z.re, -z.im)
  }

  /** `(a + i b) + (c + i d) == (a + c) + i (b + d)`. */
  function Add(x: Complex, y: Complex): Complex
  {
    Complex(x.re + y.re, x.im + y.im)
  }

  /** `(a + i b) - (c + i d) == (a - c) + i (b - d)`. */
  function Sub(x: Complex, y: Complex): Complex
  {
    Complex(x.re - y.re, x.im - y.im)
  }

  /** `(a + i b) * (c + i d) == (a*c - b*d) + i (a*d + b*c)`. */
  function Mul(x: Complex, y: Complex): Complex
  {
    Complex(x.re * y.re - x.im * y.im, x.re * y.im + x.im * y.re)
  }

  /** `(a + i b) / (c + i d) == ((a*c + b*d) + i (b*c - a*d)) / (c*c + d*d)`,
      defined only for a divisor of nonzero squared norm. */
  function Div(x: Complex, y: Complex): Complex
    requires NormSqr(y) != 0.0
  {
    var n := NormSqr(y);
    Complex((x.re * y.re + x.im * y.im) / n, (x.im * y.re - x.re * y.im) / n)
  }

  /** `1/self`: the conjugate over the squared norm, portion by portion, defined only
      away from zero. */
  function Inv(z: Complex): Complex
    requires NormSqr(z) != 0.0
  {
    var n := NormSqr(z);
    Complex(z.re / n, -z.im / n)
  }

  /** The quotient times the divisor gives back the dividend: `Div` is the inverse of
      multiplication by a divisor of nonzero squared norm. */
  lemma DivTimesDivisor(x: Complex, y: Complex)
    requires NormSqr(y) != 0.0
    ensures Mul(Div(x, y), y) == x
  {
    var n, q := NormSqr(y), Div(x, y);
    RealArith.DivMul(x.re * y.re + x.im * y.im, n);
    RealArith.DivMul(x.im * y.re - x.re * y.im, n);
    RealArith.QuotientTimesDivisor(x.re, x.im, y.re, y.im, n, q.re, q.im);
  }

  /** A value times its inverse is one. */
  lemma InvTimesValue(z: Complex)
    requires NormSqr(z) != 0.0
    ensures Mul(z, Inv(z)) == One()
  {
    var a, b, n, r := z.re, z.im, NormSqr(z), Inv(z);
    RealArith.DivMul(a, n);
    RealArith.DivMul(-b, n);
    assert (a * r.re - b * r.im) * n == a * a + b * b == 1.0 * n;
    RealArith.Cancel(a * r.re - b * r.im, 1.0, n);
    assert (a * r.im + b * r.re) * n == a * (-b) + b * a == 0.0 * n;
    RealArith.Cancel(a * r.im + b * r.re, 0.0, n);
  }
}
