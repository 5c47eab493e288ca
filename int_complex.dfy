/** `Complex<T>` (src/complex.rs) instantiated at a Rust primitive integer type, such
    as `Complex::new(2, 3)`. The ring operations are the same closed-form formulas as
    over `real` (module `Complex`); what changes is division: the scalar `/`
    truncates toward zero, and dividing by a zero scalar panics, which the model
    returns as `DivideByZero`. */
module IntComplex {

  import opened IntArith

  /** A complex number with integer portions. */
  datatype Complex = Complex(re: int, im: int)

  /** The outcome of an operation that divides by a scalar: its value, or the panic of
      integer division by zero. */
  datatype Quotient = Value(z: Complex) | DivideByZero

  /** `0 + 0i`. */
  function Zero(): Complex
  {
    Complex(0, 0)
  }

  /** `1 + 0i`. */
  function One(): Complex
  {
    Complex(1, 0)
  }

  /** `0 + 1i`. */
  function I(): Complex
  {
    Complex(0, 1)
  }

  /** `re^2 + im^2`: never negative, and zero only at the origin. */
  function NormSqr(z: Complex): (n: int)
    ensures n >= 0
    ensures n == 0 <==> z == Zero()
  {
    assert z.re * z.re + z.im * z.im == Square(z.re) + Square(z.im);
    SquareSign(z.re);
    SquareSign(z.im);
    SumOfSquaresZero(z.re, z.im);
    z.re * z.re + z.im * z.im
  }

  /** Both portions times the scalar `t`. */
  function Scale(z: Complex, t: int): Complex
  {
    Complex(z.re * t, z.im * t)
  }

  /** `(a + i b) * (c + i d) == (a*c - b*d) + i (a*d + b*c)`. */
  function Mul(x: Complex, y: Complex): Complex
  {
    Complex(x.re * y.re - x.im * y.im, x.re * y.im + x.im * y.re)
  }

  /** Both portions divided by the scalar `t`, each truncated toward zero; panics
      exactly when `t` is zero. */
  function Unscale(z: Complex, t: int): (r: Quotient)
    ensures r.DivideByZero? <==> t == 0
  {
    if t == 0 then DivideByZero else Value(Complex(Quot(z.re, t), Quot(z.im, t)))
  }

  /** The division formula of `Div` with each portion truncated toward zero; panics
      exactly when the divisor is zero. */
  function Div(x: Complex, y: Complex): (r: Quotient)
    ensures r.DivideByZero? <==> y == Zero()
  {
    var n := NormSqr(y);
    if n == 0 then DivideByZero
    else Value(Complex(Quot(x.re * y.re + x.im * y.im, n), Quot(x.im * y.re - x.re * y.im, n)))
  }

  /** The conjugate over the squared norm, each portion truncated toward zero; panics
      exactly at zero. */
  function Inv(z: Complex): (r: Quotient)
    ensures r.DivideByZero? <==> z == Zero()
  {
    var n := NormSqr(z);
    if n == 0 then DivideByZero else Value(Complex(Quot(z.re, n), Quot(-z.im, n)))
  }

  /** `inv` is one divided by the value, over the integers too: both truncate the same
      two numerators by the same squared norm, and both panic at zero. */
  lemma InvIsOneOver(z: Complex)
    ensures Inv(z) == Div(One(), z)
  {
    assert 1 * z.re + 0 * z.im == z.re;
    assert 0 * z.re - 1 * z.im == -z.im;
  }

  /** Dividing `2 + 3i` by `0 + 0i` panics. */
  lemma DivideByZeroExample()
    ensures Div(Complex(2, 3), Complex(0, 0)) == DivideByZero
  {
  }

  /** For a nonzero `t`, `unscale` by `t` undoes `scale` by `t`: no truncation happens. */
  lemma ScaleUnscale(z: Complex, t: int)
    requires t != 0
    ensures Unscale(Scale(z, t), t) == Value(z)
  {
    QuotExact(z.re, t);
    QuotExact(z.im, t);
  }

  /** When the divisor divides the dividend exactly, integer division gives the exact
      quotient: truncation only affects quotients that are not Gaussian integers. */
  lemma ExactDiv(x: Complex, y: Complex, w: Complex)
    requires y != Zero() && x == Mul(w, y)
    ensures Div(x, y) == Value(w)
  {
    var a, b, c, d, n := x.re, x.im, y.re, y.im, NormSqr(y);
    assert a * c + b * d == w.re * n by {
      assert a * c + b * d == (w.re * c - w.im * d) * c + (w.re * d + w.im * c) * d;
    }
    assert b * c - a * d == w.im * n by {
      assert b * c - a * d == (w.re * d + w.im * c) * c - (w.re * c - w.im * d) * d;
    }
    QuotExact(w.re, n);
    QuotExact(w.im, n);
  }

  /** Any value other than zero divided by itself is one. */
  lemma DivSelf(z: Complex)
    requires z != Zero()
    ensures Div(z, z) == Value(One())
  {
    ExactDiv(z, z, One());
  }

  /** `(-1 + i) / i == 1 + i` over the integers too. */
  lemma DivExample()
    ensures Div(Complex(-1, 1), I()) == Value(Complex(1, 1))
  {
    ExactDiv(Complex(-1, 1), I(), Complex(1, 1));
  }

  /** Truncation at work: `inv(1 + i)` is `0.5 - 0.5i` exactly, and `0 + 0i` once each
      portion is truncated; `(-7 + 7i) / 2` truncates both portions toward zero. */
  lemma TruncationExamples()
    ensures Inv(Complex(1, 1)) == Value(Zero())
    ensures Inv(One()) == Value(One())
    ensures Unscale(Complex(-7, 7), 2) == Value(Complex(-3, 3))
  {
    assert NormSqr(Complex(1, 1)) == 2;
    assert Quot(1, 2) == 0 && Quot(-1, 2) == 0;
    assert NormSqr(One()) == 1;
    assert Quot(1, 1) == 1 && Quot(0, 1) == 0;
    assert Quot(-7, 2) == -3 && Quot(7, 2) == 3;
  }
}
