# Complex numbers in Cartesian form, exact arithmetic

This project models the arithmetic core of the generic complex-number type
`Complex<T>` in `src/complex.rs`. A value is a pair of portions `re` and `im`. The
operations modelled are:

- the constructor `new`;
- `norm_sqr`, `scale`, `unscale`, `conj` and `inv`;
- `+`, `-`, `*` and `/` on two references, and unary `-`;
- the constants of `Zero` and `One`, and `is_zero`;
- the sign rule of `Display`.

The scalar type `T` is instantiated twice:

- **Over an exact field** (module `Complex`, with laws in `ComplexLaws`). `T` is
  Dafny's `real`, so every operation is the source's closed-form formula with no
  rounding. Division by a zero scalar is excluded by a precondition on `Unscale`,
  `Div` and `Inv`. `NormSqrZero` and `IsZeroIffNormSqrZero` show that this
  precondition says exactly "the divisor is not `Zero()`".
- **Over a Rust primitive integer type** (module `IntComplex`), as in
  `Complex::new(2, 3)`. Here the scalar `/` truncates toward zero (`IntArith.Quot`),
  and a zero divisor panics. The model returns that panic as the `DivideByZero`
  result, so the integer division functions are total.

Module `ComplexDisplay` models how `fmt` chooses between the `+` and `-` separator
and which value it writes after it. Writing a scalar as text is left to a function
`show` that the caller supplies.

Modules `RealArith` and `IntArith` hold small facts about plain real and integer
arithmetic that the proofs use: signs of squares, cancellation, and quotients.

Every operation is paired with a law that relates it to another operation:

- `Unscale` undoes `Scale`;
- `Div` by `y` and `Mul` by `y` undo each other, and `Mul(z, Inv(z))` is one;
- over the integers, `Inv` is `Div` of one, and `Div` is exact on exact multiples;
- `Conj` and `Neg` are involutions;
- `Sub` undoes `Add`;
- `Render` loses nothing.

The identities that the source's own tests assert on their constants are also
proved, as example lemmas.

## Model

| member | source | states |
|---|---|---|
| Complex.New | src/complex.rs:38-40 | `new(re, im)` has exactly `re` and `im` as its portions, unchanged |
| Complex.NormSqr | src/complex.rs:45-47 | `re^2 + im^2` is never negative |
| Complex.NormSqrZero | src/complex.rs:45-47 | the squared norm is zero if and only if the value is `0 + 0i` |
| Complex.IsZero | src/complex.rs:418-420 | `is_zero` holds exactly for the value equal to `zero()` |
| Complex.DivTimesDivisor | src/complex.rs:387-391 | for a divisor of nonzero squared norm, `(x / y) * y == x`: division inverts multiplication |
| Complex.InvTimesValue | src/complex.rs:71-75 | `z * inv(z) == 1` for every `z` of nonzero squared norm |
| ComplexLaws.ConstantsExamples | src/complex.rs:461-474 | `new` builds the test constants; `zero()` and `one()` are `new(0,0)` and `new(1,0)`, with squared norms 0 and 1 |
| ComplexLaws.NormSqrExamples | src/complex.rs:479-489 | the squared norms of `1+i`, `-1+i` and `0.5+0.5i` are 2, 2 and 0.5 |
| ComplexLaws.ScaleIsMulByReal | src/complex.rs:51-53 | `scale(z, t)` is `z * (t + 0i)` and multiplies the squared norm by `t*t` |
| ComplexLaws.ScaleUnscale | src/complex.rs:51-59 | for nonzero `t`, `unscale(scale(z, t), t) == z` and `scale(unscale(z, t), t) == z` |
| ComplexLaws.ScaleUnscaleExamples | src/complex.rs:492-498 | `scale(0.5+0.5i, 2) == 1+i` and `unscale(1+i, 2) == 0.5+0.5i` |
| ComplexLaws.ConjInvolution | src/complex.rs:65-67 | `conj` keeps `re`, negates `im`, and `conj(conj(z)) == z` |
| ComplexLaws.ConjTimesValue | src/complex.rs:65-67 | `z * conj(z)` is `norm_sqr(z) + 0i`, and conjugation keeps the squared norm |
| ComplexLaws.NegInvolution | src/complex.rs:405-407 | negation negates both portions, `-(-z) == z`, and `z + (-z) == 0` |
| ComplexLaws.AddZero | src/complex.rs:413-415 | `zero()` is `0 + 0i`, satisfies `is_zero`, and is a two-sided identity of `+` |
| ComplexLaws.SubIsAddNeg | src/complex.rs:360-363 | `x - y == x + (-y)` |
| ComplexLaws.SubUndoesAdd | src/complex.rs:347-363 | `(x + y) - y == x` and `(x - y) + y == x` |
| ComplexLaws.SubZero | src/complex.rs:858-867 | `z - 0 == z` and `z - z == 0` for every `z` |
| ComplexLaws.IsZeroIffNormSqrZero | src/complex.rs:418-420 | `is_zero(z)` if and only if both portions are zero, if and only if `norm_sqr(z) == 0` |
| ComplexLaws.AddCommAssoc | src/complex.rs:347-350 | addition is commutative and associative |
| ComplexLaws.MulCommAssoc | src/complex.rs:373-376 | multiplication is commutative and associative |
| ComplexLaws.MulOne | src/complex.rs:425-427 | `one()` is `1 + 0i` and a two-sided identity of `*` |
| ComplexLaws.MulByI | src/complex.rs:373-376 | multiplying by `i` maps `re + i im` to `-im + i re`; three such products give `im - i re` |
| ComplexLaws.ImaginaryUnitPowers | src/complex.rs:875-876 | `i*i == -1` and `i*i*i*i == 1` |
| ComplexLaws.NegITimesI | src/complex.rs:895 | `(-i) * i == 1` |
| ComplexLaws.AddExamples | src/complex.rs:846-855 | the three sums of test constants: `1+i`, `1+i` and `i` |
| ComplexLaws.SubExamples | src/complex.rs:858-867 | the three differences of test constants: `0`, `-1+i` and `1` |
| ComplexLaws.MulExamples | src/complex.rs:870-882 | `(0.5+0.5i)^2 == unscale(i, 2)` and `(1+i) * i == -1+i` |
| ComplexLaws.NegExamples | src/complex.rs:893-899 | `-(1) + i == -1+i` and `-(-(-1+i)) == -1+i` |
| ComplexLaws.ConjMul | src/complex.rs:65-67 | the conjugate of a product is the product of the conjugates |
| ComplexLaws.NormSqrMul | src/complex.rs:45-47 | the squared norm of a product is the product of the squared norms |
| ComplexLaws.DivSelf | src/complex.rs:884-891 | every value other than zero has a nonzero squared norm and `z / z == 1` |
| ComplexLaws.DivExample | src/complex.rs:884-891 | `(-1+i) / i == 1+i`, with `norm_sqr(i) == 1` |
| ComplexLaws.DivIsMulConjUnscaled | src/complex.rs:381-391 | `x / y == unscale(x * conj(y), norm_sqr(y))`, the derivation in the source's comment |
| ComplexLaws.InvIsConjUnscaled | src/complex.rs:71-75 | `inv(z) == unscale(conj(z), norm_sqr(z))` |
| ComplexLaws.DivIsMulInv | src/complex.rs:387-391 | `x / y == x * inv(y)` |
| ComplexLaws.MulThenDiv | src/complex.rs:387-391 | for a divisor of nonzero squared norm, `(w * y) / y == w`: with `DivTimesDivisor`, dividing by `y` and multiplying by `y` undo each other |
| ComplexLaws.InvIsOneOver | src/complex.rs:71-75 | `inv(y) == 1 / y` |
| ComplexLaws.InvExample | src/complex.rs:509-512 | `inv(1+i) == conj(0.5+0.5i)` |
| ComplexDisplay.Render | src/complex.rs:434-440 | the separator is `-` if and only if `im < 0`, and `+` otherwise; the value after it is never negative; together they give back `im`; `re` is written unchanged |
| ComplexDisplay.RenderInjective | src/complex.rs:434-440 | two values render alike if and only if they are equal |
| ComplexDisplay.RenderExamples | src/complex.rs:903-914 | the seven strings of the test constants, with `-(-1+i)` written as `1-1i` |
| IntArith.Quot | src/complex.rs:57-59 | the scalar `/` of a Rust integer truncates toward zero: the remainder is smaller than the divisor in magnitude and never has the opposite sign to the dividend |
| IntComplex.NormSqr | src/complex.rs:45-47 | over integers the squared norm is never negative, and is zero only at `0 + 0i` |
| IntComplex.Unscale | src/complex.rs:57-59 | `unscale` panics if and only if `t == 0` |
| IntComplex.Div | src/complex.rs:387-391 | `/` panics if and only if the divisor is `0 + 0i` |
| IntComplex.Inv | src/complex.rs:71-75 | `inv` panics if and only if the value is `0 + 0i` |
| IntComplex.InvIsOneOver | src/complex.rs:69-75 | over integers, `inv(z) == 1 / z` for every `z`, the zero value included, where both panic |
| IntComplex.DivideByZeroExample | src/complex.rs:514-520 | `(2+3i) / (0+0i)` panics |
| IntComplex.ScaleUnscale | src/complex.rs:51-59 | for nonzero `t`, `unscale(scale(z, t), t) == z` even with truncating division |
| IntComplex.ExactDiv | src/complex.rs:387-391 | if `x == w * y` and `y` is not zero, then `x / y == w` exactly |
| IntComplex.DivSelf | src/complex.rs:884-891 | over integers, `z / z == 1` for every nonzero `z` |
| IntComplex.DivExample | src/complex.rs:884-891 | over integers, `(-1+i) / i == 1+i` |
| IntComplex.TruncationExamples | src/complex.rs:57-59 | `inv(1+i)` truncates to `0`, `inv(1) == 1`, and `unscale(-7+7i, 2) == -3+3i` |

## Left out

- The polar and transcendental layer (`norm`, `arg`, `to_polar`, `from_polar`, `exp`, `ln`, `sqrt`, the trigonometric and hyperbolic functions; lines 78-284) is left out: it needs floating point and the scalar's `Float` operations.
- `is_nan` (lines 287-289) is left out: an exact scalar has no NaN.
- Floating-point results are left out: rounding, `-0.0`, infinities and NaN, including the NaN that `inv` of zero gives for `f64` (lines 522-526). Over `real`, `Unscale`, `Div` and `Inv` instead require a nonzero divisor.
- Complex.Unscale: over `real` it requires a nonzero `t` rather than returning the floating-point result at zero. The panic at zero is modelled in `IntComplex.Unscale`.
- Complex.Div: over `real` it requires a divisor of nonzero squared norm rather than returning the floating-point result at zero. The panic at zero is modelled in `IntComplex.Div`.
- Complex.Inv: over `real` it requires a nonzero squared norm rather than returning the floating-point result at zero. The panic at zero is modelled in `IntComplex.Inv`.
- The forwarding macros (lines 292-337) and the by-value and mixed-reference impls they generate are left out. They call the ref-ref impls modelled here.
- The text form of a scalar is the caller's function `show`. Rust's float and integer formatting is not part of this model.
- The derived `Clone`, `Debug`, `Hash`, `RustcEncodable` and `RustcDecodable`, and the hash tests (lines 23-24 and 916-926), are left out. Structural datatype equality stands for the derived `PartialEq`.
- IntComplex: integers are unbounded, so fixed-width overflow, such as the products in `norm_sqr` or `i32::MIN / -1`, is not modelled.
- IntComplex: `+`, `-`, unary `-` and `conj` use the same formulas as over `real` and are not written out a second time.
