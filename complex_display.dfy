/** The sign rule of `Display::fmt` for `Complex` (src/complex.rs): the text is the
    real portion, a separator, the magnitude of the imaginary portion and `i`. How a
    scalar itself is written is left to a formatter `show` supplied by the caller. */
module ComplexDisplay {

  import opened Complex

  /** What `fmt` hands to the scalar formatter: the real portion, the separator
      character written after it, and the value written after the separator. */
  datatype Rendering = Rendering(re: real, sep: char, magnitude: real)

  /** The imaginary portion a rendering stands for: its magnitude, negated after a
      `-` separator. */
  function Signed(r: Rendering): real
  {
    if r.sep == '-' then -r.magnitude else r.magnitude
  }

  /** `fmt` chooses `-` followed by `0 - im` exactly when `im` is negative, and `+`
      followed by `im` otherwise; so the value after the separator is never negative,
      is positive after a `-`, and together with the separator gives back `im`. */
  function Render(z: Complex): (r: Rendering)
    ensures r.re == z.re
    ensures r.sep == '-' <==> z.im < 0.0
    ensures r.sep == '+' <==> z.im >= 0.0
    ensures r.magnitude >= 0.0 && (r.sep == '-' ==> r.magnitude > 0.0)
    ensures Signed(r) == z.im
  {
    if z.im < 0.0 then Rendering(z.re, '-', 0.0 - z.im) else Rendering(z.re, '+', z.im)
  }

  /** The text `fmt` writes, with `show` writing each scalar. */
  function ToString(z: Complex, show: real -> string): string
  {
    var r := Render(z);
    show(r.re) + [r.sep] + show(r.magnitude) + "i"
  }

  /** Two values with the same rendering are equal: the rendering loses nothing. */
  lemma RenderInjective(z: Complex, w: Complex)
    ensures Render(z) == Render(w) <==> z == w
  {
    if Render(z) == Render(w) {
      assert z.im == Signed(Render(z)) == Signed(Render(w)) == w.im;
    }
  }

  /** The renderings of the test constants: `0+0i`, `1+0i`, `0+1i`, `1+1i`, `-1+1i`,
      `0.5+0.5i`, and for `-(-1 + i)` the separator `-` followed by magnitude 1,
      that is `1-1i`. */
  lemma RenderExamples(show: real -> string)
    ensures ToString(Zero(), show) == show(0.0) + "+" + show(0.0) + "i"
    ensures ToString(One(), show) == show(1.0) + "+" + show(0.0) + "i"
    ensures ToString(I(), show) == show(0.0) + "+" + show(1.0) + "i"
    ensures ToString(Complex(1.0, 1.0), show) == show(1.0) + "+" + show(1.0) + "i"
    ensures ToString(Complex(-1.0, 1.0), show) == show(-1.0) + "+" + show(1.0) + "i"
    ensures ToString(Complex(0.5, 0.5), show) == show(0.5) + "+" + show(0.5) + "i"
    ensures Render(Neg(Complex(-1.0, 1.0))) == Rendering(1.0, '-', 1.0)
    ensures ToString(Neg(Complex(-1.0, 1.0)), show) == show(1.0) + "-" + show(1.0) + "i"
  {
  }
}
