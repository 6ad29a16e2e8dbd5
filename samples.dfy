/**
 * Sample values and the complex numbers the Fourier transform works on.
 * Decoded PCM samples are `f64` in the program; only `abs`, `max` and the
 * conversion to a complex number are applied to them here, so `real` stands
 * for them (no rounding, no NaN).
 */
module Samples {
  /** A complex number, as `rustfft::num_complex::Complex<f64>`. */
  datatype Complex = Complex(re: real, im: real)

  /** The complex zero used to pad a short channel buffer. */
  const Zero: Complex := Complex(0.0, 0.0)

  /** `Complex::from(x)`: the real part is the sample, the imaginary part zero. */
  function FromReal(x: real): (c: Complex)
    ensures c.re == x && c.im == 0.0
  {
    Complex(x, 0.0)
  }

  /** `f64::abs`. */
  function Abs(x: real): (r: real)
    ensures 0.0 <= r
    ensures r == x || r == -x
  {
    if x < 0.0 then -x else x
  }

  /** `f64::max`, for operands that are not NaN. */
  function Max(a: real, b: real): (r: real)
    ensures a <= r && b <= r
    ensures r == a || r == b
  {
    if a >= b then a else b
  }

  /** `.map(Complex::from)` over a run of samples. */
  function ToComplex(s: seq<real>): (r: seq<Complex>)
    ensures |r| == |s|
    ensures forall i :: 0 <= i < |s| ==> r[i].re == s[i] && r[i].im == 0.0
  {
    seq(|s|, i requires 0 <= i < |s| => FromReal(s[i]))
  }

  /** `.map(|c| c.re.abs())` over a run of complex values. */
  function ReMagnitudes(s: seq<Complex>): (r: seq<real>)
    ensures |r| == |s|
    ensures forall i :: 0 <= i < |s| ==> 0.0 <= r[i] && (r[i] == s[i].re || r[i] == -s[i].re)
  {
    seq(|s|, i requires 0 <= i < |s| => Abs(s[i].re))
  }
}
