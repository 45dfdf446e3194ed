/** The normal-distribution kernel of the 8-lane engine, one lane at a time:
    the Abramowitz-Stegun error function, the clamped cumulative normal and the
    normal density. Every lane of an f32x8 is computed by the same expression,
    so each function here is the value of one lane. */
module NormalDist {
  import opened RealMath

  // Abramowitz-Stegun coefficients, as written in the source.
  const P: real := 0.3275911
  const A1: real := 0.254829592
  const A2: real := -0.284496736
  const A3: real := 1.421413741
  const A4: real := -1.453152027
  const A5: real := 1.061405429

  /** `f32x8::SQRT_2` */
  const Sqrt2: real := 1.41421356237309504880168872420969808

  /** Inputs beyond these bounds are clamped by the cumulative normal. */
  const ClampLow: real := -100000.0
  const ClampHigh: real := 100000.0

  /** 1/sqrt(2 pi), the density's scale factor. */
  const InvSqrt2Pi: real := 0.3989422804014330

  /** The coefficients in the order the nested `mul_add`s consume them:
      `A5` innermost, `A1` outermost. */
  function Coefficient(k: nat): real {
    if k == 0 then A5 else if k == 1 then A4 else if k == 2 then A3 else if k == 3 then A2 else A1
  }

  /** The nesting of `mul_add`s (`a.mul_add(b, c)` is `a * b + c`) up to
      coefficient `k`: each level turns the inner value `h` into
      `u * h + Coefficient(k)`. */
  function Horner(u: real, k: nat): real {
    if k == 0 then Coefficient(0) else u * Horner(u, k - 1) + Coefficient(k)
  }

  /** The polynomial of the approximation, all five coefficients deep. */
  function Poly(u: real): real {
    Horner(u, 4)
  }

  /** The fold is the source's nesting of `mul_add`s. */
  lemma PolyNested(u: real)
    ensures Poly(u) == u * (u * (u * (A5 * u + A4) + A3) + A2) + A1
  {
    assert Horner(u, 1) == A5 * u + A4;
    assert Horner(u, 2) == u * (A5 * u + A4) + A3;
    assert Horner(u, 3) == u * (u * (A5 * u + A4) + A3) + A2;
  }

  /** `erf_f32x8`: the approximation computed on `|x|`, with the sign of `x`
      restored by blending on its sign bit. */
  function Erf(m: Math, x: real): real {
    var t := x < 0.0;
    var e := Abs(x);
    var mag := ErfMagnitude(m, e);
    if t then -mag else mag
  }

  /** The approximation on a non-negative argument `e`:
      `1 - u * exp(-e*e) * Poly(u)` with `u = 1 / (e * p + 1)`. */
  function ErfMagnitude(m: Math, e: real): real
    requires e >= 0.0
  {
    var u := 1.0 / (e * P + 1.0);
    var eu := u * m.exp(-e * e);
    1.0 - eu * Poly(u)
  }

  /** `ncd_f32x8`: `0.5 * (1 + erf(x / sqrt 2))`, forced to exactly 0 below
      -1e5 and exactly 1 above 1e5, whatever the approximation yields there. */
  function Ncd(m: Math, x: real): (r: real)
    ensures x < ClampLow ==> r == 0.0
    ensures x > ClampHigh ==> r == 1.0
    ensures ClampLow <= x <= ClampHigh ==> r == 0.5 * (1.0 + Erf(m, x / Sqrt2))
  {
    var v := 0.5 * (1.0 + Erf(m, x / Sqrt2));
    var v := if x < ClampLow then 0.0 else v;
    if x > ClampHigh then 1.0 else v
  }

  /** `npd_f32x8`, as written: the exponent is `+0.5 * x * x`. */
  function Npd(m: Math, x: real): real {
    m.exp(0.5 * x * x) * InvSqrt2Pi
  }

  /** The error function is odd away from zero: the magnitude is computed on
      `|x|`, which `x` and `-x` share, and only the sign is restored. */
  lemma ErfOdd(m: Math, x: real)
    requires x != 0.0
    ensures Erf(m, -x) == -Erf(m, x)
  {
    assert Abs(-x) == Abs(x);
  }

  /** Hence the cumulative normal is symmetric about 1/2 for every nonzero
      input, the clamped tails included. */
  lemma {:induction false} NcdSymmetric(m: Math, x: real)
    requires x != 0.0
    ensures Ncd(m, x) + Ncd(m, -x) == 1.0
  {
    if ClampLow <= x <= ClampHigh {
      assert (-x) / Sqrt2 == -(x / Sqrt2);
      ErfOdd(m, x / Sqrt2);
    }
  }

  /** The density is even. */
  lemma NpdEven(m: Math, x: real)
    ensures Npd(m, -x) == Npd(m, x)
  {
    assert (-x) * (-x) == x * x;
  }

  /** The density is positive for every lawful exponential. */
  lemma NpdPositive(m: Math, x: real)
    requires Lawful(m)
    ensures Npd(m, x) > 0.0
  {
    assert m.exp(0.5 * x * x) > 0.0;
  }
}
