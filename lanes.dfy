/** The 8-lane single-precision vector type of the `wide` crate, as eight reals.
    Only the operations that act on whole vectors in the solvers are modelled
    here: lane-wise arithmetic, comparison into a mask, `blend` and `all`. */
module Lanes {
  import opened RealMath

  const Width: nat := 8

  type F32x8 = s: seq<real> | |s| == Width witness [0.0, 0.0, 0.0, 0.0, 0.0, 0.0, 0.0, 0.0]
  type Mask = s: seq<bool> | |s| == Width witness [false, false, false, false, false, false, false, false]

  function Splat(x: real): F32x8 {
    seq(Width, _ => x)
  }

  function Add(a: F32x8, b: F32x8): F32x8 {
    seq(Width, i requires 0 <= i < Width => a[i] + b[i])
  }

  function Sub(a: F32x8, b: F32x8): F32x8 {
    seq(Width, i requires 0 <= i < Width => a[i] - b[i])
  }

  function Quot(m: Math, a: F32x8, b: F32x8): F32x8 {
    seq(Width, i requires 0 <= i < Width => Div(m, a[i], b[i]))
  }

  function AbsV(a: F32x8): F32x8 {
    seq(Width, i requires 0 <= i < Width => Abs(a[i]))
  }

  function CmpLt(a: F32x8, b: F32x8): Mask {
    seq(Width, i requires 0 <= i < Width => a[i] < b[i])
  }

  function CmpGt(a: F32x8, b: F32x8): Mask {
    seq(Width, i requires 0 <= i < Width => a[i] > b[i])
  }

  /** `mask.blend(t, f)`: `t` in the lanes where the mask is set, `f` elsewhere. */
  function Blend(mask: Mask, t: F32x8, f: F32x8): F32x8 {
    seq(Width, i requires 0 <= i < Width => if mask[i] then t[i] else f[i])
  }

  /** `mask.all()`: every lane of the mask is set. */
  predicate All(mask: Mask) {
    forall i | 0 <= i < Width :: mask[i]
  }
}
