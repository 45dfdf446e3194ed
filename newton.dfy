/** The masked Newton iteration shared by the engine's two solvers
    (`implied_vol_f32x8` and `implied_ir_f32x8`). Written once here over an
    abstract `Problem`: the vector whose lanes must reach zero (`objective`,
    price minus target), its derivative (`slope`, vega or rho), the masked
    clamp applied after every update (`project`; none for the volatility
    solver), the first guess and the exit tolerance.

    The source loops run until `mask.all()` with no bound; `Solve` takes a
    `fuel` bound on the number of updates. */
module Newton {
  import opened RealMath
  import opened Lanes

  datatype Problem = Problem(
    objective: F32x8 -> F32x8,
    slope: F32x8 -> F32x8,
    project: F32x8 -> F32x8,
    start: F32x8,
    tolerance: real)

  /** The exit test: `diff.abs().cmp_lt(splat(tolerance)).all()`. */
  predicate Within(diff: F32x8, tolerance: real) {
    All(CmpLt(AbsV(diff), Splat(tolerance)))
  }

  /** The exit test on `a - b` holds exactly when every lane of `a` is within
      the tolerance of the same lane of `b`. */
  lemma WithinLanes(a: F32x8, b: F32x8, tolerance: real)
    ensures Within(Sub(a, b), tolerance) <==> forall i | 0 <= i < Width :: Abs(a[i] - b[i]) < tolerance
  {
    if Within(Sub(a, b), tolerance) {
      forall i | 0 <= i < Width
        ensures Abs(a[i] - b[i]) < tolerance
      {
        assert CmpLt(AbsV(Sub(a, b)), Splat(tolerance))[i];
      }
    }
  }

  /** The update of both loops: `bump_mask.blend(x - diff / derivative,
      x + diff / derivative)` with `bump_mask = diff.cmp_gt(0)`. */
  function NewtonUpdate(m: Math, x: F32x8, diff: F32x8, derivative: F32x8): F32x8 {
    var bump := Quot(m, diff, derivative);
    Blend(CmpGt(diff, Splat(0.0)), Sub(x, bump), Add(x, bump))
  }

  /** In both branches of the blend, a lane with a nonzero derivative moves by
      exactly -|diff| / derivative. */
  lemma NewtonUpdateLane(m: Math, x: F32x8, diff: F32x8, derivative: F32x8, i: int)
    requires 0 <= i < Width
    requires derivative[i] != 0.0
    ensures NewtonUpdate(m, x, diff, derivative)[i] == x[i] - Abs(diff[i]) / derivative[i]
  {
    if diff[i] <= 0.0 {
      assert Abs(diff[i]) / derivative[i] == -(diff[i] / derivative[i]);
    }
  }

  /** One pass of the loop body after a failed exit test. */
  function Step(m: Math, p: Problem, x: F32x8): F32x8 {
    p.project(NewtonUpdate(m, x, p.objective(x), p.slope(x)))
  }

  /** The iterate after `n` updates from the first guess. */
  function After(m: Math, p: Problem, n: nat): F32x8 {
    if n == 0 then p.start else Step(m, p, After(m, p, n - 1))
  }

  /** The exit test at `x`. */
  predicate Done(p: Problem, x: F32x8) {
    Within(p.objective(x), p.tolerance)
  }

  /** None of the first `n` iterates passed the exit test. */
  ghost predicate Missed(m: Math, p: Problem, n: nat) {
    n == 0 || (Missed(m, p, n - 1) && !Done(p, After(m, p, n - 1)))
  }

  /** An iterate before the `n`-th did not pass the exit test. */
  lemma {:induction false} MissedAt(m: Math, p: Problem, n: nat, k: nat)
    requires Missed(m, p, n)
    requires k < n
    ensures !Done(p, After(m, p, k))
  {
    if k < n - 1 {
      MissedAt(m, p, n - 1, k);
    }
  }

  /** The loop with at most `fuel` updates. It returns the first iterate that
      passes the exit test, reporting convergence, or else the `fuel`-th
      iterate, reporting none. */
  method Solve(m: Math, p: Problem, fuel: nat) returns (x: F32x8, converged: bool, iterations: nat)
    ensures iterations <= fuel
    ensures x == After(m, p, iterations)
    ensures converged <==> Done(p, x)
    ensures !converged ==> iterations == fuel
    ensures Missed(m, p, iterations)
  {
    x := p.start;
    iterations := 0;
    while true
      invariant iterations <= fuel
      invariant x == After(m, p, iterations)
      invariant Missed(m, p, iterations)
      decreases fuel - iterations
    {
      var diff := p.objective(x);
      var mask := CmpLt(AbsV(diff), Splat(p.tolerance));
      if All(mask) {
        converged := true;
        return;
      }
      if iterations == fuel {
        converged := false;
        return;
      }
      var derivative := p.slope(x);
      var bumpMask := CmpGt(diff, Splat(0.0));
      var bumpValue := Quot(m, diff, derivative);
      x := p.project(Blend(bumpMask, Sub(x, bumpValue), Add(x, bumpValue)));
      iterations := iterations + 1;
    }
  }
}
