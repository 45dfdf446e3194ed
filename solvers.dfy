/** The two solvers of the 8-lane engine, `implied_vol_f32x8` and
    `implied_ir_f32x8`, as instances of the masked Newton iteration in
    `Newton`. Each lane runs its own iteration, but the loop stops only once
    every lane meets the tolerance, so the lanes are handled as whole vectors. */
module Solvers {
  import opened RealMath
  import opened Lanes
  import opened Pricing
  import opened Newton

  /** The exit tolerance of `implied_vol_f32x8`. */
  const VolTolerance: real := 0.001
  /** The exit tolerance of `implied_ir_f32x8`. */
  const IrTolerance: real := 0.0001
  /** The first volatility guess. */
  const InitialVolatility: real := 0.2
  /** The first interest-rate guess. */
  const InitialRate: real := 0.05
  /** The upper end of the interest-rate clamp (the lower end is zero). */
  const MaxRate: real := 2.0

  // ---------------------------------------------------------------------------
  // The pricing functions on whole vectors

  /** `price_f32x8` */
  function PriceLanes(m: Math, dir: OptionDir, spot: F32x8, strike: F32x8, yearsToExpiry: F32x8,
                      riskFreeRate: F32x8, volatility: F32x8, dividendYield: F32x8): F32x8 {
    seq(Width, i requires 0 <= i < Width =>
      Price(m, dir, spot[i], strike[i], yearsToExpiry[i], riskFreeRate[i], volatility[i], dividendYield[i]))
  }

  /** `vega_f32x8` */
  function VegaLanes(m: Math, spot: F32x8, strike: F32x8, yearsToExpiry: F32x8,
                     riskFreeRate: F32x8, volatility: F32x8, dividendYield: F32x8): F32x8 {
    seq(Width, i requires 0 <= i < Width =>
      Vega(m, spot[i], strike[i], yearsToExpiry[i], riskFreeRate[i], volatility[i], dividendYield[i]))
  }

  /** `rho` */
  function RhoLanes(m: Math, dir: OptionDir, spot: F32x8, strike: F32x8, yearsToExpiry: F32x8,
                    riskFreeRate: F32x8, volatility: F32x8, dividendYield: F32x8): F32x8 {
    seq(Width, i requires 0 <= i < Width =>
      Rho(m, dir, spot[i], strike[i], yearsToExpiry[i], riskFreeRate[i], volatility[i], dividendYield[i]))
  }

  // ---------------------------------------------------------------------------
  // Implied volatility

  /** The volatility solver applies no clamp after an update. */
  function Unclamped(vol: F32x8): F32x8 {
    vol
  }

  /** The iteration of `implied_vol_f32x8`: drive price(vol) - price to zero
      along vega, from 0.2, with no clamp, to within 0.001. */
  function VolProblem(m: Math, dir: OptionDir, price: F32x8, spot: F32x8, strike: F32x8,
                      yearsToExpiry: F32x8, riskFreeRate: F32x8, dividendYield: F32x8): Problem {
    Problem(
      vol => Sub(PriceLanes(m, dir, spot, strike, yearsToExpiry, riskFreeRate, vol, dividendYield), price),
      vol => VegaLanes(m, spot, strike, yearsToExpiry, riskFreeRate, vol, dividendYield),
      Unclamped,
      Splat(InitialVolatility),
      VolTolerance)
  }

  /** `implied_vol_f32x8`, stopped after at most `fuel` updates: the first
      volatility iterate that passes the exit test, or the `fuel`-th. */
  method ImpliedVol(m: Math, dir: OptionDir, price: F32x8, spot: F32x8, strike: F32x8,
                    yearsToExpiry: F32x8, riskFreeRate: F32x8, dividendYield: F32x8, fuel: nat)
    returns (volatility: F32x8, converged: bool, iterations: nat)
    ensures iterations <= fuel
    ensures volatility
            == After(m, VolProblem(m, dir, price, spot, strike, yearsToExpiry, riskFreeRate, dividendYield), iterations)
    ensures converged
            <==> Done(VolProblem(m, dir, price, spot, strike, yearsToExpiry, riskFreeRate, dividendYield), volatility)
    ensures !converged ==> iterations == fuel
    ensures Missed(m, VolProblem(m, dir, price, spot, strike, yearsToExpiry, riskFreeRate, dividendYield), iterations)
  {
    volatility, converged, iterations :=
      Solve(m, VolProblem(m, dir, price, spot, strike, yearsToExpiry, riskFreeRate, dividendYield), fuel);
  }

  /** The volatility solver stops exactly when every lane prices within 0.001
      of its target. */
  lemma VolDoneLanes(m: Math, dir: OptionDir, price: F32x8, spot: F32x8, strike: F32x8,
                     yearsToExpiry: F32x8, riskFreeRate: F32x8, dividendYield: F32x8, vol: F32x8)
    ensures Done(VolProblem(m, dir, price, spot, strike, yearsToExpiry, riskFreeRate, dividendYield), vol)
            <==> forall i | 0 <= i < Width ::
                   Abs(PriceLanes(m, dir, spot, strike, yearsToExpiry, riskFreeRate, vol, dividendYield)[i] - price[i])
                   < VolTolerance
  {
    WithinLanes(PriceLanes(m, dir, spot, strike, yearsToExpiry, riskFreeRate, vol, dividendYield), price, VolTolerance);
  }

  /** Each volatility update moves a lane with nonzero vega by exactly
      -|diff| / vega, whichever way the price misses. The lemma holds for any
      iteration without a clamp; in `VolProblem` the objective is
      price(vol) - price and the slope is vega. */
  lemma VolStepLane(m: Math, p: Problem, vol: F32x8, i: int)
    requires p.project == Unclamped
    requires 0 <= i < Width
    requires p.slope(vol)[i] != 0.0
    ensures Step(m, p, vol)[i] == vol[i] - Abs(p.objective(vol)[i]) / p.slope(vol)[i]
  {
    NewtonUpdateLane(m, vol, p.objective(vol), p.slope(vol), i);
  }

  /** `VolProblem` is such an iteration. */
  lemma VolProblemUnclamped(m: Math, dir: OptionDir, price: F32x8, spot: F32x8, strike: F32x8,
                            yearsToExpiry: F32x8, riskFreeRate: F32x8, dividendYield: F32x8)
    ensures VolProblem(m, dir, price, spot, strike, yearsToExpiry, riskFreeRate, dividendYield).project == Unclamped
  {
  }

  // ---------------------------------------------------------------------------
  // Implied interest rate

  /** The two masked clamps after each rate update: negative lanes become 0,
      then lanes above 2 become 2. */
  function ClampRate(x: F32x8): F32x8 {
    var low := Blend(CmpLt(x, Splat(0.0)), Splat(0.0), x);
    Blend(CmpGt(low, Splat(MaxRate)), Splat(MaxRate), low)
  }

  /** Every lane lies in the clamp box [0, 2]. */
  predicate InRateBox(rate: F32x8) {
    forall i | 0 <= i < Width :: 0.0 <= rate[i] <= MaxRate
  }

  /** The clamps land every lane in [0, 2], and change only the lanes outside it. */
  lemma ClampRateBox(x: F32x8)
    ensures InRateBox(ClampRate(x))
    ensures forall i | 0 <= i < Width ::
              ClampRate(x)[i] == (if x[i] < 0.0 then 0.0 else if x[i] > MaxRate then MaxRate else x[i])
  {
  }

  /** The iteration of `implied_ir_f32x8`: drive price(rate) - price to zero
      along rho, from 0.05, clamping into [0, 2], to within 0.0001. */
  function IrProblem(m: Math, dir: OptionDir, price: F32x8, spot: F32x8, strike: F32x8,
                     yearsToExpiry: F32x8, volatility: F32x8, dividendYield: F32x8): Problem {
    Problem(
      rate => Sub(PriceLanes(m, dir, spot, strike, yearsToExpiry, rate, volatility, dividendYield), price),
      rate => RhoLanes(m, dir, spot, strike, yearsToExpiry, rate, volatility, dividendYield),
      ClampRate,
      Splat(InitialRate),
      IrTolerance)
  }

  /** Every rate iterate, the first guess 0.05 included, lies in [0, 2]. */
  lemma IrAfterInBox(m: Math, dir: OptionDir, price: F32x8, spot: F32x8, strike: F32x8,
                     yearsToExpiry: F32x8, volatility: F32x8, dividendYield: F32x8, n: nat)
    ensures InRateBox(After(m, IrProblem(m, dir, price, spot, strike, yearsToExpiry, volatility, dividendYield), n))
  {
    var p := IrProblem(m, dir, price, spot, strike, yearsToExpiry, volatility, dividendYield);
    if n > 0 {
      var rate := After(m, p, n - 1);
      ClampRateBox(NewtonUpdate(m, rate, p.objective(rate), p.slope(rate)));
    }
  }

  /** `implied_ir_f32x8`, stopped after at most `fuel` updates: the first rate
      iterate that passes the exit test, or the `fuel`-th. It starts at 0.05
      and every lane stays in [0, 2]. */
  method ImpliedIr(m: Math, dir: OptionDir, price: F32x8, spot: F32x8, strike: F32x8,
                   yearsToExpiry: F32x8, volatility: F32x8, dividendYield: F32x8, fuel: nat)
    returns (riskFreeRate: F32x8, converged: bool, iterations: nat)
    ensures iterations <= fuel
    ensures riskFreeRate
            == After(m, IrProblem(m, dir, price, spot, strike, yearsToExpiry, volatility, dividendYield), iterations)
    ensures iterations == 0 ==> riskFreeRate == Splat(InitialRate)
    ensures InRateBox(riskFreeRate)
    ensures converged
            <==> Done(IrProblem(m, dir, price, spot, strike, yearsToExpiry, volatility, dividendYield), riskFreeRate)
    ensures !converged ==> iterations == fuel
    ensures Missed(m, IrProblem(m, dir, price, spot, strike, yearsToExpiry, volatility, dividendYield), iterations)
  {
    riskFreeRate, converged, iterations :=
      Solve(m, IrProblem(m, dir, price, spot, strike, yearsToExpiry, volatility, dividendYield), fuel);
    IrAfterInBox(m, dir, price, spot, strike, yearsToExpiry, volatility, dividendYield, iterations);
  }

  /** The rate solver stops exactly when every lane prices within 0.0001 of
      its target. */
  lemma IrDoneLanes(m: Math, dir: OptionDir, price: F32x8, spot: F32x8, strike: F32x8,
                    yearsToExpiry: F32x8, volatility: F32x8, dividendYield: F32x8, rate: F32x8)
    ensures Done(IrProblem(m, dir, price, spot, strike, yearsToExpiry, volatility, dividendYield), rate)
            <==> forall i | 0 <= i < Width ::
                   Abs(PriceLanes(m, dir, spot, strike, yearsToExpiry, rate, volatility, dividendYield)[i] - price[i])
                   < IrTolerance
  {
    WithinLanes(PriceLanes(m, dir, spot, strike, yearsToExpiry, rate, volatility, dividendYield), price, IrTolerance);
  }

  /** Before the clamps, each rate update moves a lane with nonzero rho by
      exactly -|diff| / rho; a lane that lands inside [0, 2] keeps that value.
      The lemma holds for any iteration clamped by `ClampRate`; in
      `IrProblem` the objective is price(rate) - price and the slope is rho. */
  lemma IrStepLane(m: Math, p: Problem, rate: F32x8, i: int)
    requires p.project == ClampRate
    requires 0 <= i < Width
    requires p.slope(rate)[i] != 0.0
    requires 0.0 <= rate[i] - Abs(p.objective(rate)[i]) / p.slope(rate)[i] <= MaxRate
    ensures Step(m, p, rate)[i] == rate[i] - Abs(p.objective(rate)[i]) / p.slope(rate)[i]
  {
    NewtonUpdateLane(m, rate, p.objective(rate), p.slope(rate), i);
    ClampRateBox(NewtonUpdate(m, rate, p.objective(rate), p.slope(rate)));
  }

  /** `IrProblem` is such an iteration. */
  lemma IrProblemClamped(m: Math, dir: OptionDir, price: F32x8, spot: F32x8, strike: F32x8,
                         yearsToExpiry: F32x8, volatility: F32x8, dividendYield: F32x8)
    ensures IrProblem(m, dir, price, spot, strike, yearsToExpiry, volatility, dividendYield).project == ClampRate
  {
  }
}
