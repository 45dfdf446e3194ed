/** The closed-form Black-Scholes prices and Greeks of the 8-lane engine, one
    lane at a time, with the call/put dispatchers, the combined Greek structs and
    the strike-from-delta helpers. Arguments are in the source's order: spot,
    strike, years to expiry, risk-free rate, volatility, dividend yield. */
module Pricing {
  import opened RealMath
  import opened NormalDist

  datatype OptionDir = Call | Put

  /** The intermediates every formula derives from the same six inputs:
      `d = sqrt(T)`, `rd = vol * d`, `d1`, `d2 = d1 - rd`, the dividend
      discount `la = exp(-q T)`, the rate discount `ia = exp(-r T)`, the
      discounted strike `g = strike * ia`, the cumulative normal at `d1`,
      `d2`, `-d1` and `-d2`, and the normal density at `d1`. */
  datatype Shared = Shared(d: real, rd: real, d1: real, d2: real, la: real, ia: real, g: real,
                           cnd1: real, cnd2: real, cndNeg1: real, cndNeg2: real, pdf1: real)

  function Terms(m: Math, spot: real, strike: real, yearsToExpiry: real,
                 riskFreeRate: real, volatility: real, dividendYield: real): Shared
  {
    var d := m.sqrt(yearsToExpiry);
    var rd := volatility * d;
    var vs2 := (volatility * volatility) / 2.0;
    var ssln := m.ln(Div(m, spot, strike));
    var il := riskFreeRate - dividendYield;
    var d1 := Div(m, 1.0, rd) * (ssln + (il + vs2) * yearsToExpiry);
    var d2 := d1 - rd;
    var la := m.exp(-dividendYield * yearsToExpiry);
    var ia := m.exp(-riskFreeRate * yearsToExpiry);
    Shared(d, rd, d1, d2, la, ia, strike * ia, Ncd(m, d1), Ncd(m, d2), Ncd(m, -d1), Ncd(m, -d2), Npd(m, d1))
  }

  // ---------------------------------------------------------------------------
  // Each formula once, over the shared intermediates (the source repeats the
  // intermediates inline in every function and in the combined Greeks).

  function CallPvOf(s: Shared, spot: real): real {
    s.cnd1 * spot * s.la - s.cnd2 * s.g
  }

  function PutPvOf(s: Shared, spot: real): real {
    s.cndNeg2 * s.g - s.cndNeg1 * spot * s.la
  }

  function CallDeltaOf(s: Shared): real {
    s.la * s.cnd1
  }

  function PutDeltaOf(s: Shared): real {
    -s.la * s.cndNeg1
  }

  function GammaOf(m: Math, s: Shared, spot: real, volatility: real): real {
    Div(m, -s.la * s.pdf1, spot * volatility * s.d)
  }

  function VegaOf(s: Shared, spot: real): real {
    spot * s.la * s.pdf1 * s.d
  }

  function CallThetaOf(m: Math, s: Shared, spot: real, riskFreeRate: real, volatility: real, dividendYield: real): real {
    Div(m, -s.la * spot * s.pdf1 * volatility, 2.0 * s.d)
      - riskFreeRate * s.g * s.cnd2
      + dividendYield * spot * s.la * s.cnd1
  }

  function PutThetaOf(m: Math, s: Shared, spot: real, riskFreeRate: real, volatility: real, dividendYield: real): real {
    Div(m, -s.la * spot * s.pdf1 * volatility, 2.0 * s.d)
      + riskFreeRate * s.g * s.cndNeg2
      - dividendYield * spot * s.la * s.cndNeg1
  }

  function CallRhoOf(s: Shared, yearsToExpiry: real): real {
    s.g * yearsToExpiry * s.cnd2
  }

  function PutRhoOf(s: Shared, yearsToExpiry: real): real {
    -s.g * yearsToExpiry * s.cndNeg2
  }

  // ---------------------------------------------------------------------------
  // The standalone functions of the source

  /** `call_f32x8` */
  function CallPrice(m: Math, spot: real, strike: real, yearsToExpiry: real,
                     riskFreeRate: real, volatility: real, dividendYield: real): real
  {
    CallPvOf(Terms(m, spot, strike, yearsToExpiry, riskFreeRate, volatility, dividendYield), spot)
  }

  /** `put_f32x8` */
  function PutPrice(m: Math, spot: real, strike: real, yearsToExpiry: real,
                    riskFreeRate: real, volatility: real, dividendYield: real): real
  {
    PutPvOf(Terms(m, spot, strike, yearsToExpiry, riskFreeRate, volatility, dividendYield), spot)
  }

  /** `call_delta_f32x8` */
  function CallDelta(m: Math, spot: real, strike: real, yearsToExpiry: real,
                     riskFreeRate: real, volatility: real, dividendYield: real): real
  {
    CallDeltaOf(Terms(m, spot, strike, yearsToExpiry, riskFreeRate, volatility, dividendYield))
  }

  /** `put_delta_f32x8` */
  function PutDelta(m: Math, spot: real, strike: real, yearsToExpiry: real,
                    riskFreeRate: real, volatility: real, dividendYield: real): real
  {
    PutDeltaOf(Terms(m, spot, strike, yearsToExpiry, riskFreeRate, volatility, dividendYield))
  }

  /** `gamma_f32x8` */
  function Gamma(m: Math, spot: real, strike: real, yearsToExpiry: real,
                 riskFreeRate: real, volatility: real, dividendYield: real): real
  {
    GammaOf(m, Terms(m, spot, strike, yearsToExpiry, riskFreeRate, volatility, dividendYield), spot, volatility)
  }

  /** `vega_f32x8` */
  function Vega(m: Math, spot: real, strike: real, yearsToExpiry: real,
                riskFreeRate: real, volatility: real, dividendYield: real): real
  {
    VegaOf(Terms(m, spot, strike, yearsToExpiry, riskFreeRate, volatility, dividendYield), spot)
  }

  /** `call_theta_f32x8` */
  function CallTheta(m: Math, spot: real, strike: real, yearsToExpiry: real,
                     riskFreeRate: real, volatility: real, dividendYield: real): real
  {
    CallThetaOf(m, Terms(m, spot, strike, yearsToExpiry, riskFreeRate, volatility, dividendYield), spot, riskFreeRate, volatility, dividendYield)
  }

  /** `put_theta_f32x8` */
  function PutTheta(m: Math, spot: real, strike: real, yearsToExpiry: real,
                    riskFreeRate: real, volatility: real, dividendYield: real): real
  {
    PutThetaOf(m, Terms(m, spot, strike, yearsToExpiry, riskFreeRate, volatility, dividendYield), spot, riskFreeRate, volatility, dividendYield)
  }

  /** `call_rho_f32x8` */
  function CallRho(m: Math, spot: real, strike: real, yearsToExpiry: real,
                   riskFreeRate: real, volatility: real, dividendYield: real): real
  {
    CallRhoOf(Terms(m, spot, strike, yearsToExpiry, riskFreeRate, volatility, dividendYield), yearsToExpiry)
  }

  /** `put_rho_f32x8` */
  function PutRho(m: Math, spot: real, strike: real, yearsToExpiry: real,
                  riskFreeRate: real, volatility: real, dividendYield: real): real
  {
    PutRhoOf(Terms(m, spot, strike, yearsToExpiry, riskFreeRate, volatility, dividendYield), yearsToExpiry)
  }

  // ---------------------------------------------------------------------------
  // Dispatchers on the option direction

  /** `price_f32x8` */
  function Price(m: Math, dir: OptionDir, spot: real, strike: real, yearsToExpiry: real,
                 riskFreeRate: real, volatility: real, dividendYield: real): (r: real)
    ensures dir == Call ==> r == CallPrice(m, spot, strike, yearsToExpiry, riskFreeRate, volatility, dividendYield)
    ensures dir == Put ==> r == PutPrice(m, spot, strike, yearsToExpiry, riskFreeRate, volatility, dividendYield)
  {
    match dir
    case Call => CallPrice(m, spot, strike, yearsToExpiry, riskFreeRate, volatility, dividendYield)
    case Put => PutPrice(m, spot, strike, yearsToExpiry, riskFreeRate, volatility, dividendYield)
  }

  /** `delta` */
  function Delta(m: Math, dir: OptionDir, spot: real, strike: real, yearsToExpiry: real,
                 riskFreeRate: real, volatility: real, dividendYield: real): (r: real)
    ensures dir == Call ==> r == CallDelta(m, spot, strike, yearsToExpiry, riskFreeRate, volatility, dividendYield)
    ensures dir == Put ==> r == PutDelta(m, spot, strike, yearsToExpiry, riskFreeRate, volatility, dividendYield)
  {
    match dir
    case Call => CallDelta(m, spot, strike, yearsToExpiry, riskFreeRate, volatility, dividendYield)
    case Put => PutDelta(m, spot, strike, yearsToExpiry, riskFreeRate, volatility, dividendYield)
  }

  /** `theta` */
  function Theta(m: Math, dir: OptionDir, spot: real, strike: real, yearsToExpiry: real,
                 riskFreeRate: real, volatility: real, dividendYield: real): (r: real)
    ensures dir == Call ==> r == CallTheta(m, spot, strike, yearsToExpiry, riskFreeRate, volatility, dividendYield)
    ensures dir == Put ==> r == PutTheta(m, spot, strike, yearsToExpiry, riskFreeRate, volatility, dividendYield)
  {
    match dir
    case Call => CallTheta(m, spot, strike, yearsToExpiry, riskFreeRate, volatility, dividendYield)
    case Put => PutTheta(m, spot, strike, yearsToExpiry, riskFreeRate, volatility, dividendYield)
  }

  /** `rho` */
  function Rho(m: Math, dir: OptionDir, spot: real, strike: real, yearsToExpiry: real,
               riskFreeRate: real, volatility: real, dividendYield: real): (r: real)
    ensures dir == Call ==> r == CallRho(m, spot, strike, yearsToExpiry, riskFreeRate, volatility, dividendYield)
    ensures dir == Put ==> r == PutRho(m, spot, strike, yearsToExpiry, riskFreeRate, volatility, dividendYield)
  {
    match dir
    case Call => CallRho(m, spot, strike, yearsToExpiry, riskFreeRate, volatility, dividendYield)
    case Put => PutRho(m, spot, strike, yearsToExpiry, riskFreeRate, volatility, dividendYield)
  }

  // ---------------------------------------------------------------------------
  // The combined Greeks

  /** The `Greek` struct: present value and the five Greeks of one lane. */
  datatype Greek = Greek(pv: real, delta: real, theta: real, gamma: real, rho: real, vega: real)

  /** `call_greeks_f32x8`: all six values from one computation of the shared
      intermediates; each field is exactly the standalone call function. */
  function CallGreeks(m: Math, spot: real, strike: real, yearsToExpiry: real,
                      riskFreeRate: real, volatility: real, dividendYield: real): (gk: Greek)
    ensures gk.pv == CallPrice(m, spot, strike, yearsToExpiry, riskFreeRate, volatility, dividendYield)
    ensures gk.delta == CallDelta(m, spot, strike, yearsToExpiry, riskFreeRate, volatility, dividendYield)
    ensures gk.gamma == Gamma(m, spot, strike, yearsToExpiry, riskFreeRate, volatility, dividendYield)
    ensures gk.vega == Vega(m, spot, strike, yearsToExpiry, riskFreeRate, volatility, dividendYield)
    ensures gk.theta == CallTheta(m, spot, strike, yearsToExpiry, riskFreeRate, volatility, dividendYield)
    ensures gk.rho == CallRho(m, spot, strike, yearsToExpiry, riskFreeRate, volatility, dividendYield)
  {
    var s := Terms(m, spot, strike, yearsToExpiry, riskFreeRate, volatility, dividendYield);
    Greek(
      pv := CallPvOf(s, spot),
      delta := CallDeltaOf(s),
      theta := CallThetaOf(m, s, spot, riskFreeRate, volatility, dividendYield),
      gamma := GammaOf(m, s, spot, volatility),
      rho := CallRhoOf(s, yearsToExpiry),
      vega := VegaOf(s, spot))
  }

  /** `put_greeks_f32x8`: each field is exactly the standalone put function. */
  function PutGreeks(m: Math, spot: real, strike: real, yearsToExpiry: real,
                     riskFreeRate: real, volatility: real, dividendYield: real): (gk: Greek)
    ensures gk.pv == PutPrice(m, spot, strike, yearsToExpiry, riskFreeRate, volatility, dividendYield)
    ensures gk.delta == PutDelta(m, spot, strike, yearsToExpiry, riskFreeRate, volatility, dividendYield)
    ensures gk.gamma == Gamma(m, spot, strike, yearsToExpiry, riskFreeRate, volatility, dividendYield)
    ensures gk.vega == Vega(m, spot, strike, yearsToExpiry, riskFreeRate, volatility, dividendYield)
    ensures gk.theta == PutTheta(m, spot, strike, yearsToExpiry, riskFreeRate, volatility, dividendYield)
    ensures gk.rho == PutRho(m, spot, strike, yearsToExpiry, riskFreeRate, volatility, dividendYield)
  {
    var s := Terms(m, spot, strike, yearsToExpiry, riskFreeRate, volatility, dividendYield);
    Greek(
      pv := PutPvOf(s, spot),
      delta := PutDeltaOf(s),
      theta := PutThetaOf(m, s, spot, riskFreeRate, volatility, dividendYield),
      gamma := GammaOf(m, s, spot, volatility),
      rho := PutRhoOf(s, yearsToExpiry),
      vega := VegaOf(s, spot))
  }

  // ---------------------------------------------------------------------------
  // Strike from delta

  /** The shape both helpers share: `spot * |w * volatility * sqrt(T) + volatility^2 / 2 * T|`,
      where the weight `w` is the cumulative normal at `delta * exp(r T)`,
      negated for the call. */
  function StrikeOf(spot: real, w: real, volatility: real, tsq: real, yearsToExpiry: real): real {
    spot * Abs(w * volatility * tsq + (volatility * volatility) / 2.0 * yearsToExpiry)
  }

  /** The intermediates of both helpers: `tsq = sqrt(T)`, `d1 = delta * exp(r T)`
      and the cumulative normal at `d1`. */
  datatype StrikeShared = StrikeShared(tsq: real, d1: real, cnd: real)

  function StrikeTerms(m: Math, delta: real, riskFreeRate: real, yearsToExpiry: real): StrikeShared {
    var tsq := m.sqrt(yearsToExpiry);
    var d1 := delta * m.exp(riskFreeRate * yearsToExpiry);
    StrikeShared(tsq, d1, Ncd(m, d1))
  }

  /** `call_strike_from_delta_f32x8` */
  function CallStrikeFromDelta(m: Math, delta: real, spot: real, riskFreeRate: real,
                               volatility: real, yearsToExpiry: real): real
  {
    var t := StrikeTerms(m, delta, riskFreeRate, yearsToExpiry);
    StrikeOf(spot, -t.cnd, volatility, t.tsq, yearsToExpiry)
  }

  /** `put_strike_from_delta_f32x8` */
  function PutStrikeFromDelta(m: Math, delta: real, spot: real, riskFreeRate: real,
                              volatility: real, yearsToExpiry: real): real
  {
    var t := StrikeTerms(m, delta, riskFreeRate, yearsToExpiry);
    StrikeOf(spot, t.cnd, volatility, t.tsq, yearsToExpiry)
  }

  // ---------------------------------------------------------------------------
  // Properties of the formulas

  /** Wherever `d1` (respectively `d2`) is nonzero, the cumulative normal at it
      and at its negation sum to 1: the symmetry of `ncd` carried into the
      intermediates. */
  lemma TermsWeights(m: Math, spot: real, strike: real, yearsToExpiry: real,
                     riskFreeRate: real, volatility: real, dividendYield: real)
    ensures var s := Terms(m, spot, strike, yearsToExpiry, riskFreeRate, volatility, dividendYield);
            s.d1 != 0.0 ==> s.cnd1 + s.cndNeg1 == 1.0
    ensures var s := Terms(m, spot, strike, yearsToExpiry, riskFreeRate, volatility, dividendYield);
            s.d2 != 0.0 ==> s.cnd2 + s.cndNeg2 == 1.0
  {
    var s := Terms(m, spot, strike, yearsToExpiry, riskFreeRate, volatility, dividendYield);
    if s.d1 != 0.0 {
      NcdSymmetric(m, s.d1);
    }
    if s.d2 != 0.0 {
      NcdSymmetric(m, s.d2);
    }
  }

  /** Call value minus put value over any intermediates whose weights are
      complementary. */
  lemma PvParityOf(s: Shared, spot: real, la: real, g: real)
    requires s.cnd1 + s.cndNeg1 == 1.0 && s.cnd2 + s.cndNeg2 == 1.0
    requires s.la == la && s.g == g
    ensures CallPvOf(s, spot) - PutPvOf(s, spot) == spot * la - g
  {
    var x := spot * s.la;
    assert s.cnd1 * spot * s.la == s.cnd1 * x && s.cndNeg1 * spot * s.la == s.cndNeg1 * x;
    assert s.cnd1 * x + s.cndNeg1 * x == (s.cnd1 + s.cndNeg1) * x;
    assert s.cnd2 * s.g + s.cndNeg2 * s.g == (s.cnd2 + s.cndNeg2) * s.g;
  }

  lemma DeltaParityOf(s: Shared)
    requires s.cnd1 + s.cndNeg1 == 1.0
    ensures CallDeltaOf(s) - PutDeltaOf(s) == s.la
  {
    assert s.la * s.cnd1 + s.la * s.cndNeg1 == s.la * (s.cnd1 + s.cndNeg1);
  }

  lemma RhoParityOf(m: Math, s: Shared, strike: real, yearsToExpiry: real, riskFreeRate: real)
    requires s.cnd2 + s.cndNeg2 == 1.0
    requires s.g == strike * m.exp(-riskFreeRate * yearsToExpiry)
    ensures CallRhoOf(s, yearsToExpiry) - PutRhoOf(s, yearsToExpiry)
            == strike * m.exp(-riskFreeRate * yearsToExpiry) * yearsToExpiry
  {
    var x := s.g * yearsToExpiry;
    assert x * s.cnd2 + x * s.cndNeg2 == x * (s.cnd2 + s.cndNeg2);
  }

  lemma ThetaParityOf(m: Math, s: Shared, spot: real, strike: real, yearsToExpiry: real,
                      riskFreeRate: real, volatility: real, dividendYield: real)
    requires s.cnd1 + s.cndNeg1 == 1.0 && s.cnd2 + s.cndNeg2 == 1.0
    requires s.la == m.exp(-dividendYield * yearsToExpiry)
    requires s.g == strike * m.exp(-riskFreeRate * yearsToExpiry)
    ensures CallThetaOf(m, s, spot, riskFreeRate, volatility, dividendYield)
            - PutThetaOf(m, s, spot, riskFreeRate, volatility, dividendYield)
            == dividendYield * spot * m.exp(-dividendYield * yearsToExpiry)
               - riskFreeRate * (strike * m.exp(-riskFreeRate * yearsToExpiry))
  {
    var x, y := dividendYield * spot * s.la, riskFreeRate * s.g;
    assert dividendYield * spot * s.la * s.cnd1 == x * s.cnd1;
    assert dividendYield * spot * s.la * s.cndNeg1 == x * s.cndNeg1;
    assert riskFreeRate * s.g * s.cnd2 == y * s.cnd2 && riskFreeRate * s.g * s.cndNeg2 == y * s.cndNeg2;
    assert x * s.cnd1 + x * s.cndNeg1 == x * (s.cnd1 + s.cndNeg1);
    assert y * s.cnd2 + y * s.cndNeg2 == y * (s.cnd2 + s.cndNeg2);
  }

  /** Put-call parity, lane by lane: wherever `d1` and `d2` are nonzero, call
      minus put is `spot * exp(-q T) - strike * exp(-r T)`. */
  lemma PutCallParity(m: Math, spot: real, strike: real, yearsToExpiry: real,
                      riskFreeRate: real, volatility: real, dividendYield: real)
    requires Terms(m, spot, strike, yearsToExpiry, riskFreeRate, volatility, dividendYield).d1 != 0.0
    requires Terms(m, spot, strike, yearsToExpiry, riskFreeRate, volatility, dividendYield).d2 != 0.0
    ensures CallPrice(m, spot, strike, yearsToExpiry, riskFreeRate, volatility, dividendYield)
            - PutPrice(m, spot, strike, yearsToExpiry, riskFreeRate, volatility, dividendYield)
            == spot * m.exp(-dividendYield * yearsToExpiry) - strike * m.exp(-riskFreeRate * yearsToExpiry)
  {
    TermsWeights(m, spot, strike, yearsToExpiry, riskFreeRate, volatility, dividendYield);
    PvParityOf(Terms(m, spot, strike, yearsToExpiry, riskFreeRate, volatility, dividendYield), spot,
               m.exp(-dividendYield * yearsToExpiry), strike * m.exp(-riskFreeRate * yearsToExpiry));
  }

  /** The same parity through the direction dispatcher. */
  lemma PriceParity(m: Math, spot: real, strike: real, yearsToExpiry: real,
                    riskFreeRate: real, volatility: real, dividendYield: real)
    requires Terms(m, spot, strike, yearsToExpiry, riskFreeRate, volatility, dividendYield).d1 != 0.0
    requires Terms(m, spot, strike, yearsToExpiry, riskFreeRate, volatility, dividendYield).d2 != 0.0
    ensures Price(m, Call, spot, strike, yearsToExpiry, riskFreeRate, volatility, dividendYield)
            == Price(m, Put, spot, strike, yearsToExpiry, riskFreeRate, volatility, dividendYield)
               + spot * m.exp(-dividendYield * yearsToExpiry) - strike * m.exp(-riskFreeRate * yearsToExpiry)
  {
    PutCallParity(m, spot, strike, yearsToExpiry, riskFreeRate, volatility, dividendYield);
  }

  /** Call delta minus put delta is the dividend discount, wherever `d1` is nonzero. */
  lemma DeltaParity(m: Math, spot: real, strike: real, yearsToExpiry: real,
                    riskFreeRate: real, volatility: real, dividendYield: real)
    requires Terms(m, spot, strike, yearsToExpiry, riskFreeRate, volatility, dividendYield).d1 != 0.0
    ensures CallDelta(m, spot, strike, yearsToExpiry, riskFreeRate, volatility, dividendYield)
            - PutDelta(m, spot, strike, yearsToExpiry, riskFreeRate, volatility, dividendYield)
            == m.exp(-dividendYield * yearsToExpiry)
  {
    TermsWeights(m, spot, strike, yearsToExpiry, riskFreeRate, volatility, dividendYield);
    DeltaParityOf(Terms(m, spot, strike, yearsToExpiry, riskFreeRate, volatility, dividendYield));
  }

  /** Call rho minus put rho is `strike * exp(-r T) * T`, wherever `d2` is nonzero. */
  lemma RhoParity(m: Math, spot: real, strike: real, yearsToExpiry: real,
                  riskFreeRate: real, volatility: real, dividendYield: real)
    requires Terms(m, spot, strike, yearsToExpiry, riskFreeRate, volatility, dividendYield).d2 != 0.0
    ensures CallRho(m, spot, strike, yearsToExpiry, riskFreeRate, volatility, dividendYield)
            - PutRho(m, spot, strike, yearsToExpiry, riskFreeRate, volatility, dividendYield)
            == strike * m.exp(-riskFreeRate * yearsToExpiry) * yearsToExpiry
  {
    TermsWeights(m, spot, strike, yearsToExpiry, riskFreeRate, volatility, dividendYield);
    RhoParityOf(m, Terms(m, spot, strike, yearsToExpiry, riskFreeRate, volatility, dividendYield),
                strike, yearsToExpiry, riskFreeRate);
  }

  /** Call theta minus put theta is `q * spot * exp(-q T) - r * strike * exp(-r T)`,
      wherever `d1` and `d2` are nonzero: the density term is shared and the
      rest follows from the symmetry. */
  lemma ThetaParity(m: Math, spot: real, strike: real, yearsToExpiry: real,
                    riskFreeRate: real, volatility: real, dividendYield: real)
    requires Terms(m, spot, strike, yearsToExpiry, riskFreeRate, volatility, dividendYield).d1 != 0.0
    requires Terms(m, spot, strike, yearsToExpiry, riskFreeRate, volatility, dividendYield).d2 != 0.0
    ensures CallTheta(m, spot, strike, yearsToExpiry, riskFreeRate, volatility, dividendYield)
            - PutTheta(m, spot, strike, yearsToExpiry, riskFreeRate, volatility, dividendYield)
            == dividendYield * spot * m.exp(-dividendYield * yearsToExpiry)
               - riskFreeRate * (strike * m.exp(-riskFreeRate * yearsToExpiry))
  {
    TermsWeights(m, spot, strike, yearsToExpiry, riskFreeRate, volatility, dividendYield);
    ThetaParityOf(m, Terms(m, spot, strike, yearsToExpiry, riskFreeRate, volatility, dividendYield),
                  spot, strike, yearsToExpiry, riskFreeRate, volatility, dividendYield);
  }

  /** Under lawful transcendentals with a positive expiry, the discounts, the
      square root of the expiry and the density at `d1` are all positive. */
  lemma TermsPositive(m: Math, spot: real, strike: real, yearsToExpiry: real,
                      riskFreeRate: real, volatility: real, dividendYield: real)
    requires Lawful(m)
    requires yearsToExpiry > 0.0
    ensures var s := Terms(m, spot, strike, yearsToExpiry, riskFreeRate, volatility, dividendYield);
            s.la > 0.0 && s.d > 0.0 && s.pdf1 > 0.0
  {
    var s := Terms(m, spot, strike, yearsToExpiry, riskFreeRate, volatility, dividendYield);
    NpdPositive(m, s.d1);
  }

  lemma GammaNegativeOf(m: Math, s: Shared, spot: real, volatility: real)
    requires s.la > 0.0 && s.d > 0.0 && s.pdf1 > 0.0
    requires spot > 0.0 && volatility > 0.0
    ensures GammaOf(m, s, spot, volatility) < 0.0
  {
    assert spot * volatility > 0.0;
    assert spot * volatility * s.d > 0.0;
    assert s.la * s.pdf1 > 0.0;
  }

  lemma VegaPositiveOf(s: Shared, spot: real)
    requires s.la > 0.0 && s.d > 0.0 && s.pdf1 > 0.0
    requires spot > 0.0
    ensures VegaOf(s, spot) > 0.0
  {
    assert spot * s.la > 0.0;
    assert spot * s.la * s.pdf1 > 0.0;
  }

  /** For positive spot, volatility and expiry the source's gamma is strictly
      negative (its leading minus sign), never positive. */
  lemma GammaNegative(m: Math, spot: real, strike: real, yearsToExpiry: real,
                      riskFreeRate: real, volatility: real, dividendYield: real)
    requires Lawful(m)
    requires spot > 0.0 && volatility > 0.0 && yearsToExpiry > 0.0
    ensures Gamma(m, spot, strike, yearsToExpiry, riskFreeRate, volatility, dividendYield) < 0.0
  {
    TermsPositive(m, spot, strike, yearsToExpiry, riskFreeRate, volatility, dividendYield);
    GammaNegativeOf(m, Terms(m, spot, strike, yearsToExpiry, riskFreeRate, volatility, dividendYield), spot, volatility);
  }

  /** For positive spot and expiry vega is strictly positive, never negative. */
  lemma VegaPositive(m: Math, spot: real, strike: real, yearsToExpiry: real,
                     riskFreeRate: real, volatility: real, dividendYield: real)
    requires Lawful(m)
    requires spot > 0.0 && yearsToExpiry > 0.0
    ensures Vega(m, spot, strike, yearsToExpiry, riskFreeRate, volatility, dividendYield) > 0.0
  {
    TermsPositive(m, spot, strike, yearsToExpiry, riskFreeRate, volatility, dividendYield);
    VegaPositiveOf(Terms(m, spot, strike, yearsToExpiry, riskFreeRate, volatility, dividendYield), spot);
  }

  /** Gamma and vega do not depend on the direction: the call and put Greek
      structs agree on them. */
  lemma GreeksShareGammaAndVega(m: Math, spot: real, strike: real, yearsToExpiry: real,
                                riskFreeRate: real, volatility: real, dividendYield: real)
    ensures CallGreeks(m, spot, strike, yearsToExpiry, riskFreeRate, volatility, dividendYield).gamma
            == PutGreeks(m, spot, strike, yearsToExpiry, riskFreeRate, volatility, dividendYield).gamma
    ensures CallGreeks(m, spot, strike, yearsToExpiry, riskFreeRate, volatility, dividendYield).vega
            == PutGreeks(m, spot, strike, yearsToExpiry, riskFreeRate, volatility, dividendYield).vega
  {
  }

  /** A non-negative spot gives a non-negative strike, whatever the weight. */
  lemma StrikeOfNonNegative(spot: real, w: real, volatility: real, tsq: real, yearsToExpiry: real)
    requires spot >= 0.0
    ensures StrikeOf(spot, w, volatility, tsq, yearsToExpiry) >= 0.0
  {
    MulMonotone(spot, 0.0, Abs(w * volatility * tsq + (volatility * volatility) / 2.0 * yearsToExpiry));
  }

  /** With every factor non-negative, flipping the weight to negative can only
      shrink the absolute value. */
  lemma StrikeOfOrder(spot: real, n: real, volatility: real, tsq: real, yearsToExpiry: real)
    requires spot >= 0.0 && n >= 0.0 && volatility >= 0.0 && tsq >= 0.0 && yearsToExpiry >= 0.0
    ensures StrikeOf(spot, -n, volatility, tsq, yearsToExpiry) <= StrikeOf(spot, n, volatility, tsq, yearsToExpiry)
  {
    var a := n * volatility * tsq;
    var b := (volatility * volatility) / 2.0 * yearsToExpiry;
    assert n * volatility >= 0.0;
    assert a >= 0.0;
    assert volatility * volatility >= 0.0;
    assert b >= 0.0;
    assert -n * volatility * tsq == -a;
    MulMonotone(spot, Abs(-a + b), Abs(a + b));
  }

  lemma MulMonotone(k: real, x: real, y: real)
    requires k >= 0.0 && x <= y
    ensures k * x <= k * y
  {
  }

  /** The call helper returns a non-negative multiple of a non-negative spot. */
  lemma CallStrikeNonNegative(m: Math, delta: real, spot: real, riskFreeRate: real,
                              volatility: real, yearsToExpiry: real)
    requires spot >= 0.0
    ensures CallStrikeFromDelta(m, delta, spot, riskFreeRate, volatility, yearsToExpiry) >= 0.0
  {
    var t := StrikeTerms(m, delta, riskFreeRate, yearsToExpiry);
    StrikeOfNonNegative(spot, -t.cnd, volatility, t.tsq, yearsToExpiry);
  }

  /** So does the put helper. */
  lemma PutStrikeNonNegative(m: Math, delta: real, spot: real, riskFreeRate: real,
                             volatility: real, yearsToExpiry: real)
    requires spot >= 0.0
    ensures PutStrikeFromDelta(m, delta, spot, riskFreeRate, volatility, yearsToExpiry) >= 0.0
  {
    var t := StrikeTerms(m, delta, riskFreeRate, yearsToExpiry);
    StrikeOfNonNegative(spot, t.cnd, volatility, t.tsq, yearsToExpiry);
  }

  /** Under lawful transcendentals with a positive expiry, `sqrt(T)` is positive. */
  lemma StrikeTermsPositive(m: Math, delta: real, riskFreeRate: real, yearsToExpiry: real)
    requires Lawful(m)
    requires yearsToExpiry > 0.0
    ensures StrikeTerms(m, delta, riskFreeRate, yearsToExpiry).tsq > 0.0
  {
  }

  /** The helpers differ only in the sign of the `ncd` term inside the absolute
      value: when that term is non-negative (a non-negative volatility, a
      positive expiry and a non-negative `ncd`) the put strike is at least the
      call strike. */
  lemma StrikeFromDeltaOrder(m: Math, delta: real, spot: real, riskFreeRate: real,
                             volatility: real, yearsToExpiry: real)
    requires Lawful(m)
    requires spot >= 0.0 && volatility >= 0.0 && yearsToExpiry > 0.0
    requires StrikeTerms(m, delta, riskFreeRate, yearsToExpiry).cnd >= 0.0
    ensures PutStrikeFromDelta(m, delta, spot, riskFreeRate, volatility, yearsToExpiry)
            >= CallStrikeFromDelta(m, delta, spot, riskFreeRate, volatility, yearsToExpiry)
  {
    StrikeTermsPositive(m, delta, riskFreeRate, yearsToExpiry);
    var t := StrikeTerms(m, delta, riskFreeRate, yearsToExpiry);
    StrikeOfOrder(spot, t.cnd, volatility, t.tsq, yearsToExpiry);
  }

  /** Where `delta * exp(r T)` is below the clamp, `ncd` is exactly 0 and both
      helpers return `spot * |volatility^2 / 2 * T|`. */
  lemma StrikeFromDeltaClamped(m: Math, delta: real, spot: real, riskFreeRate: real,
                               volatility: real, yearsToExpiry: real)
    requires StrikeTerms(m, delta, riskFreeRate, yearsToExpiry).d1 < ClampLow
    ensures PutStrikeFromDelta(m, delta, spot, riskFreeRate, volatility, yearsToExpiry)
            == CallStrikeFromDelta(m, delta, spot, riskFreeRate, volatility, yearsToExpiry)
            == spot * Abs((volatility * volatility) / 2.0 * yearsToExpiry)
  {
    var t := StrikeTerms(m, delta, riskFreeRate, yearsToExpiry);
    StrikeOfZeroWeight(spot, volatility, t.tsq, yearsToExpiry);
  }

  /** With a zero `ncd` weight only the drift term `volatility^2 / 2 * T`
      is left inside the absolute value. */
  lemma StrikeOfZeroWeight(spot: real, volatility: real, tsq: real, yearsToExpiry: real)
    ensures StrikeOf(spot, 0.0, volatility, tsq, yearsToExpiry)
            == spot * Abs((volatility * volatility) / 2.0 * yearsToExpiry)
  {
    assert 0.0 * volatility * tsq == 0.0;
  }
}
