/**
 * The closed-form Black–Scholes valuator: the normal distribution primitives,
 * d1/d2, call and put prices, analytic Greeks and the two chart sweeps.
 *
 * `calculateD1D2`, `calculateBlackScholes` and `calculateGreeks` share one
 * degenerate-input guard: a non-positive time to maturity, volatility, spot or
 * strike yields all zeros rather than an error. The two sweeps have no guard of
 * their own; they get it only through the valuations they call.
 */
module BlackScholes {
  import opened Numerics
  import opened Valuation

  datatype BlackScholesParams = BlackScholesParams(
    spotPrice: real,       // S
    strikePrice: real,     // K
    timeToMaturity: real,  // T, in years
    volatility: real,      // sigma, as a decimal
    riskFreeRate: real)    // r, as a decimal

  datatype BlackScholesResult = BlackScholesResult(callPrice: real, putPrice: real, d1: real, d2: real)

  datatype D1D2 = D1D2(d1: real, d2: real)

  /** The guard shared by `calculateD1D2`, `calculateBlackScholes` and `calculateGreeks`. */
  predicate IsDegenerate(q: BlackScholesParams)
  {
    q.timeToMaturity <= 0.0 || q.volatility <= 0.0 || q.spotPrice <= 0.0 || q.strikePrice <= 0.0
  }

  // ---------------------------------------------------------------------------
  // Standard normal distribution
  // ---------------------------------------------------------------------------

  // Coefficients of the Abramowitz–Stegun formula 7.1.26.
  const A1: real := 0.254829592
  const A2: real := -0.284496736
  const A3: real := 1.421413741
  const A4: real := -1.453152027
  const A5: real := 1.061405429
  const P: real := 0.3275911

  /** The coefficients in the order the source's nested expression consumes them. */
  const Coefficients: seq<real> := [A5, A4, A3, A2, A1]

  /**
   * Horner's rule for `((((a5·t + a4)·t + a3)·t + a2)·t + a1)·t`, consuming one
   * coefficient per step into the accumulator `acc`, and scaling the finished
   * polynomial by `g`.
   */
  function Horner(cs: seq<real>, t: real, acc: real, g: real): real
  {
    if cs == [] then acc * g else Horner(cs[1..], t, (acc + cs[0]) * t, g)
  }

  /**
   * The Abramowitz–Stegun 7.1.26 approximation of erfc(z) for z >= 0:
   * a degree-5 polynomial in t = 1/(1 + P·z), times exp(-z²).
   */
  function ErfcApprox(m: MathLib, z: real): real
    requires Axioms(m) && z >= 0.0
  {
    Horner(Coefficients, 1.0 / (1.0 + P * z), 0.0, m.exp(-z * z))
  }

  /**
   * `normalCDF`: the sign trick `0.5·(1 + sign·(1 − erfc(|x|/√2)))`. The approximation
   * is only ever evaluated at |x|: the result is the upper tail's complement above 0
   * and the tail itself below 0.
   */
  function NormalCdf(m: MathLib, x: real): (c: real)
    requires Axioms(m)
    ensures x >= 0.0 ==> c == 1.0 - 0.5 * ErfcApprox(m, Abs(x) / m.sqrt(2.0))
    ensures x < 0.0 ==> c == 0.5 * ErfcApprox(m, Abs(x) / m.sqrt(2.0))
  {
    var sign := if x < 0.0 then -1.0 else 1.0;
    var z := Abs(x) / m.sqrt(2.0);
    var y := 1.0 - ErfcApprox(m, z);
    0.5 * (1.0 + sign * y)
  }

  /** `normalPDF`: exp(−x²/2)/√(2π), positive because exp is. */
  function NormalPdf(m: MathLib, x: real): (d: real)
    requires Axioms(m)
    ensures d > 0.0
  {
    m.exp(-0.5 * x * x) / m.sqrt(2.0 * Pi)
  }

  /** The sign trick makes the approximation exactly symmetric away from 0. */
  lemma CdfSymmetry(m: MathLib, x: real)
    requires Axioms(m) && x != 0.0
    ensures NormalCdf(m, x) + NormalCdf(m, -x) == 1.0
  {
    assert Abs(x) == Abs(-x);
  }

  /**
   * At 0 both arguments take the `sign = 1` branch and the coefficients sum to
   * 0.999999999, so (with exp(0) = 1) Φ(0) = 0.5 + 5e-10 and symmetry fails there.
   */
  lemma CdfAtZero(m: MathLib)
    requires Axioms(m) && m.exp(0.0) == 1.0
    ensures NormalCdf(m, 0.0) == 0.5000000005
    ensures NormalCdf(m, 0.0) + NormalCdf(m, -0.0) != 1.0
  {
    var z := Abs(0.0) / m.sqrt(2.0);
    assert z == 0.0;
    assert -z * z == 0.0;
    assert 1.0 / (1.0 + P * z) == 1.0;
    assert ErfcApprox(m, z) == Horner(Coefficients, 1.0, 0.0, 1.0);
    HornerAtOne();
  }

  /** At t = 1 with no scaling the polynomial is the plain sum of its coefficients. */
  lemma HornerAtOne()
    ensures Horner(Coefficients, 1.0, 0.0, 1.0) == A5 + A4 + A3 + A2 + A1
  {
    var cs := Coefficients;
    assert Horner(cs, 1.0, 0.0, 1.0) == Horner(cs[1..], 1.0, A5, 1.0);
    assert Horner(cs[1..], 1.0, A5, 1.0) == Horner(cs[2..], 1.0, A5 + A4, 1.0);
    assert Horner(cs[2..], 1.0, A5 + A4, 1.0) == Horner(cs[3..], 1.0, A5 + A4 + A3, 1.0);
    assert Horner(cs[3..], 1.0, A5 + A4 + A3, 1.0) == Horner(cs[4..], 1.0, A5 + A4 + A3 + A2, 1.0);
    assert Horner(cs[4..], 1.0, A5 + A4 + A3 + A2, 1.0) == Horner(cs[5..], 1.0, A5 + A4 + A3 + A2 + A1, 1.0);
    assert cs[5..] == [];
  }

  /** The density is even. */
  lemma PdfEven(m: MathLib, x: real)
    requires Axioms(m)
    ensures NormalPdf(m, x) == NormalPdf(m, -x)
  {
    assert -0.5 * x * x == -0.5 * (-x) * (-x);
  }

  // ---------------------------------------------------------------------------
  // Valuation
  // ---------------------------------------------------------------------------

  /** `calculateD1D2`: zero on degenerate input; otherwise d1 and d2 = d1 − σ√T. */
  function CalculateD1D2(m: MathLib, q: BlackScholesParams): (r: D1D2)
    requires Axioms(m)
    ensures IsDegenerate(q) ==> r == D1D2(0.0, 0.0)
    ensures !IsDegenerate(q) ==>
      var volSqrtT := q.volatility * m.sqrt(q.timeToMaturity);
      && r.d1 * volSqrtT == m.log(q.spotPrice / q.strikePrice)
                           + (q.riskFreeRate + q.volatility * q.volatility / 2.0) * q.timeToMaturity
      && r.d2 == r.d1 - volSqrtT
  {
    if IsDegenerate(q) then D1D2(0.0, 0.0)
    else
      var S, K, T, sigma, r := q.spotPrice, q.strikePrice, q.timeToMaturity, q.volatility, q.riskFreeRate;
      var d1 := (m.log(S / K) + (r + (sigma * sigma) / 2.0) * T) / (sigma * m.sqrt(T));
      var d2 := d1 - sigma * m.sqrt(T);
      D1D2(d1, d2)
  }

  /** The discount factor e^(−rT). */
  function Discount(m: MathLib, q: BlackScholesParams): (disc: real)
    requires Axioms(m)
    ensures disc > 0.0
  {
    m.exp(-q.riskFreeRate * q.timeToMaturity)
  }

  /**
   * The price formulas over plain reals: spot `S`, discounted strike `KD` and
   * the four values Φ(d1), Φ(−d1), Φ(d2), Φ(−d2).
   */
  function PriceFormula(S: real, KD: real, a: real, a': real, b: real, b': real): CallPut
  {
    CallPut(S * a - KD * b, KD * b' - S * a')
  }

  /** The call and put values at given d1, d2, before the `Math.max(0, ·)` clamp. */
  function UnclampedPrices(m: MathLib, q: BlackScholesParams, dd: D1D2): CallPut
    requires Axioms(m)
  {
    PriceFormula(q.spotPrice, q.strikePrice * Discount(m, q),
                 NormalCdf(m, dd.d1), NormalCdf(m, -dd.d1), NormalCdf(m, dd.d2), NormalCdf(m, -dd.d2))
  }

  /** `calculateBlackScholes`: degenerate input gives zeros; prices are clamped at 0. */
  function CalculateBlackScholes(m: MathLib, q: BlackScholesParams): (r: BlackScholesResult)
    requires Axioms(m)
    ensures IsDegenerate(q) ==> r == BlackScholesResult(0.0, 0.0, 0.0, 0.0)
    ensures r.callPrice >= 0.0 && r.putPrice >= 0.0
    ensures !IsDegenerate(q) ==>
      && D1D2(r.d1, r.d2) == CalculateD1D2(m, q)
      && r.callPrice == Max(0.0, UnclampedPrices(m, q, D1D2(r.d1, r.d2)).call)
      && r.putPrice == Max(0.0, UnclampedPrices(m, q, D1D2(r.d1, r.d2)).put)
  {
    if IsDegenerate(q) then BlackScholesResult(0.0, 0.0, 0.0, 0.0)
    else
      var dd := CalculateD1D2(m, q);
      var prices := UnclampedPrices(m, q, dd);
      BlackScholesResult(Max(0.0, prices.call), Max(0.0, prices.put), dd.d1, dd.d2)
  }

  /** The algebra behind parity: complementary probabilities cancel. */
  lemma FormulaParity(S: real, KD: real, a: real, a': real, b: real, b': real)
    requires a + a' == 1.0 && b + b' == 1.0
    ensures PriceFormula(S, KD, a, a', b, b').call - PriceFormula(S, KD, a, a', b, b').put == S - KD
  {
    assert S * a + S * a' == S * (a + a');
    assert KD * b + KD * b' == KD * (b + b');
  }

  /**
   * Put–call parity of the unclamped prices, exact wherever Φ's sign trick
   * applies, that is for d1 and d2 both non-zero.
   */
  lemma PutCallParity(m: MathLib, q: BlackScholesParams, dd: D1D2)
    requires Axioms(m)
    requires dd.d1 != 0.0 && dd.d2 != 0.0
    ensures UnclampedPrices(m, q, dd).call - UnclampedPrices(m, q, dd).put
         == q.spotPrice - q.strikePrice * Discount(m, q)
  {
    CdfParity(m, q.spotPrice, q.strikePrice * Discount(m, q), dd.d1, dd.d2);
  }

  /** The price formulas with Φ substituted satisfy parity for non-zero d1, d2. */
  lemma CdfParity(m: MathLib, S: real, KD: real, d1: real, d2: real)
    requires Axioms(m) && d1 != 0.0 && d2 != 0.0
    ensures PriceFormula(S, KD, NormalCdf(m, d1), NormalCdf(m, -d1), NormalCdf(m, d2), NormalCdf(m, -d2)).call
          - PriceFormula(S, KD, NormalCdf(m, d1), NormalCdf(m, -d1), NormalCdf(m, d2), NormalCdf(m, -d2)).put
         == S - KD
  {
    CdfSymmetry(m, d1);
    CdfSymmetry(m, d2);
    FormulaParity(S, KD, NormalCdf(m, d1), NormalCdf(m, -d1), NormalCdf(m, d2), NormalCdf(m, -d2));
  }

  /** When neither clamp bites, the returned prices satisfy put–call parity too. */
  lemma ClampedPutCallParity(m: MathLib, q: BlackScholesParams)
    requires Axioms(m) && !IsDegenerate(q)
    requires CalculateD1D2(m, q).d1 != 0.0 && CalculateD1D2(m, q).d2 != 0.0
    requires UnclampedPrices(m, q, CalculateD1D2(m, q)).call >= 0.0
    requires UnclampedPrices(m, q, CalculateD1D2(m, q)).put >= 0.0
    ensures CalculateBlackScholes(m, q).callPrice - CalculateBlackScholes(m, q).putPrice
         == q.spotPrice - q.strikePrice * Discount(m, q)
  {
    PutCallParity(m, q, CalculateD1D2(m, q));
  }

  // ---------------------------------------------------------------------------
  // Greeks
  // ---------------------------------------------------------------------------

  /** Annual theta of both legs, `base ∓ w·Φ(±d2)` with w = rK·e^(−rT), reported per day. */
  function DailyTheta(base: real, w: real, c: real, c': real): CallPut
  {
    CallPut((base - w * c) / 365.0, (base + w * c') / 365.0)
  }

  /** Rho of both legs, `±w·Φ(±d2)` with w = KT·e^(−rT), reported per percentage point. */
  function PointRho(w: real, c: real, c': real): CallPut
  {
    CallPut(w * c / 100.0, -w * c' / 100.0)
  }

  function ThetaDecay(m: MathLib, q: BlackScholesParams, dd: D1D2): real
    requires Axioms(m) && !IsDegenerate(q)
  {
    -(q.spotPrice * NormalPdf(m, dd.d1) * q.volatility) / (2.0 * m.sqrt(q.timeToMaturity))
  }

  /** Theta of both legs at given d1, d2, per calendar day. */
  function Theta(m: MathLib, q: BlackScholesParams, dd: D1D2): CallPut
    requires Axioms(m) && !IsDegenerate(q)
  {
    DailyTheta(ThetaDecay(m, q, dd), q.riskFreeRate * q.strikePrice * Discount(m, q), NormalCdf(m, dd.d2), NormalCdf(m, -dd.d2))
  }

  /** Rho of both legs at given d2, per percentage point. */
  function Rho(m: MathLib, q: BlackScholesParams, dd: D1D2): CallPut
    requires Axioms(m)
  {
    PointRho(q.strikePrice * q.timeToMaturity * Discount(m, q), NormalCdf(m, dd.d2), NormalCdf(m, -dd.d2))
  }

  /**
   * The analytic Greeks at given d1, d2: theta per day (annual / 365), vega and
   * rho per percentage point (/ 100).
   */
  function AnalyticGreeks(m: MathLib, q: BlackScholesParams, dd: D1D2): (g: Greeks)
    requires Axioms(m) && !IsDegenerate(q)
    ensures g.delta.put == g.delta.call - 1.0
    ensures g.gamma > 0.0 && g.vega > 0.0
  {
    var S, T, sigma := q.spotPrice, q.timeToMaturity, q.volatility;
    var sqrtT := m.sqrt(T);
    var callDelta := NormalCdf(m, dd.d1);
    var gamma := NormalPdf(m, dd.d1) / (S * sigma * sqrtT);
    var vega := S * sqrtT * NormalPdf(m, dd.d1) / 100.0;
    Greeks(CallPut(callDelta, callDelta - 1.0), gamma, Theta(m, q, dd), vega, Rho(m, q, dd))
  }

  /** `calculateGreeks`: zero on degenerate input, the analytic Greeks at d1, d2 otherwise. */
  function CalculateGreeks(m: MathLib, q: BlackScholesParams): (g: Greeks)
    requires Axioms(m)
    ensures IsDegenerate(q) ==> g == ZeroGreeks
    ensures !IsDegenerate(q) ==> g == AnalyticGreeks(m, q, CalculateD1D2(m, q))
    ensures !IsDegenerate(q) ==> g.delta.put == g.delta.call - 1.0 && g.gamma > 0.0 && g.vega > 0.0
  {
    if IsDegenerate(q) then ZeroGreeks else AnalyticGreeks(m, q, CalculateD1D2(m, q))
  }

  /** Complementary Φ values leave only the weight in the call/put difference of theta. */
  lemma DailyThetaDifference(base: real, w: real, c: real, c': real, u: CallPut)
    requires c + c' == 1.0
    requires u == DailyTheta(base, w, c, c')
    ensures u.call - u.put == -w / 365.0
  {
    assert w * c + w * c' == w * (c + c');
  }

  /** Complementary Φ values leave only the weight in the call/put difference of rho. */
  lemma PointRhoDifference(w: real, c: real, c': real, u: CallPut)
    requires c + c' == 1.0
    requires u == PointRho(w, c, c')
    ensures u.call - u.put == w / 100.0
  {
    assert w * c + w * c' == w * (c + c');
  }

  /** The call and put thetas differ by the discounted-strike carry term, −rK·e^(−rT)/365. */
  lemma ThetaCallPutDifference(m: MathLib, q: BlackScholesParams, dd: D1D2)
    requires Axioms(m) && !IsDegenerate(q)
    requires dd.d2 != 0.0
    ensures Theta(m, q, dd).call - Theta(m, q, dd).put
         == -(q.riskFreeRate * q.strikePrice * Discount(m, q)) / 365.0
  {
    CdfSymmetry(m, dd.d2);
    DailyThetaDifference(ThetaDecay(m, q, dd),
                         q.riskFreeRate * q.strikePrice * Discount(m, q),
                         NormalCdf(m, dd.d2), NormalCdf(m, -dd.d2), Theta(m, q, dd));
  }

  /** The call and put rhos differ by K·T·e^(−rT)/100. */
  lemma RhoCallPutDifference(m: MathLib, q: BlackScholesParams, dd: D1D2)
    requires Axioms(m)
    requires dd.d2 != 0.0
    ensures Rho(m, q, dd).call - Rho(m, q, dd).put
         == q.strikePrice * q.timeToMaturity * Discount(m, q) / 100.0
  {
    CdfSymmetry(m, dd.d2);
    PointRhoDifference(q.strikePrice * q.timeToMaturity * Discount(m, q),
                       NormalCdf(m, dd.d2), NormalCdf(m, -dd.d2), Rho(m, q, dd));
  }

  // ---------------------------------------------------------------------------
  // Chart sweeps
  // ---------------------------------------------------------------------------

  /** `generateDeltaCurve`: one `calculateGreeks` call per sample, in index order. */
  method GenerateDeltaCurve(m: MathLib, base: BlackScholesParams, range: SpotRange) returns (curve: DeltaCurve)
    requires Axioms(m) && range.steps != 0
    ensures |curve.spotPrices| == |curve.callDeltas| == |curve.putDeltas| == SampleCount(range.steps)
    ensures forall i :: 0 <= i < |curve.spotPrices| ==>
      && curve.spotPrices[i] == SamplePoint(range, i)
      && curve.callDeltas[i] == CalculateGreeks(m, base.(spotPrice := SamplePoint(range, i))).delta.call
      && curve.putDeltas[i] == CalculateGreeks(m, base.(spotPrice := SamplePoint(range, i))).delta.put
  {
    var spotPrices, callDeltas, putDeltas := [], [], [];
    var step := (range.max - range.min) / range.steps as real;
    var i := 0;
    while i <= range.steps
      invariant 0 <= i <= SampleCount(range.steps)
      invariant |spotPrices| == |callDeltas| == |putDeltas| == i
      invariant forall k :: 0 <= k < i ==>
        && spotPrices[k] == SamplePoint(range, k)
        && callDeltas[k] == CalculateGreeks(m, base.(spotPrice := SamplePoint(range, k))).delta.call
        && putDeltas[k] == CalculateGreeks(m, base.(spotPrice := SamplePoint(range, k))).delta.put
    {
      var spotPrice := range.min + i as real * step;
      SampleAt(range, step, i);
      spotPrices := spotPrices + [spotPrice];
      var greeks := CalculateGreeks(m, base.(spotPrice := spotPrice));
      callDeltas := callDeltas + [greeks.delta.call];
      putDeltas := putDeltas + [greeks.delta.put];
      i := i + 1;
    }
    curve := DeltaCurve(spotPrices, callDeltas, putDeltas);
  }

  /** `generateCallPutCurve`: one `calculateBlackScholes` call per sample; prices are never negative. */
  method GenerateCallPutCurve(m: MathLib, base: BlackScholesParams, range: SpotRange) returns (curve: PriceCurve)
    requires Axioms(m) && range.steps != 0
    ensures |curve.spotPrices| == |curve.callPrices| == |curve.putPrices| == SampleCount(range.steps)
    ensures forall i :: 0 <= i < |curve.spotPrices| ==>
      && curve.spotPrices[i] == SamplePoint(range, i)
      && curve.callPrices[i] == CalculateBlackScholes(m, base.(spotPrice := SamplePoint(range, i))).callPrice
      && curve.putPrices[i] == CalculateBlackScholes(m, base.(spotPrice := SamplePoint(range, i))).putPrice
    ensures forall i :: 0 <= i < |curve.callPrices| ==> curve.callPrices[i] >= 0.0 && curve.putPrices[i] >= 0.0
  {
    var spotPrices, callPrices, putPrices := [], [], [];
    var step := (range.max - range.min) / range.steps as real;
    var i := 0;
    while i <= range.steps
      invariant 0 <= i <= SampleCount(range.steps)
      invariant |spotPrices| == |callPrices| == |putPrices| == i
      invariant forall k :: 0 <= k < i ==>
        && spotPrices[k] == SamplePoint(range, k)
        && callPrices[k] == CalculateBlackScholes(m, base.(spotPrice := SamplePoint(range, k))).callPrice
        && putPrices[k] == CalculateBlackScholes(m, base.(spotPrice := SamplePoint(range, k))).putPrice
    {
      var spotPrice := range.min + i as real * step;
      SampleAt(range, step, i);
      spotPrices := spotPrices + [spotPrice];
      var result := CalculateBlackScholes(m, base.(spotPrice := spotPrice));
      callPrices := callPrices + [result.callPrice];
      putPrices := putPrices + [result.putPrice];
      i := i + 1;
    }
    curve := PriceCurve(spotPrices, callPrices, putPrices);
  }
}
