# Option pricing core: Black–Scholes and Cox–Ross–Rubinstein

This project models the two valuators of an option-pricing library and proves
properties of both.

- **The closed-form Black–Scholes valuator** (`src/lib/black-scholes.ts`):
  - the Abramowitz–Stegun approximation of the standard normal CDF and the
    normal density;
  - d1 and d2;
  - call and put prices clamped at zero;
  - the analytic Greeks;
  - the delta and price sweeps used for charts.
- **The binomial valuator** (`src/lib/binomial.ts`):
  - the Cox–Ross–Rubinstein lattice, built forward, filled with terminal payoffs
    and level probabilities, then rolled back to the root;
  - the multiplicative binomial coefficient;
  - the finite-difference Greeks, which re-price the lattice at bumped inputs;
  - the binomial delta sweep.

`calculateD1D2`, `calculateBlackScholes`, `calculateGreeks` and
`calculateBinomial` share one degenerate-input guard. A non-positive maturity,
volatility, spot or strike returns an all-zero result instead of an error; for
`calculateBinomial`, so does a non-positive step count. The binomial Greeks and
the three sweeps have no guard of their own. They get the guard only through
the valuations they call. A bumped input can therefore leave the degenerate
region: with σ = 0 the volatility-bumped run at σ + volChange is priced, and
vega need not be zero.

Files:

- `numerics.dfy` (module `Numerics`):
  - `Math.exp`, `Math.sqrt` and `Math.log` as a `MathLib` value passed in by the
    caller, with the few facts the proofs use;
  - `Math.pow` for natural exponents, `Math.max`, `Math.min` and `Math.abs`.
- `valuation.dfy` (module `Valuation`): the `{call, put}` records, the Greeks
  bundle, the curve records and the linear spot sweep `min + i·step`.
- `combinatorics.dfy` (module `Combinatorics`):
  - Pascal's triangle;
  - the symmetry and absorption identities behind the coefficient loop;
  - binomially weighted sums and the binomial theorem.
- `black_scholes.dfy` (module `BlackScholes`): the closed-form valuator.
- `binomial.dfy` (module `Binomial`): the lattice, as imperative methods over
  `seq<seq<Node>>` proved against the recursive specification `NodeValue`, and
  its Greeks.

The form follows the source:

- The formulas are functions: `normalCDF`, `calculateD1D2`,
  `calculateBlackScholes` and `calculateGreeks`.
- The loops are methods with invariants: the coefficient loop, the forward pass,
  the expiry level, the backward induction and the three chart sweeps.
- `calculateBinomialGreeks`, which calls `calculateBinomial` eight times, is a
  method. It is specified by the function `BinomialGreeks`, built on the exact
  root prices `BinomialPrices`.

Three behaviours of the code are kept as written:

- The binomial Greeks' theta is the raw forward difference
  `(price(T − timeChange) − price(T)) / timeChange` (binomial.ts:148-152). The
  binomial code does not rescale it to a daily figure.
- The binomial vega (binomial.ts:157) and rho (binomial.ts:162-163) divide by
  the raw bump of 0.01. They are therefore per unit of σ and of r, 100 times the
  per-point figures of the Black–Scholes Greeks (black-scholes.ts:120,
  123-124). The model keeps the division as written (`BinomialVega`,
  `BinomialRho`).
- The normal CDF is not symmetric at 0 (`CdfAtZero`). Parity is therefore proved
  exactly for d1, d2 ≠ 0, not approximately everywhere.

## Model

| member | source | states |
|---|---|---|
| Numerics.Max | src/lib/black-scholes.ts:82-83 | `Math.max(a, b)` is at least both arguments and equals one of them |
| Numerics.Min | src/lib/binomial.ts:106 | `Math.min(a, b)` is at most both arguments and equals one of them |
| Numerics.Abs | src/lib/black-scholes.ts:13 | `Math.abs(x)` is non-negative and equals x or −x |
| Valuation.SampleAt | src/lib/black-scholes.ts:144-147 | the loop's `min + i·step`, with the precomputed step, is the i-th sample point |
| Valuation.SweepEndpoints | src/lib/black-scholes.ts:144-147 | for positive steps the sweep starts at min and its last sample is exactly max |
| Valuation.SweepIncreasing | src/lib/black-scholes.ts:144-147 | for max > min and positive steps, the sample points strictly increase with the index |
| Combinatorics.ChoosePascal | src/lib/binomial.ts:101-114 | C(n, k) = C(n − 1, k − 1) + C(n − 1, k) for every k once n ≥ 1, edges included |
| Combinatorics.ChooseSymmetric | src/lib/binomial.ts:105-106 | C(n, k) = C(n, n − k), the symmetry the coefficient routine uses to shorten its loop |
| Combinatorics.ChooseAbsorption | src/lib/binomial.ts:108-111 | (k + 1)·C(n, k + 1) = (n − k)·C(n, k), so each loop step `result·(n − i)/(i + 1)` moves one place along the row |
| Combinatorics.TermClosedForm | src/lib/binomial.ts:68 | the weights given by Pascal's recurrence are the closed form C(k, s)·a^(k−s)·b^s |
| Combinatorics.ExpectationStep | src/lib/binomial.ts:78-79 | a k-step binomial expectation is a·(the (k−1)-step expectation at j) + b·(the (k−1)-step expectation at j + 1) |
| Combinatorics.BinomialTheorem | src/lib/binomial.ts:68 | over values that are all 1 the k-step binomial expectation is (a + b)^k |
| Combinatorics.TermNonNegative | src/lib/binomial.ts:68 | non-negative trial weights give non-negative outcome weights |
| BlackScholes.NormalCdf | src/lib/black-scholes.ts:4-19 | the sign trick evaluates the A–S 7.1.26 erfc polynomial only at abs(x)/√2: Φ(x) = 1 − ½·erfc(abs(x)/√2) for x ≥ 0 and ½·erfc(abs(x)/√2) for x < 0; its symmetry is `CdfSymmetry`, its value at 0 `CdfAtZero` |
| BlackScholes.NormalPdf | src/lib/black-scholes.ts:22-24 | the density exp(−x²/2)/√(2π) is strictly positive |
| BlackScholes.CdfSymmetry | src/lib/black-scholes.ts:12-18 | for x ≠ 0, Φ(x) + Φ(−x) = 1 exactly |
| BlackScholes.CdfAtZero | src/lib/black-scholes.ts:4-19 | with exp(0) = 1, Φ(0) = 0.5000000005 and Φ(0) + Φ(−0) ≠ 1; the symmetry fails at 0 |
| BlackScholes.HornerAtOne | src/lib/black-scholes.ts:16 | at t = 1 the nested polynomial is a1 + a2 + a3 + a4 + a5 |
| BlackScholes.PdfEven | src/lib/black-scholes.ts:22-24 | φ(x) = φ(−x) |
| BlackScholes.CalculateD1D2 | src/lib/black-scholes.ts:50-64 | zero for degenerate input; otherwise d1·σ√T = ln(S/K) + (r + σ²/2)·T and d2 = d1 − σ√T |
| BlackScholes.Discount | src/lib/black-scholes.ts:76 | the discount factor e^(−rT) is positive |
| BlackScholes.CalculateBlackScholes | src/lib/black-scholes.ts:67-87 | all zeros for degenerate input; otherwise the d1/d2 of `calculateD1D2` and each price the unclamped formula clamped at 0; both prices are always ≥ 0 |
| BlackScholes.FormulaParity | src/lib/black-scholes.ts:78-79 | with complementary Φ pairs, call − put of the price formulas is S − K·e^(−rT) |
| BlackScholes.PutCallParity | src/lib/black-scholes.ts:74-79 | for d1, d2 ≠ 0 the unclamped prices satisfy call − put = S − K·e^(−rT) |
| BlackScholes.CdfParity | src/lib/black-scholes.ts:78-79 | the price formulas with Φ(±d1), Φ(±d2) satisfy parity for d1, d2 ≠ 0 |
| BlackScholes.ClampedPutCallParity | src/lib/black-scholes.ts:78-83 | when neither clamp applies, the returned call and put prices satisfy parity |
| BlackScholes.AnalyticGreeks | src/lib/black-scholes.ts:103-132 | putDelta = callDelta − 1, gamma > 0 and vega > 0 |
| BlackScholes.CalculateGreeks | src/lib/black-scholes.ts:90-133 | all-zero Greeks for degenerate input; otherwise the analytic Greeks at `calculateD1D2`'s d1, d2, with putDelta = callDelta − 1, gamma > 0 and vega > 0 |
| BlackScholes.DailyThetaDifference | src/lib/black-scholes.ts:116-129 | with complementary Φ values, daily call theta − put theta = −w/365 |
| BlackScholes.PointRhoDifference | src/lib/black-scholes.ts:123-124 | with complementary Φ values, call rho − put rho = w/100 |
| BlackScholes.ThetaCallPutDifference | src/lib/black-scholes.ts:115-129 | for d2 ≠ 0 the daily thetas differ by −rK·e^(−rT)/365 |
| BlackScholes.RhoCallPutDifference | src/lib/black-scholes.ts:123-124 | for d2 ≠ 0 the rhos differ by K·T·e^(−rT)/100 |
| BlackScholes.GenerateDeltaCurve | src/lib/black-scholes.ts:136-156 | steps + 1 samples in index order; sample i is at min + i·step and holds the deltas `calculateGreeks` gives there |
| BlackScholes.GenerateCallPutCurve | src/lib/black-scholes.ts:159-179 | steps + 1 samples in index order; sample i holds the `calculateBlackScholes` prices at min + i·step, and every price is ≥ 0 |
| Binomial.UpMoveAboveOne | src/lib/binomial.ts:38-39 | u = e^(σ√dt) > 1, 0 < d = 1/u < 1 and u·d = 1 |
| Binomial.CrrFactorsConsistent | src/lib/binomial.ts:37-41 | the factors satisfy u > 1 > d > 0, u·d = 1, a positive discount and growth, and p·(u − d) + d = e^(r·dt) |
| Binomial.BinomialCoefficient | src/lib/binomial.ts:101-114 | returns C(n, k): 0 outside 0..n, 1 at the edges, otherwise the loop over min(k, n − k) |
| Binomial.CoefficientStep | src/lib/binomial.ts:109-111 | one loop step turns C(n, i) into C(n, i + 1) |
| Binomial.CalculateBinomial | src/lib/binomial.ts:26-98 | degenerate input returns zero prices and an empty tree; otherwise the tree is the finished lattice (n + 1 levels, node (i, j) holding S·u^(i−j)·d^j, both rolled-back values and its probability) and the prices are the root values |
| Binomial.ForwardPass | src/lib/binomial.ts:46-59 | builds levels 0..n, level i having i + 1 nodes at the stock prices S·u^(i−j)·d^j with zero values and probability |
| Binomial.ExpiryLevel | src/lib/binomial.ts:61-69 | the last level holds max(0, s − K), max(0, K − s) and C(n, j)·p^(n−j)·(1 − p)^j at every node |
| Binomial.BackwardLevel | src/lib/binomial.ts:72-91 | level i is finished from level i + 1: the discounted risk-neutral expectation of the two successors, and its probability |
| Binomial.BackwardNodeUpdate | src/lib/binomial.ts:73-89 | the node (i, j) written by the inner backward loop is the node of the finished lattice |
| Binomial.NodeProbabilityAt | src/lib/binomial.ts:85-89 | the probability is 1 at the root and C(i, j)·p^(i−j)·(1 − p)^j elsewhere |
| Binomial.ProbabilityInUnitInterval | src/lib/binomial.ts:41 | 0 ≤ p ≤ 1 exactly when d ≤ e^(r·dt) ≤ u |
| Binomial.NodeValueNonNegative | src/lib/binomial.ts:65-79 | with 0 ≤ p ≤ 1 every node value is ≥ 0 |
| Binomial.ProbNonNegative | src/lib/binomial.ts:68-89 | with 0 ≤ p ≤ 1 every recorded probability C(i, j)·p^(i−j)·(1 − p)^j, the root's 1 included, is ≥ 0 |
| Binomial.LatticeNonNegative | src/lib/binomial.ts:61-91 | with 0 ≤ p ≤ 1 every call value, put value and probability stored in a finished lattice is ≥ 0 |
| Binomial.Payoff | src/lib/binomial.ts:65-66 | the expiry value `Math.max(0, …)` of a leg is ≥ 0, at least the leg's intrinsic value (s − K for a call, K − s for a put), and equal to 0 or to that intrinsic value |
| Binomial.PayoffParity | src/lib/binomial.ts:65-66 | both payoffs are ≥ 0 and call − put = s − K at expiry |
| Binomial.StockStep | src/lib/binomial.ts:50 | one up move multiplies the stock price by u and one down move by d |
| Binomial.StockClosedForm | src/lib/binomial.ts:50 | the stock price at (i, j) is S·u^(i−j)·d^j |
| Binomial.LatticeParity | src/lib/binomial.ts:72-91 | at every node, call value − put value = stock price − K·discount^(steps left) |
| Binomial.StockMartingale | src/lib/binomial.ts:41-78 | the discounted risk-neutral expectation of the next stock price is today's price |
| Binomial.RollbackDifference | src/lib/binomial.ts:78-79 | the rollback is linear in the successor values |
| Binomial.RiskNeutralValue | src/lib/binomial.ts:62-91 | the value at (i, j) is d^k · Σ C(k, t)·p^(k−t)·(1 − p)^t · payoff(n, j + t), with k = n − i steps left |
| Binomial.DiscountedStep | src/lib/binomial.ts:78-79 | the discounted binomial expectation satisfies the one-step rollback |
| Binomial.ProbClosedForm | src/lib/binomial.ts:68-89 | every recorded probability, the root's included, is the binomial weight C(i, j)·p^(i−j)·(1 − p)^j |
| Binomial.LevelProbabilitiesSumToOne | src/lib/binomial.ts:68-89 | the probabilities on every level of a finished lattice sum to 1 |
| Binomial.Difference | src/lib/binomial.ts:151-152 | the forward difference times the width is the change in each leg |
| Binomial.CentralDifference | src/lib/binomial.ts:137-138 | the delta quotient times 2·S·h is the up-minus-down change in each leg |
| Binomial.SecondDifference | src/lib/binomial.ts:145-146 | the gamma quotient times (S·h/2)² is up − 2·mid + down, and it is zero exactly when that numerator is |
| Binomial.CalculateBinomialGreeks | src/lib/binomial.ts:117-172 | the result is the Greeks bundle of the bumped lattice prices (delta, gamma, theta, vega and rho below) |
| Binomial.EstimateDelta | src/lib/binomial.ts:131-138 | delta is (price(S(1+h)) − price(S(1−h)))/(2·S·h) for both legs |
| Binomial.EstimateGamma | src/lib/binomial.ts:140-146 | gamma is the call's (price(S(1+h/2)) − 2·price(S) + price(S(1−h/2)))/(S·h/2)² |
| Binomial.EstimateTheta | src/lib/binomial.ts:148-152 | theta is (price(T − t) − price(T))/t for both legs |
| Binomial.EstimateVega | src/lib/binomial.ts:154-157 | vega is the call's (price(σ + v) − price(σ))/v |
| Binomial.EstimateRho | src/lib/binomial.ts:159-163 | rho is (price(r + 0.01) − price(r))/0.01 for both legs |
| Binomial.Prices | src/lib/binomial.ts:129 | one `calculateBinomial` run returns the exact root prices |
| Binomial.BinomialGreeksDegenerate | src/lib/binomial.ts:129-163 | with a non-positive strike or no steps every bumped valuation is degenerate, so all Greeks are zero |
| Binomial.ThetaShortMaturity | src/lib/binomial.ts:148-152 | when T ≤ timeChange the shortened valuation is zero, so theta = −price/timeChange on both legs |
| Binomial.DiscountGrowthReciprocal | src/lib/binomial.ts:40-41 | the one-step discount e^(−r·dt) and growth e^(r·dt) multiply to 1 |
| Binomial.BinomialParity | src/lib/binomial.ts:26-98 | for non-degenerate input the lattice prices satisfy call − put = S − K·discount^n |
| Binomial.ScaledParity | src/lib/binomial.ts:132-135 | a spot bumped by a positive factor stays non-degenerate and satisfies parity against the unbumped discounted strike |
| Binomial.BinomialDeltaParity | src/lib/binomial.ts:131-138 | for bumps in (−1, 1), call delta − put delta = 1 exactly |
| Binomial.GammaFromPutLeg | src/lib/binomial.ts:140-146 | for bumps in (−2, 2), the put leg's second difference equals the call gamma that is returned |
| Binomial.VolatilityBumpedParity | src/lib/binomial.ts:155-156 | raising σ keeps parity against the same discounted strike |
| Binomial.VegaFromPutLeg | src/lib/binomial.ts:154-157 | while σ + v > 0, the put leg's vega quotient equals the call vega that is returned |
| Binomial.GenerateBinomialDeltaCurve | src/lib/binomial.ts:175-195 | steps + 1 samples in index order; sample i is at min + i·step and holds the deltas of a default-bump `calculateBinomialGreeks` run there |
| Binomial.DeltaAt | src/lib/binomial.ts:189-191 | one sample's deltas are those of a full Greeks run at that spot |
| Binomial.CurveDeltaParity | src/lib/binomial.ts:185-192 | at every non-degenerate sample of the binomial delta curve the two deltas differ by exactly 1 |

## Left out

- Floating point:
  - All arithmetic is on exact reals. IEEE rounding, overflow to ±Infinity and NaN
    are not modelled, and nothing is said about numerical accuracy.
  - The multiplicative coefficient loop is exact here. The source's doubles agree
    with it only while the intermediate products stay exactly representable.
- Transcendental functions: `Math.exp`, `Math.sqrt` and `Math.log` are functions
  supplied by the caller (`MathLib`). The proofs use only five facts about them:
  - exp > 0;
  - exp(x) > 1 for x > 0;
  - sqrt(x) > 0 for x > 0;
  - for the binomial parity lemmas only, exp(x)·exp(−x) = 1;
  - for `CdfAtZero` only, exp(0) = 1.

  `Math.PI` is the shortest decimal that rounds to the double.
- Division by zero is excluded by preconditions, because in the source it only
  produces NaN or ±Infinity:
  - Binomial.CalculateBinomialGreeks: requires a non-zero spot and non-zero bumps
    (`Bumpable`).
  - BlackScholes.GenerateDeltaCurve, BlackScholes.GenerateCallPutCurve and
    Binomial.GenerateBinomialDeltaCurve: require `steps ≠ 0`.
  - Binomial.GenerateBinomialDeltaCurve: also requires every sample spot to be
    non-zero.
- Step counts: `steps` is an integer throughout. A fractional step count or
  coefficient argument in the source is not modelled.
- Binomial.CalculateBinomial:
  - The tree is a value of type `seq<seq<Node>>` that the method reassigns, not an
    array of mutable node objects.
  - The aliasing of `lastLevel` with `tree[steps]` is modelled by writing the
    level back.
  - The two passes and the level updates are separate methods (`ForwardPass`,
    `ExpiryLevel`, `BackwardLevel`, `BackwardNodeUpdate`, `NodeProbabilityAt`).
- Binomial.CalculateBinomialGreeks:
  - It is specified on the exact root prices.
  - Its five quotients are split into the methods `EstimateDelta` to
    `EstimateRho`, which together are the one source function.
  - The default arguments are the constants `DefaultPriceChange`,
    `DefaultVolChange` and `DefaultTimeChange`, which the curve passes explicitly.
- BlackScholes.PutCallParity: proved exactly only for d1, d2 ≠ 0, because the
  approximate CDF is not symmetric at 0 (`CdfAtZero`). The clamped form assumes
  neither clamp applies.
- Binomial.BinomialGreeksDegenerate: stated only for a non-positive strike or no
  steps. For the other guards a bumped input (for example σ + volChange > 0) can
  leave the degenerate region, so the Greeks need not be zero.
- Delta bounds (call delta in [0, 1], put delta in [−1, 0]) and strict
  monotonicity of the prices in the spot are not proved. They need bounds on the
  CDF approximation, such as 0 ≤ Φ ≤ 1 and Φ increasing, and bounds on exp. The
  `MathLib` facts cannot supply these.
- Everything outside the two pricing files is not part of this model: the UI,
  the network and backend features, and the Greeks curves of other fields.
