/**
 * Records shared by both valuators, and the linear spot-price sweep that every
 * chart curve is sampled on.
 */
module Valuation {

  /** A call figure and a put figure, as in the `{ call, put }` sub-records. */
  datatype CallPut = CallPut(call: real, put: real)

  /** The sensitivity bundle: gamma and vega are shared by both legs. */
  datatype Greeks = Greeks(delta: CallPut, gamma: real, theta: CallPut, vega: real, rho: CallPut)

  const ZeroGreeks: Greeks :=
    Greeks(CallPut(0.0, 0.0), 0.0, CallPut(0.0, 0.0), 0.0, CallPut(0.0, 0.0))

  /** The `{ min, max, steps }` range of a curve; `steps` counts intervals. */
  datatype SpotRange = SpotRange(min: real, max: real, steps: int)

  /** The three series of a delta curve, index-aligned. */
  datatype DeltaCurve = DeltaCurve(spotPrices: seq<real>, callDeltas: seq<real>, putDeltas: seq<real>)

  /** The three series of a price curve, index-aligned. */
  datatype PriceCurve = PriceCurve(spotPrices: seq<real>, callPrices: seq<real>, putPrices: seq<real>)

  /** Width of one interval of the sweep. */
  function StepWidth(range: SpotRange): real
    requires range.steps != 0
  {
    (range.max - range.min) / range.steps as real
  }

  /** The i-th sample of the sweep. */
  function SamplePoint(range: SpotRange, i: int): real
    requires range.steps != 0
  {
    range.min + i as real * StepWidth(range)
  }

  /** The loop form `min + i·step` of a sample, for the step the loops precompute. */
  lemma SampleAt(range: SpotRange, step: real, i: int)
    requires range.steps != 0 && step == (range.max - range.min) / range.steps as real
    ensures range.min + i as real * step == SamplePoint(range, i)
  {
  }

  /** Number of samples a loop `for (i = 0; i <= steps; i++)` produces. */
  function SampleCount(steps: int): (n: nat)
    ensures steps >= 0 ==> n == steps + 1
    ensures steps < 0 ==> n == 0
  {
    if steps < 0 then 0 else steps + 1
  }

  /** The sweep starts at `min` and, for a positive step count, ends exactly at `max`. */
  lemma SweepEndpoints(range: SpotRange)
    requires range.steps > 0
    ensures SamplePoint(range, 0) == range.min
    ensures SamplePoint(range, range.steps) == range.max
  {
    var n := range.steps as real;
    assert n * ((range.max - range.min) / n) == range.max - range.min;
  }

  /** For `max > min` and a positive step count the samples strictly increase. */
  lemma SweepIncreasing(range: SpotRange, i: int, j: int)
    requires range.steps > 0 && range.max > range.min
    requires i < j
    ensures SamplePoint(range, i) < SamplePoint(range, j)
  {
    var w := StepWidth(range);
    assert w > 0.0;
    assert (j - i) as real * w > 0.0;
    assert SamplePoint(range, j) - SamplePoint(range, i) == (j - i) as real * w;
  }
}
