/**
 * Binomial coefficients and binomial-weighted sums: the arithmetic behind the
 * lattice's level probabilities and its risk-neutral closed form.
 */
module Combinatorics {
  import opened Numerics

  /** Pascal's triangle: C(n, k), zero outside 0 <= k <= n. */
  function Choose(n: int, k: int): nat
    decreases n
  {
    if k < 0 || k > n then 0
    else if k == 0 || k == n then 1
    else Choose(n - 1, k - 1) + Choose(n - 1, k)
  }

  /** Pascal's rule holds for every k once n >= 1, including the edges of the row. */
  lemma ChoosePascal(n: int, k: int)
    requires n >= 1
    ensures Choose(n, k) == Choose(n - 1, k - 1) + Choose(n - 1, k)
  {
    if k == 0 {
      assert Choose(n - 1, k - 1) == 0 && Choose(n - 1, k) == 1;
    } else if k == n {
      assert Choose(n - 1, k - 1) == 1 && Choose(n - 1, k) == 0;
    }
  }

  /** C(n, k) = C(n, n − k). */
  lemma {:induction false} ChooseSymmetric(n: int, k: int)
    ensures Choose(n, k) == Choose(n, n - k)
    decreases n
  {
    if n >= 1 && 0 < k < n {
      ChooseSymmetric(n - 1, k - 1);
      ChooseSymmetric(n - 1, k);
      assert Choose(n, n - k) == Choose(n - 1, n - k - 1) + Choose(n - 1, n - k);
    }
  }

  /**
   * The absorption identity (k + 1)·C(n, k + 1) = (n − k)·C(n, k), which is what
   * makes the multiplicative loop `result · (n − i)/(i + 1)` walk along a row.
   */
  lemma {:induction false} ChooseAbsorption(n: int, k: int)
    requires n >= 0 && k >= -1
    ensures (k + 1) * Choose(n, k + 1) == (n - k) * Choose(n, k)
    decreases n
  {
    if k == -1 {
    } else if k >= n {
      assert Choose(n, k + 1) == 0;
      assert k == n ==> n - k == 0;
      assert k > n ==> Choose(n, k) == 0;
    } else {
      // 0 <= k < n, so n >= 1
      ChoosePascal(n, k + 1);
      ChoosePascal(n, k);
      ChooseAbsorption(n - 1, k);
      ChooseAbsorption(n - 1, k - 1);
      AbsorptionStep(n, k, Choose(n - 1, k - 1), Choose(n - 1, k), Choose(n - 1, k + 1));
    }
  }

  /** The ring step of the absorption induction, on plain integers. */
  lemma AbsorptionStep(n: int, k: int, c0: int, c: int, c1: int)
    requires (k + 1) * c1 == (n - 1 - k) * c
    requires k * c == (n - k) * c0
    ensures (k + 1) * (c + c1) == (n - k) * (c0 + c)
  {
    assert (k + 1) * (c + c1) == (k + 1) * c + (k + 1) * c1;
    assert (n - k) * (c0 + c) == (n - k) * c0 + (n - k) * c;
  }

  // ---------------------------------------------------------------------------
  // Binomial-weighted sums
  // ---------------------------------------------------------------------------

  /**
   * The weight of reaching outcome s after k trials, where each trial keeps s with
   * weight a or advances it with weight b: Pascal's recurrence on weights.
   */
  function Term(a: real, b: real, k: nat, s: int): real
  {
    if s < 0 || s > k then 0.0
    else if k == 0 then 1.0
    else a * Term(a, b, k - 1, s) + b * Term(a, b, k - 1, s - 1)
  }

  /** The closed form C(k, s)·a^(k−s)·b^s, zero outside 0..k. */
  function BinomialWeight(a: real, b: real, k: nat, s: int): real
  {
    if s < 0 || s > k then 0.0 else Choose(k, s) as real * Pow(a, k - s) * Pow(b, s)
  }

  /** Σ_{s < t} w(s)·v[j + s]. */
  function Sum(w: int -> real, v: seq<real>, j: nat, t: nat): real
    requires j + t <= |v|
  {
    if t == 0 then 0.0 else Sum(w, v, j, t - 1) + w(t - 1) * v[j + t - 1]
  }

  /** The outcome weights of k trials, as a function of the outcome. */
  function Weights(a: real, b: real, k: nat): int -> real
  {
    s => Term(a, b, k, s)
  }

  /** The same weights read one outcome later: outcome s gets the weight of s − 1. */
  function ShiftedWeights(a: real, b: real, k: nat): int -> real
  {
    s => Term(a, b, k, s - 1)
  }

  /** The binomially weighted combination of the k + 1 values v[j..j + k]. */
  function Expectation(a: real, b: real, k: nat, v: seq<real>, j: nat): real
    requires j + k < |v|
  {
    Sum(Weights(a, b, k), v, j, k + 1)
  }

  lemma WeightUp(a: real, b: real, k: nat, s: int)
    requires k >= 1 && 0 <= s <= k
    ensures a * BinomialWeight(a, b, k - 1, s) == Choose(k - 1, s) as real * Pow(a, k - s) * Pow(b, s)
  {
    if s < k {
      var c, p, q := Choose(k - 1, s) as real, Pow(a, k - 1 - s), Pow(b, s);
      assert Pow(a, k - s) == a * p;
      MoveFactor(a, c, p, q);
    }
  }

  lemma WeightDown(a: real, b: real, k: nat, s: int)
    requires k >= 1 && 0 <= s <= k
    ensures b * BinomialWeight(a, b, k - 1, s - 1) == Choose(k - 1, s - 1) as real * Pow(a, k - s) * Pow(b, s)
  {
    if s > 0 {
      var c, p, q := Choose(k - 1, s - 1) as real, Pow(a, k - s), Pow(b, s - 1);
      assert Pow(b, s) == b * q;
      MoveFactorLast(b, c, p, q);
    }
  }

  lemma MoveFactor(x: real, c: real, p: real, q: real)
    ensures x * (c * p * q) == c * (x * p) * q
  {
  }

  lemma MoveFactorLast(x: real, c: real, p: real, q: real)
    ensures x * (c * p * q) == c * p * (x * q)
  {
  }

  lemma SplitFactor(c0: real, c1: real, p: real, q: real)
    ensures (c0 + c1) * p * q == c0 * p * q + c1 * p * q
  {
  }

  /** The closed form satisfies Pascal's recurrence on weights. */
  lemma WeightPascal(a: real, b: real, k: nat, s: int)
    requires k >= 1
    ensures BinomialWeight(a, b, k, s)
         == a * BinomialWeight(a, b, k - 1, s) + b * BinomialWeight(a, b, k - 1, s - 1)
  {
    if 0 <= s <= k {
      ChoosePascal(k, s);
      WeightUp(a, b, k, s);
      WeightDown(a, b, k, s);
      SplitFactor(Choose(k - 1, s) as real, Choose(k - 1, s - 1) as real, Pow(a, k - s), Pow(b, s));
    }
  }

  /** The recurrence and the closed form agree: Term(a, b, k, s) = C(k, s)·a^(k−s)·b^s. */
  lemma {:induction false} TermClosedForm(a: real, b: real, k: nat, s: int)
    ensures Term(a, b, k, s) == BinomialWeight(a, b, k, s)
  {
    if 0 <= s <= k && k >= 1 {
      TermClosedForm(a, b, k - 1, s);
      TermClosedForm(a, b, k - 1, s - 1);
      WeightPascal(a, b, k, s);
    }
  }

  /** Pascal's rule for the weights, including the edges of the row. */
  lemma TermPascal(a: real, b: real, k: nat, s: int)
    requires k >= 1
    ensures Term(a, b, k, s) == a * Term(a, b, k - 1, s) + b * Term(a, b, k - 1, s - 1)
  {
    if s > k {
      assert Term(a, b, k - 1, s) == 0.0 && Term(a, b, k - 1, s - 1) == 0.0;
    }
  }

  /** Pascal's rule for the weight functions on the outcomes 0..t − 1. */
  lemma WeightsPascal(a: real, b: real, k: nat, t: nat)
    requires k >= 1
    ensures forall s :: 0 <= s < t ==> Weights(a, b, k)(s) == a * Weights(a, b, k - 1)(s) + b * ShiftedWeights(a, b, k - 1)(s)
  {
    forall s | 0 <= s < t
      ensures Weights(a, b, k)(s) == a * Weights(a, b, k - 1)(s) + b * ShiftedWeights(a, b, k - 1)(s)
    {
      TermPascal(a, b, k, s);
    }
  }

  /** A sum is linear in its weights. */
  lemma {:induction false} SumLinear(w: int -> real, w1: int -> real, w2: int -> real, a: real, b: real,
                                     v: seq<real>, j: nat, t: nat)
    requires j + t <= |v|
    requires forall s :: 0 <= s < t ==> w(s) == a * w1(s) + b * w2(s)
    ensures Sum(w, v, j, t) == a * Sum(w1, v, j, t) + b * Sum(w2, v, j, t)
  {
    if t > 0 {
      SumLinear(w, w1, w2, a, b, v, j, t - 1);
      SumSplitStep(w, w1, w2, a, b, v, j, t);
    }
  }

  /** One step of the split induction, for arbitrary weights. */
  lemma SumSplitStep(w: int -> real, w1: int -> real, w2: int -> real, a: real, b: real,
                     v: seq<real>, j: nat, t: nat)
    requires t >= 1 && j + t <= |v|
    requires Sum(w, v, j, t - 1) == a * Sum(w1, v, j, t - 1) + b * Sum(w2, v, j, t - 1)
    requires w(t - 1) == a * w1(t - 1) + b * w2(t - 1)
    ensures Sum(w, v, j, t) == a * Sum(w1, v, j, t) + b * Sum(w2, v, j, t)
  {
    SplitStep(a, b, Sum(w, v, j, t - 1), Sum(w1, v, j, t - 1), Sum(w2, v, j, t - 1),
              w(t - 1), w1(t - 1), w2(t - 1), v[j + t - 1]);
  }

  /** The ring step of the split induction. */
  lemma SplitStep(a: real, b: real, w: real, w1: real, w2: real, t: real, t1: real, t2: real, x: real)
    requires w == a * w1 + b * w2
    requires t == a * t1 + b * t2
    ensures w + t * x == a * (w1 + t1 * x) + b * (w2 + t2 * x)
  {
    assert t * x == a * (t1 * x) + b * (t2 * x);
  }

  /** Weights shifted by one outcome sum the values from one position later. */
  lemma {:induction false} SumShift(a: real, b: real, k: nat, v: seq<real>, j: nat, t: nat)
    requires t >= 1 && j + t <= |v|
    ensures Sum(ShiftedWeights(a, b, k), v, j, t) == Sum(Weights(a, b, k), v, j + 1, t - 1)
  {
    if t > 1 {
      SumShift(a, b, k, v, j, t - 1);
      assert ShiftedWeights(a, b, k)(t - 1) == Weights(a, b, k)(t - 2);
    } else {
      assert ShiftedWeights(a, b, k)(0) == 0.0;
    }
  }

  /**
   * One backward step of the lattice, on the closed form:
   * E_k(v, j) = a·E_{k−1}(v, j) + b·E_{k−1}(v, j + 1).
   */
  lemma ExpectationStep(a: real, b: real, k: nat, v: seq<real>, j: nat)
    requires k >= 1 && j + k < |v|
    ensures Expectation(a, b, k, v, j)
         == a * Expectation(a, b, k - 1, v, j) + b * Expectation(a, b, k - 1, v, j + 1)
  {
    WeightsPascal(a, b, k, k + 1);
    SumLinear(Weights(a, b, k), Weights(a, b, k - 1), ShiftedWeights(a, b, k - 1), a, b, v, j, k + 1);
    SumShift(a, b, k - 1, v, j, k + 1);
    DropLast(Weights(a, b, k - 1), v, j, k + 1);
    Rewrite(a, b, Sum(Weights(a, b, k - 1), v, j, k + 1), Sum(Weights(a, b, k - 1), v, j, k),
            Sum(ShiftedWeights(a, b, k - 1), v, j, k + 1), Sum(Weights(a, b, k - 1), v, j + 1, k));
  }

  /** Replacing both summands of a·x + b·y by equal values. */
  lemma Rewrite(a: real, b: real, x: real, x': real, y: real, y': real)
    requires x == x' && y == y'
    ensures a * x + b * y == a * x' + b * y'
  {
  }

  /** k trials never reach outcome k + 1, so the last weight of the longer sum is zero. */
  lemma DropLast(w: int -> real, v: seq<real>, j: nat, t: nat)
    requires t >= 1 && j + t <= |v|
    requires w(t - 1) == 0.0
    ensures Sum(w, v, j, t) == Sum(w, v, j, t - 1)
  {
  }

  /** The binomial theorem: the weights of k trials sum to (a + b)^k. */
  lemma {:induction false} BinomialTheorem(a: real, b: real, k: nat, v: seq<real>, j: nat)
    requires j + k < |v|
    requires forall s :: j <= s <= j + k ==> v[s] == 1.0
    ensures Expectation(a, b, k, v, j) == Pow(a + b, k)
  {
    if k == 0 {
      assert Sum(Weights(a, b, 0), v, j, 0) == 0.0;
      assert Weights(a, b, 0)(0) == 1.0;
      assert v[j] == 1.0;
    } else {
      ExpectationStep(a, b, k, v, j);
      BinomialTheorem(a, b, k - 1, v, j);
      BinomialTheorem(a, b, k - 1, v, j + 1);
      var q := Pow(a + b, k - 1);
      assert a * q + b * q == (a + b) * q;
    }
  }

  /** Non-negative trial weights give non-negative outcome weights. */
  lemma {:induction false} TermNonNegative(a: real, b: real, k: nat, s: int)
    requires a >= 0.0 && b >= 0.0
    ensures Term(a, b, k, s) >= 0.0
  {
    if 0 <= s <= k && k >= 1 {
      TermNonNegative(a, b, k - 1, s);
      TermNonNegative(a, b, k - 1, s - 1);
    }
  }
}
