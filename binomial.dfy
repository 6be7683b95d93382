/**
 * The Cox–Ross–Rubinstein binomial lattice: the tree of stock prices, the
 * terminal payoffs, the backward induction to the root, the level
 * probabilities, and the finite-difference Greeks built on repeated pricing.
 */
module Binomial {
  import opened Numerics
  import opened Valuation
  import opened Combinatorics

  /** The inputs of one lattice valuation; `steps` is the number of time steps. */
  datatype BinomialParams = BinomialParams(
    spotPrice: real, strikePrice: real, timeToMaturity: real,
    volatility: real, riskFreeRate: real, steps: int)

  /** One node of the lattice. */
  datatype Node = Node(stockPrice: real, callValue: real, putValue: real, probability: real)

  /** Root prices and the whole lattice, level i holding i + 1 nodes. */
  datatype BinomialResult = BinomialResult(callPrice: real, putPrice: real, tree: seq<seq<Node>>)

  datatype Leg = Call | Put

  /** The inputs for which no lattice is built and both prices are zero. */
  predicate IsDegenerate(q: BinomialParams)
  {
    q.timeToMaturity <= 0.0 || q.volatility <= 0.0 || q.spotPrice <= 0.0
      || q.strikePrice <= 0.0 || q.steps <= 0
  }

  // ---------------------------------------------------------------------------
  // The lattice as a value
  // ---------------------------------------------------------------------------

  /**
   * The factors of one lattice: n steps, up and down moves, the one-step discount
   * e^(−r·dt), the one-step growth e^(r·dt) and the risk-neutral probability p.
   */
  datatype Crr = Crr(n: nat, spot: real, strike: real, up: real, down: real,
                     discount: real, growth: real, p: real)

  /** What the lattice construction guarantees about its factors. */
  predicate Consistent(f: Crr)
  {
    && f.n >= 1 && f.spot > 0.0 && f.strike > 0.0
    && f.up > 1.0 && 0.0 < f.down < 1.0 && f.up * f.down == 1.0
    && f.discount > 0.0 && f.growth > 0.0
    && f.p * (f.up - f.down) + f.down == f.growth
  }

  /** The length dt = T/n of one time step. */
  function TimeStep(q: BinomialParams): real
    requires q.steps > 0
  {
    q.timeToMaturity / q.steps as real
  }

  /** The discount e^(−r·dt) over a time step dt at rate r. */
  function StepDiscount(m: MathLib, r: real, dt: real): real
  {
    m.exp(Negate(r * dt))
  }

  /** The growth e^(r·dt) over a time step dt at rate r. */
  function StepGrowth(m: MathLib, r: real, dt: real): real
  {
    m.exp(r * dt)
  }

  /** The one-step discount of a lattice, which depends only on the rate and dt. */
  function OneStepDiscount(m: MathLib, q: BinomialParams): real
    requires q.steps > 0
  {
    StepDiscount(m, q.riskFreeRate, TimeStep(q))
  }

  /** √dt. */
  function RootStep(m: MathLib, q: BinomialParams): real
    requires q.steps > 0
  {
    m.sqrt(TimeStep(q))
  }

  /** The up move u = e^(σ·√dt). */
  function UpMove(m: MathLib, q: BinomialParams): real
    requires q.steps > 0
  {
    m.exp(q.volatility * RootStep(m, q))
  }

  /**
   * dt = T/n, u = e^(σ·√dt), d = 1/u, discount e^(−r·dt) and the probability
   * p = (e^(r·dt) − d)/(u − d) that makes the one-step expected growth e^(r·dt).
   * `CrrFactorsConsistent` shows the factors meet `Consistent`.
   */
  function CrrFactors(m: MathLib, q: BinomialParams): (f: Crr)
    requires Axioms(m) && !IsDegenerate(q)
    ensures f.n == q.steps && f.spot == q.spotPrice && f.strike == q.strikePrice
    ensures f.discount == OneStepDiscount(m, q)
  {
    UpMoveAboveOne(m, q);
    var u := UpMove(m, q);
    var d := 1.0 / u;
    var growth := StepGrowth(m, q.riskFreeRate, TimeStep(q));
    Crr(q.steps, q.spotPrice, q.strikePrice, u, d, OneStepDiscount(m, q), growth, (growth - d) / (u - d))
  }

  /** For positive σ and dt the up move exceeds 1, so d = 1/u lies in (0, 1). */
  lemma UpMoveAboveOne(m: MathLib, q: BinomialParams)
    requires Axioms(m) && !IsDegenerate(q)
    ensures UpMove(m, q) > 1.0 && 0.0 < 1.0 / UpMove(m, q) < 1.0
    ensures UpMove(m, q) * (1.0 / UpMove(m, q)) == 1.0
  {
    assert TimeStep(q) > 0.0;
    assert RootStep(m, q) > 0.0;
    PositiveProduct(q.volatility, RootStep(m, q));
    assert UpMove(m, q) > 1.0;
  }

  /** The factors of every non-degenerate input meet `Consistent`. */
  lemma CrrFactorsConsistent(m: MathLib, q: BinomialParams)
    requires Axioms(m) && !IsDegenerate(q)
    ensures Consistent(CrrFactors(m, q))
  {
    UpMoveAboveOne(m, q);
    var f := CrrFactors(m, q);
    assert f.up == UpMove(m, q) && f.down == 1.0 / UpMove(m, q);
    assert f.growth == StepGrowth(m, q.riskFreeRate, TimeStep(q)) > 0.0;
    assert f.discount == StepDiscount(m, q.riskFreeRate, TimeStep(q)) > 0.0;
    var w := f.up - f.down;
    assert f.p * w == f.growth - f.down;
  }

  /**
   * The stock price at node j of level i, one move at a time: the last move into
   * the node is up when j < i and down when j = i. `StockClosedForm` shows it is
   * S·u^(i−j)·d^j, the price the lattice records.
   */
  function Stock(f: Crr, i: nat, j: nat): real
    requires j <= i
    decreases i
  {
    if i == 0 then f.spot
    else if j < i then Stock(f, i - 1, j) * f.up
    else Stock(f, i - 1, j - 1) * f.down
  }

  /** The exercise value of a leg at stock price s. */
  function Payoff(f: Crr, leg: Leg, s: real): (v: real)
    ensures v >= 0.0
    ensures leg == Call ==> v >= s - f.strike && (v == 0.0 || v == s - f.strike)
    ensures leg == Put ==> v >= f.strike - s && (v == 0.0 || v == f.strike - s)
  {
    match leg
    case Call => Max(0.0, s - f.strike)
    case Put => Max(0.0, f.strike - s)
  }

  /** One step of backward induction: the discounted risk-neutral expectation of two successor values. */
  function Rollback(discount: real, p: real, upValue: real, downValue: real): real
  {
    discount * (p * upValue + (1.0 - p) * downValue)
  }

  /** The value of a leg at node (i, j): the payoff at expiry, else the rolled-back successor values. */
  function NodeValue(f: Crr, leg: Leg, i: nat, j: nat): real
    requires j <= i <= f.n
    decreases f.n - i
  {
    if i == f.n then Payoff(f, leg, Stock(f, i, j))
    else Rollback(f.discount, f.p, NodeValue(f, leg, i + 1, j), NodeValue(f, leg, i + 1, j + 1))
  }

  /** The probability recorded at node (i, j): 1 at the root, C(i, j)·p^(i−j)·(1 − p)^j elsewhere. */
  function Prob(f: Crr, i: nat, j: nat): real
    requires j <= i
  {
    if i == 0 then 1.0 else Choose(i, j) as real * Pow(f.p, i - j) * Pow(1.0 - f.p, j)
  }

  /** The node the finished lattice holds at (i, j). */
  function ExpectedNode(f: Crr, i: nat, j: nat): Node
    requires j <= i <= f.n
  {
    Node(Stock(f, i, j), NodeValue(f, Call, i, j), NodeValue(f, Put, i, j), Prob(f, i, j))
  }

  /** The node the forward pass creates at (i, j): its stock price and zeros. */
  function FreshNode(f: Crr, i: nat, j: nat): Node
    requires j <= i
  {
    Node(Stock(f, i, j), 0.0, 0.0, 0.0)
  }

  /** Level i holds i + 1 nodes, the first j of them finished and the rest fresh. */
  predicate LevelPartial(f: Crr, i: nat, level: seq<Node>, j: nat)
    requires i <= f.n
  {
    && |level| == i + 1
    && (forall j' :: 0 <= j' < j && j' <= i ==> level[j'] == ExpectedNode(f, i, j'))
    && (forall j' :: j <= j' <= i ==> level[j'] == FreshNode(f, i, j'))
  }

  /** Level i as the forward pass leaves it. */
  predicate LevelFresh(f: Crr, i: nat, level: seq<Node>)
  {
    |level| == i + 1 && forall j :: 0 <= j <= i ==> level[j] == FreshNode(f, i, j)
  }

  /** Level i of the finished lattice. */
  predicate LevelDone(f: Crr, i: nat, level: seq<Node>)
    requires i <= f.n
  {
    |level| == i + 1 && forall j :: 0 <= j <= i ==> level[j] == ExpectedNode(f, i, j)
  }

  /** The finished lattice: n + 1 levels, every node as `ExpectedNode` says. */
  predicate IsLattice(f: Crr, tree: seq<seq<Node>>)
  {
    |tree| == f.n + 1 && forall i :: 0 <= i <= f.n ==> LevelDone(f, i, tree[i])
  }

  /** The root prices a valuation returns: zero for degenerate inputs. */
  function BinomialPrices(m: MathLib, q: BinomialParams): CallPut
    requires Axioms(m)
  {
    if IsDegenerate(q) then CallPut(0.0, 0.0)
    else
      var f := CrrFactors(m, q);
      CallPut(NodeValue(f, Call, 0, 0), NodeValue(f, Put, 0, 0))
  }

  // ---------------------------------------------------------------------------
  // The imperative lattice
  // ---------------------------------------------------------------------------

  /** `binomialCoefficient`: the multiplicative walk along row n after folding k by symmetry. */
  method BinomialCoefficient(n: int, k: int) returns (r: real)
    ensures r == Choose(n, k) as real
  {
    if k > n || k < 0 {
      return 0.0;
    }
    if k == 0 || k == n {
      return 1.0;
    }
    var h := Min(k, n - k);
    r := 1.0;
    var i := 0;
    while i < h
      invariant 0 <= i <= h
      invariant r == Choose(n, i) as real
    {
      CoefficientStep(n, i, r);
      r := r * (n - i) as real / (i + 1) as real;
      i := i + 1;
    }
    ChooseSymmetric(n, k);
  }

  /** One step of the coefficient loop moves from C(n, i) to C(n, i + 1). */
  lemma CoefficientStep(n: int, i: nat, r: real)
    requires i < n && r == Choose(n, i) as real
    ensures r * (n - i) as real / (i + 1) as real == Choose(n, i + 1) as real
  {
    ChooseAbsorption(n, i);
    AbsorptionReal(i, n - i, Choose(n, i + 1), Choose(n, i), r);
  }

  /** The exact-division step of the coefficient loop, over the reals. */
  lemma AbsorptionReal(i: nat, a: int, c1: int, c: int, r: real)
    requires (i + 1) * c1 == a * c && r == c as real
    ensures r * a as real / (i + 1) as real == c1 as real
  {
    assert (i + 1) as real * c1 as real == a as real * c as real;
  }

  /** `calculateBinomial`: forward pass, terminal payoffs, backward induction. */
  method CalculateBinomial(m: MathLib, q: BinomialParams) returns (res: BinomialResult)
    requires Axioms(m)
    ensures IsDegenerate(q) ==> res == BinomialResult(0.0, 0.0, [])
    ensures !IsDegenerate(q) ==> IsLattice(CrrFactors(m, q), res.tree)
    ensures CallPut(res.callPrice, res.putPrice) == BinomialPrices(m, q)
  {
    if IsDegenerate(q) {
      return BinomialResult(0.0, 0.0, []);
    }
    var f := CrrFactors(m, q);
    var n := f.n;
    var tree := ForwardPass(f);
    var lastLevel := ExpiryLevel(f, tree[n]);
    tree := tree[n := lastLevel];

    var i := n - 1;
    while i >= 0
      invariant -1 <= i < n
      invariant |tree| == n + 1
      invariant forall i' :: 0 <= i' <= i ==> LevelFresh(f, i', tree[i'])
      invariant forall i' :: i < i' <= n ==> LevelDone(f, i', tree[i'])
    {
      var level := BackwardLevel(f, i, tree[i], tree[i + 1]);
      tree := tree[i := level];
      i := i - 1;
    }
    res := BinomialResult(tree[0][0].callValue, tree[0][0].putValue, tree);
  }

  /** Step 1 of `calculateBinomial`: levels 0..n of fresh nodes. */
  method ForwardPass(f: Crr) returns (tree: seq<seq<Node>>)
    ensures |tree| == f.n + 1
    ensures forall i :: 0 <= i <= f.n ==> LevelFresh(f, i, tree[i])
  {
    tree := [];
    var i := 0;
    while i <= f.n
      invariant 0 <= i <= f.n + 1
      invariant |tree| == i
      invariant forall i' :: 0 <= i' < i ==> LevelFresh(f, i', tree[i'])
    {
      var level: seq<Node> := [];
      var j := 0;
      while j <= i
        invariant 0 <= j <= i + 1
        invariant |level| == j
        invariant forall j' :: 0 <= j' < j ==> level[j'] == FreshNode(f, i, j')
      {
        var stockPrice := f.spot * Pow(f.up, i - j) * Pow(f.down, j);
        StockClosedForm(f, i, j);
        level := level + [Node(stockPrice, 0.0, 0.0, 0.0)];
        j := j + 1;
      }
      tree := tree + [level];
      i := i + 1;
    }
  }

  /** Step 2 of `calculateBinomial`: payoffs and probabilities on the last level. */
  method ExpiryLevel(f: Crr, lastLevel: seq<Node>) returns (level: seq<Node>)
    requires f.n >= 1 && LevelFresh(f, f.n, lastLevel)
    ensures LevelDone(f, f.n, level)
  {
    var n := f.n;
    level := lastLevel;
    var j := 0;
    while j <= n
      invariant 0 <= j <= n + 1
      invariant LevelPartial(f, n, level, j)
    {
      var stockPrice := level[j].stockPrice;
      var c := BinomialCoefficient(n, j);
      level := level[j := Node(stockPrice, Payoff(f, Call, stockPrice), Payoff(f, Put, stockPrice),
                               c * Pow(f.p, n - j) * Pow(1.0 - f.p, j))];
      j := j + 1;
    }
  }

  /** One level of step 3 of `calculateBinomial`: level i from the finished level i + 1. */
  method BackwardLevel(f: Crr, i: nat, current: seq<Node>, next: seq<Node>) returns (level: seq<Node>)
    requires i < f.n && LevelFresh(f, i, current) && LevelDone(f, i + 1, next)
    ensures LevelDone(f, i, level)
  {
    level := current;
    var j := 0;
    while j <= i
      invariant 0 <= j <= i + 1
      invariant LevelPartial(f, i, level, j)
    {
      var up, down := next[j], next[j + 1];
      assert up == ExpectedNode(f, i + 1, j) && down == ExpectedNode(f, i + 1, j + 1);
      var node := BackwardNodeUpdate(f, i, j, level[j], up.callValue, down.callValue, up.putValue, down.putValue);
      PartialStep(f, i, level, j, node);
      level := level[j := node];
      j := j + 1;
    }
  }

  /**
   * The body of the backward loop for node (i, j): both values from the values of the
   * two successor nodes, and the probability (1 at the root).
   */
  method BackwardNodeUpdate(f: Crr, i: nat, j: nat, start: Node,
                            upCall: real, downCall: real, upPut: real, downPut: real) returns (node: Node)
    requires j <= i < f.n && start == FreshNode(f, i, j)
    requires upCall == NodeValue(f, Call, i + 1, j) && downCall == NodeValue(f, Call, i + 1, j + 1)
    requires upPut == NodeValue(f, Put, i + 1, j) && downPut == NodeValue(f, Put, i + 1, j + 1)
    ensures node == ExpectedNode(f, i, j)
  {
    var callValue := Rollback(f.discount, f.p, upCall, downCall);
    BackwardNode(f, Call, i, j, upCall, downCall, callValue);
    var putValue := Rollback(f.discount, f.p, upPut, downPut);
    BackwardNode(f, Put, i, j, upPut, downPut, putValue);
    var probability := NodeProbabilityAt(f, i, j);
    FinishNode(f, i, j, start, callValue, putValue, probability);
    node := start.(callValue := callValue, putValue := putValue, probability := probability);
  }

  /** The probability the backward loop records at (i, j): 1 at the root. */
  method NodeProbabilityAt(f: Crr, i: nat, j: nat) returns (probability: real)
    requires j <= i
    ensures probability == Prob(f, i, j)
  {
    if i > 0 {
      var c := BinomialCoefficient(i, j);
      probability := c * Pow(f.p, i - j) * Pow(1.0 - f.p, j);
      NodeProbability(f, i, j, c);
    } else {
      probability := 1.0;
    }
  }

  /** One node of the backward induction: the discounted expectation of its two successors. */
  lemma BackwardNode(f: Crr, leg: Leg, i: nat, j: nat, upValue: real, downValue: real, value: real)
    requires j <= i < f.n
    requires upValue == NodeValue(f, leg, i + 1, j) && downValue == NodeValue(f, leg, i + 1, j + 1)
    requires value == Rollback(f.discount, f.p, upValue, downValue)
    ensures value == NodeValue(f, leg, i, j)
  {
  }

  /** Away from the root, the recorded probability is the coefficient times the two powers. */
  lemma NodeProbability(f: Crr, i: nat, j: nat, c: real)
    requires 0 < i && j <= i && c == Choose(i, j) as real
    ensures Prob(f, i, j) == c * Pow(f.p, i - j) * Pow(1.0 - f.p, j)
  {
  }

  /** A fresh node given the values and probability of (i, j) is the finished node. */
  lemma FinishNode(f: Crr, i: nat, j: nat, start: Node, callValue: real, putValue: real, probability: real)
    requires j <= i <= f.n && start == FreshNode(f, i, j)
    requires callValue == NodeValue(f, Call, i, j) && putValue == NodeValue(f, Put, i, j)
    requires probability == Prob(f, i, j)
    ensures start.(callValue := callValue, putValue := putValue, probability := probability) == ExpectedNode(f, i, j)
  {
  }

  /** Finishing node j of a partly finished level. */
  lemma PartialStep(f: Crr, i: nat, level: seq<Node>, j: nat, node: Node)
    requires j <= i <= f.n
    requires LevelPartial(f, i, level, j) && node == ExpectedNode(f, i, j)
    ensures LevelPartial(f, i, level[j := node], j + 1)
  {
  }

  // ---------------------------------------------------------------------------
  // Properties of the lattice
  // ---------------------------------------------------------------------------

  /** u·d = 1 and p·(u − d) + d = e^(r·dt): p lies in [0, 1] exactly when d <= e^(r·dt) <= u. */
  lemma ProbabilityInUnitInterval(f: Crr)
    requires Consistent(f)
    ensures 0.0 <= f.p <= 1.0 <==> f.down <= f.growth <= f.up
  {
    var w := f.up - f.down;
    assert w > 0.0;
    assert f.growth - f.down == f.p * w;
    assert f.up - f.growth == (1.0 - f.p) * w;
    SignOfProduct(f.p, w);
    SignOfProduct(1.0 - f.p, w);
  }

  /** With a positive factor w, x·w and x have the same sign. */
  lemma SignOfProduct(x: real, w: real)
    requires w > 0.0
    ensures x >= 0.0 <==> x * w >= 0.0
  {
    if x < 0.0 {
      assert x * w < 0.0;
    }
  }

  /** Every node value is non-negative when 0 <= p <= 1. */
  lemma {:induction false} NodeValueNonNegative(f: Crr, leg: Leg, i: nat, j: nat)
    requires j <= i <= f.n && f.discount >= 0.0 && 0.0 <= f.p <= 1.0
    ensures NodeValue(f, leg, i, j) >= 0.0
    decreases f.n - i
  {
    if i < f.n {
      NodeValueNonNegative(f, leg, i + 1, j);
      NodeValueNonNegative(f, leg, i + 1, j + 1);
      NonNegativeRollback(f.discount, f.p, NodeValue(f, leg, i + 1, j), NodeValue(f, leg, i + 1, j + 1),
                          NodeValue(f, leg, i, j));
    }
  }

  lemma NonNegativeRollback(d: real, p: real, x: real, y: real, v: real)
    requires d >= 0.0 && 0.0 <= p <= 1.0 && x >= 0.0 && y >= 0.0
    requires v == Rollback(d, p, x, y)
    ensures v >= 0.0
  {
    assert p * x >= 0.0 && (1.0 - p) * y >= 0.0;
  }

  /** At expiry, call payoff minus put payoff is the stock price minus the strike. */
  lemma PayoffParity(f: Crr, s: real)
    ensures Payoff(f, Call, s) - Payoff(f, Put, s) == s - f.strike
    ensures Payoff(f, Call, s) >= 0.0 && Payoff(f, Put, s) >= 0.0
  {
  }

  /** One up move multiplies the stock price by u, one down move by d, whatever the path. */
  lemma {:induction false} StockStep(f: Crr, i: nat, j: nat)
    requires j <= i
    ensures Stock(f, i + 1, j) == Stock(f, i, j) * f.up
    ensures Stock(f, i + 1, j + 1) == Stock(f, i, j) * f.down
    decreases i
  {
    if j < i {
      StockStep(f, i - 1, j);
      Commute(Stock(f, i - 1, j), f.up, f.down);
    }
  }

  lemma Commute(x: real, a: real, b: real)
    ensures x * b * a == x * a * b
  {
  }

  /** The node's stock price is S·u^(i−j)·d^j. */
  lemma {:induction false} StockClosedForm(f: Crr, i: nat, j: nat)
    requires j <= i
    ensures Stock(f, i, j) == f.spot * Pow(f.up, i - j) * Pow(f.down, j)
    decreases i
  {
    if i > 0 {
      if j < i {
        StockClosedForm(f, i - 1, j);
        ClosedFormUp(f, i, j);
      } else {
        StockClosedForm(f, i - 1, j - 1);
        ClosedFormDown(f, i, j);
      }
    }
  }

  /** An up move extends the closed form of the node it leaves. */
  lemma ClosedFormUp(f: Crr, i: nat, j: nat)
    requires j < i
    requires Stock(f, i - 1, j) == f.spot * Pow(f.up, i - 1 - j) * Pow(f.down, j)
    ensures Stock(f, i, j) == f.spot * Pow(f.up, i - j) * Pow(f.down, j)
  {
    PowStep(f.up, i - j);
    assert i - j - 1 == i - 1 - j;
    MoveUp(Stock(f, i - 1, j), Stock(f, i, j), f.spot, Pow(f.up, i - 1 - j), Pow(f.up, i - j), Pow(f.down, j), f.up);
  }

  /** A down move extends the closed form of the node it leaves. */
  lemma ClosedFormDown(f: Crr, i: nat, j: nat)
    requires 0 < j == i
    requires Stock(f, i - 1, j - 1) == f.spot * Pow(f.up, (i - 1) - (j - 1)) * Pow(f.down, j - 1)
    ensures Stock(f, i, j) == f.spot * Pow(f.up, i - j) * Pow(f.down, j)
  {
    PowStep(f.down, j);
    assert (i - 1) - (j - 1) == i - j;
    MoveDown(Stock(f, i - 1, j - 1), Stock(f, i, j), f.spot, Pow(f.up, i - j), Pow(f.down, j - 1), Pow(f.down, j), f.down);
  }

  /** The ring step of an up move in `StockClosedForm`: one more factor u. */
  lemma MoveUp(st: real, st': real, s: real, a: real, a': real, b: real, x: real)
    requires st' == st * x && st == s * a * b && a' == x * a
    ensures st' == s * a' * b
  {
  }

  /** The ring step of a down move in `StockClosedForm`: one more factor d. */
  lemma MoveDown(st: real, st': real, s: real, a: real, b: real, b': real, x: real)
    requires st' == st * x && st == s * a * b && b' == x * b
    ensures st' == s * a * b'
  {
  }

  /** The value at (i, j) of a forward contract struck at K with k steps left: S − K·discount^k. */
  function Forward(f: Crr, i: nat, j: nat, k: nat): real
    requires j <= i
  {
    Stock(f, i, j) - f.strike * Pow(f.discount, k)
  }

  /** Call value minus put value at a node. */
  function Spread(f: Crr, i: nat, j: nat): real
    requires j <= i <= f.n
  {
    NodeValue(f, Call, i, j) - NodeValue(f, Put, i, j)
  }

  /**
   * Put–call parity on the lattice: at every node, call value minus put value is
   * the stock price minus the strike discounted over the remaining steps. It needs
   * the one-step discount and growth to be reciprocal.
   */
  lemma LatticeParity(f: Crr, i: nat, j: nat)
    requires f.p * (f.up - f.down) + f.down == f.growth && f.discount * f.growth == 1.0
    requires j <= i <= f.n
    ensures NodeValue(f, Call, i, j) - NodeValue(f, Put, i, j) == Stock(f, i, j) - f.strike * Pow(f.discount, f.n - i)
  {
    ParityWithStepsLeft(f, i, j, f.n - i);
  }

  /** The parity induction, on the number k of steps left. */
  lemma {:induction false} ParityWithStepsLeft(f: Crr, i: nat, j: nat, k: nat)
    requires f.p * (f.up - f.down) + f.down == f.growth && f.discount * f.growth == 1.0
    requires j <= i <= f.n && k == f.n - i
    ensures Spread(f, i, j) == Forward(f, i, j, k)
    decreases k
  {
    if k == 0 {
      PayoffParity(f, Stock(f, i, j));
    } else {
      ParityWithStepsLeft(f, i + 1, j, k - 1);
      ParityWithStepsLeft(f, i + 1, j + 1, k - 1);
      NodeValueStep(f, Call, i, j);
      NodeValueStep(f, Put, i, j);
      ForwardStep(f, i, j, k);
      SpreadRollback(f.discount, f.p, NodeValue(f, Call, i, j), NodeValue(f, Put, i, j),
                     NodeValue(f, Call, i + 1, j), NodeValue(f, Call, i + 1, j + 1),
                     NodeValue(f, Put, i + 1, j), NodeValue(f, Put, i + 1, j + 1),
                     Forward(f, i, j, k), Forward(f, i + 1, j, k - 1), Forward(f, i + 1, j + 1, k - 1));
    }
  }

  /** The step of `ParityWithStepsLeft`: spreads that match forwards at both successors match at the node. */
  lemma SpreadRollback(d: real, p: real, c: real, v: real, cu: real, cd: real, vu: real, vd: real,
                       w: real, wu: real, wd: real)
    requires c == Rollback(d, p, cu, cd) && v == Rollback(d, p, vu, vd)
    requires cu - vu == wu && cd - vd == wd && w == Rollback(d, p, wu, wd)
    ensures c - v == w
  {
    RollbackDifference(d, p, cu, cd, vu, vd);
  }

  /** Under the risk-neutral probability the forward contract itself rolls back. */
  lemma ForwardStep(f: Crr, i: nat, j: nat, k: nat)
    requires f.p * (f.up - f.down) + f.down == f.growth && f.discount * f.growth == 1.0
    requires j <= i && k >= 1
    ensures Forward(f, i, j, k) == Rollback(f.discount, f.p, Forward(f, i + 1, j, k - 1), Forward(f, i + 1, j + 1, k - 1))
  {
    StockMartingale(f, i, j);
    PowStep(f.discount, k);
    ForwardRing(f.discount, f.p, f.strike, Stock(f, i, j), Stock(f, i + 1, j), Stock(f, i + 1, j + 1),
                Pow(f.discount, k - 1), Pow(f.discount, k),
                Forward(f, i, j, k), Forward(f, i + 1, j, k - 1), Forward(f, i + 1, j + 1, k - 1));
  }

  /** The ring identity behind `ForwardStep`. */
  lemma ForwardRing(d: real, p: real, k: real, s: real, su: real, sd: real, w: real, wk: real,
                    v: real, vu: real, vd: real)
    requires Rollback(d, p, su, sd) == s && wk == d * w
    requires v == s - k * wk && vu == su - k * w && vd == sd - k * w
    ensures v == Rollback(d, p, vu, vd)
  {
    assert p * vu + (1.0 - p) * vd == p * su + (1.0 - p) * sd - k * w;
  }

  /** The discounted risk-neutral expectation of the next stock price is today's price. */
  lemma StockMartingale(f: Crr, i: nat, j: nat)
    requires f.p * (f.up - f.down) + f.down == f.growth && f.discount * f.growth == 1.0
    requires j <= i
    ensures Rollback(f.discount, f.p, Stock(f, i + 1, j), Stock(f, i + 1, j + 1)) == Stock(f, i, j)
  {
    StockStep(f, i, j);
    MartingaleRing(f.discount, f.p, f.growth, f.up, f.down, Stock(f, i, j));
  }

  lemma MartingaleRing(d: real, p: real, g: real, up: real, down: real, s: real)
    requires p * (up - down) + down == g && d * g == 1.0
    ensures Rollback(d, p, s * up, s * down) == s
  {
    assert p * (s * up) + (1.0 - p) * (s * down) == s * g;
    assert d * (s * g) == s * (d * g);
  }

  /** Rolling back is linear: the difference of two rollbacks is the rollback of the differences. */
  lemma RollbackDifference(d: real, p: real, a: real, b: real, x: real, y: real)
    ensures Rollback(d, p, a, b) - Rollback(d, p, x, y) == Rollback(d, p, a - x, b - y)
  {
    assert p * a + (1.0 - p) * b - (p * x + (1.0 - p) * y) == p * (a - x) + (1.0 - p) * (b - y);
  }

  /** Away from expiry a node value is the discounted expectation of its successors. */
  lemma NodeValueStep(f: Crr, leg: Leg, i: nat, j: nat)
    requires j <= i < f.n
    ensures NodeValue(f, leg, i, j) == Rollback(f.discount, f.p, NodeValue(f, leg, i + 1, j), NodeValue(f, leg, i + 1, j + 1))
  {
  }

  /** The terminal payoffs of a leg, one per terminal node. */
  function Payoffs(f: Crr, leg: Leg): (v: seq<real>)
    ensures |v| == f.n + 1
  {
    seq(f.n + 1, s requires 0 <= s <= f.n => Payoff(f, leg, Stock(f, f.n, s)))
  }

  /** With no steps left the binomial combination is the value itself. */
  lemma ExpectationNoSteps(a: real, b: real, v: seq<real>, j: nat)
    requires j < |v|
    ensures Expectation(a, b, 0, v, j) == v[j]
  {
    assert Sum(Weights(a, b, 0), v, j, 0) == 0.0;
    assert Weights(a, b, 0)(0) == 1.0;
  }

  /**
   * d^k · Σ_t C(k, t)·p^(k−t)·(1 − p)^t · v[j + t]: the discounted binomial
   * expectation, over k steps, of the values v[j..j + k].
   */
  function Discounted(d: real, p: real, v: seq<real>, k: nat, j: nat): real
    requires j + k < |v|
  {
    Pow(d, k) * Expectation(p, 1.0 - p, k, v, j)
  }

  /**
   * Risk-neutral valuation: with n − i steps left, the value at (i, j) is the
   * discounted binomial expectation of the terminal payoffs reachable from the node.
   */
  lemma RiskNeutralValue(f: Crr, leg: Leg, i: nat, j: nat)
    requires j <= i <= f.n
    ensures NodeValue(f, leg, i, j) == Discounted(f.discount, f.p, Payoffs(f, leg), f.n - i, j)
  {
    RiskNeutralWithStepsLeft(f, leg, i, j, f.n - i);
  }

  /** The risk-neutral induction, on the number k of steps left. */
  lemma {:induction false} RiskNeutralWithStepsLeft(f: Crr, leg: Leg, i: nat, j: nat, k: nat)
    requires j <= i <= f.n && k == f.n - i
    ensures NodeValue(f, leg, i, j) == Discounted(f.discount, f.p, Payoffs(f, leg), k, j)
    decreases k
  {
    if k == 0 {
      ExpectationNoSteps(f.p, 1.0 - f.p, Payoffs(f, leg), j);
    } else {
      RiskNeutralWithStepsLeft(f, leg, i + 1, j, k - 1);
      RiskNeutralWithStepsLeft(f, leg, i + 1, j + 1, k - 1);
      NodeValueStep(f, leg, i, j);
      DiscountedStep(f.discount, f.p, Payoffs(f, leg), k, j);
    }
  }

  /** The discounted expectation satisfies the one-step rollback. */
  lemma DiscountedStep(d: real, p: real, v: seq<real>, k: nat, j: nat)
    requires k >= 1 && j + k < |v|
    ensures Discounted(d, p, v, k, j) == Rollback(d, p, Discounted(d, p, v, k - 1, j), Discounted(d, p, v, k - 1, j + 1))
  {
    ExpectationStep(p, 1.0 - p, k, v, j);
    PowStep(d, k);
    DiscountRing(d, p, Pow(d, k - 1), Pow(d, k),
                 Expectation(p, 1.0 - p, k, v, j),
                 Expectation(p, 1.0 - p, k - 1, v, j), Expectation(p, 1.0 - p, k - 1, v, j + 1),
                 Discounted(d, p, v, k, j), Discounted(d, p, v, k - 1, j), Discounted(d, p, v, k - 1, j + 1));
  }

  /** One factor of a power. */
  lemma PowStep(x: real, e: nat)
    requires e >= 1
    ensures Pow(x, e) == x * Pow(x, e - 1)
  {
  }

  /** The ring identity behind `DiscountedStep`. */
  lemma DiscountRing(d: real, p: real, w: real, wk: real, e: real, x: real, y: real, v: real, vu: real, vd: real)
    requires e == p * x + (1.0 - p) * y && wk == d * w
    requires v == wk * e && vu == w * x && vd == w * y
    ensures v == Rollback(d, p, vu, vd)
  {
    assert p * (w * x) + (1.0 - p) * (w * y) == w * (p * x + (1.0 - p) * y);
  }

  /**
   * Every recorded probability, the root's included, is the binomial weight
   * C(i, j)·p^(i−j)·(1 − p)^j.
   */
  lemma ProbClosedForm(f: Crr, i: nat, j: nat)
    requires j <= i
    ensures Prob(f, i, j) == BinomialWeight(f.p, 1.0 - f.p, i, j)
  {
    if i == 0 {
      RootWeight(f.p, 1.0 - f.p);
    }
  }

  lemma RootWeight(a: real, b: real)
    ensures BinomialWeight(a, b, 0, 0) == 1.0
  {
    assert Choose(0, 0) == 1;
  }

  /** The sum of the probabilities recorded on a level. */
  function TotalProbability(level: seq<Node>): real
  {
    if |level| == 0 then 0.0 else TotalProbability(level[..|level| - 1]) + level[|level| - 1].probability
  }

  /** k copies of 1. */
  function Ones(k: nat): (v: seq<real>)
    ensures |v| == k && forall s :: 0 <= s < k ==> v[s] == 1.0
  {
    seq(k, _ => 1.0)
  }

  lemma {:induction false} ProbabilityPrefix(f: Crr, i: nat, level: seq<Node>, t: nat)
    requires i <= f.n && LevelDone(f, i, level) && t <= i + 1
    ensures TotalProbability(level[..t]) == Sum(Weights(f.p, 1.0 - f.p, i), Ones(i + 1), 0, t)
  {
    if t > 0 {
      ProbabilityPrefix(f, i, level, t - 1);
      assert level[..t][..t - 1] == level[..t - 1];
      ProbClosedForm(f, i, t - 1);
      TermClosedForm(f.p, 1.0 - f.p, i, t - 1);
      assert level[t - 1].probability == Weights(f.p, 1.0 - f.p, i)(t - 1) * Ones(i + 1)[t - 1];
    } else {
      assert level[..0] == [];
    }
  }

  /** The probabilities recorded on every level of a finished lattice sum to 1. */
  lemma LevelProbabilitiesSumToOne(f: Crr, tree: seq<seq<Node>>, i: nat)
    requires IsLattice(f, tree) && i <= f.n
    ensures TotalProbability(tree[i]) == 1.0
  {
    var level := tree[i];
    assert LevelDone(f, i, level);
    ProbabilityPrefix(f, i, level, i + 1);
    assert level[..i + 1] == level;
    BinomialTheorem(f.p, 1.0 - f.p, i, Ones(i + 1), 0);
    assert f.p + (1.0 - f.p) == 1.0;
    PowOne(i);
  }

  /** With 0 <= p <= 1 every recorded probability is non-negative. */
  lemma ProbNonNegative(f: Crr, i: nat, j: nat)
    requires j <= i && 0.0 <= f.p <= 1.0
    ensures Prob(f, i, j) >= 0.0
  {
    ProbClosedForm(f, i, j);
    TermClosedForm(f.p, 1.0 - f.p, i, j);
    TermNonNegative(f.p, 1.0 - f.p, i, j);
  }

  /** With 0 <= p <= 1 every value and probability in a finished lattice is non-negative. */
  lemma LatticeNonNegative(f: Crr, tree: seq<seq<Node>>, i: nat, j: nat)
    requires IsLattice(f, tree) && j <= i <= f.n && f.discount >= 0.0 && 0.0 <= f.p <= 1.0
    ensures tree[i][j].callValue >= 0.0 && tree[i][j].putValue >= 0.0
    ensures tree[i][j].probability >= 0.0
  {
    assert LevelDone(f, i, tree[i]);
    NodeValueNonNegative(f, Call, i, j);
    NodeValueNonNegative(f, Put, i, j);
    ProbNonNegative(f, i, j);
  }

  // ---------------------------------------------------------------------------
  // Finite-difference Greeks
  // ---------------------------------------------------------------------------

  /** The default bumps of `calculateBinomialGreeks`: 1% of spot, 0.01 of volatility, one day. */
  const DefaultPriceChange: real := 0.01
  const DefaultVolChange: real := 0.01
  const DefaultTimeChange: real := 1.0 / 365.0

  /** The fixed rate bump of the rho estimate. */
  const RateChange: real := 0.01

  /** The inputs with the spot price multiplied by `factor`. */
  function ScaleSpot(q: BinomialParams, factor: real): BinomialParams
  {
    q.(spotPrice := q.spotPrice * factor)
  }

  /** Forward difference of both legs. */
  function Difference(bumped: CallPut, base: CallPut, width: real): (d: CallPut)
    requires width != 0.0
    ensures d.call * width == bumped.call - base.call && d.put * width == bumped.put - base.put
  {
    CallPut((bumped.call - base.call) / width, (bumped.put - base.put) / width)
  }

  /** Central difference (up − down)/(2·S·h) of both legs, the delta estimate. */
  function CentralDifference(up: CallPut, down: CallPut, s: real, h: real): (d: CallPut)
    requires s != 0.0 && h != 0.0
    ensures d.call * (2.0 * s * h) == up.call - down.call && d.put * (2.0 * s * h) == up.put - down.put
  {
    NonZeroProduct(s, h);
    Difference(up, down, 2.0 * s * h)
  }

  /** Second difference (up − 2·mid + down)/(S·h/2)², the gamma estimate. */
  function SecondDifference(up: real, mid: real, down: real, s: real, h: real): (g: real)
    requires s != 0.0 && h != 0.0
    ensures g * Pow(s * h / 2.0, 2) == up - 2.0 * mid + down
    ensures g == 0.0 <==> up - 2.0 * mid + down == 0.0
  {
    NonZeroProduct(s, h);
    SquareNonZero(s * h / 2.0);
    ZeroFactor((up - 2.0 * mid + down) / Pow(s * h / 2.0, 2), Pow(s * h / 2.0, 2));
    (up - 2.0 * mid + down) / Pow(s * h / 2.0, 2)
  }

  lemma NonZeroProduct(s: real, h: real)
    requires s != 0.0 && h != 0.0
    ensures 2.0 * s * h != 0.0 && s * h / 2.0 != 0.0
  {
  }

  lemma ZeroFactor(x: real, w: real)
    requires w != 0.0
    ensures x * w == 0.0 <==> x == 0.0
  {
  }

  lemma SquareNonZero(w: real)
    requires w != 0.0
    ensures Pow(w, 2) != 0.0
  {
    assert Pow(w, 1) == w;
    assert Pow(w, 2) == w * w;
    if w < 0.0 {
      assert (-w) * (-w) > 0.0;
    } else {
      assert w * w > 0.0;
    }
  }

  /** What `calculateBinomialGreeks` demands to avoid dividing by zero. */
  predicate Bumpable(q: BinomialParams, priceChange: real, volChange: real, timeChange: real)
  {
    q.spotPrice != 0.0 && priceChange != 0.0 && volChange != 0.0 && timeChange != 0.0
  }

  /** Delta: the central difference of both legs over spot bumps of ±priceChange. */
  function BinomialDelta(m: MathLib, q: BinomialParams, priceChange: real): CallPut
    requires Axioms(m) && q.spotPrice != 0.0 && priceChange != 0.0
  {
    CentralDifference(BinomialPrices(m, ScaleSpot(q, 1.0 + priceChange)),
                      BinomialPrices(m, ScaleSpot(q, 1.0 - priceChange)), q.spotPrice, priceChange)
  }

  /** Gamma: the second difference of the call over spot bumps of ±priceChange/2. */
  function BinomialGamma(m: MathLib, q: BinomialParams, priceChange: real): real
    requires Axioms(m) && q.spotPrice != 0.0 && priceChange != 0.0
  {
    SecondDifference(BinomialPrices(m, ScaleSpot(q, 1.0 + priceChange / 2.0)).call,
                     BinomialPrices(m, q).call,
                     BinomialPrices(m, ScaleSpot(q, 1.0 - priceChange / 2.0)).call, q.spotPrice, priceChange)
  }

  /** Theta: the forward difference of both legs when the maturity is shortened by timeChange. */
  function BinomialTheta(m: MathLib, q: BinomialParams, timeChange: real): CallPut
    requires Axioms(m) && timeChange != 0.0
  {
    Difference(BinomialPrices(m, q.(timeToMaturity := q.timeToMaturity - timeChange)), BinomialPrices(m, q), timeChange)
  }

  /** Vega: the forward difference of the call when the volatility is raised by volChange. */
  function BinomialVega(m: MathLib, q: BinomialParams, volChange: real): real
    requires Axioms(m) && volChange != 0.0
  {
    (BinomialPrices(m, q.(volatility := q.volatility + volChange)).call - BinomialPrices(m, q).call) / volChange
  }

  /** Rho: the forward difference of both legs when the rate is raised by 0.01. */
  function BinomialRho(m: MathLib, q: BinomialParams): CallPut
    requires Axioms(m)
  {
    Difference(BinomialPrices(m, q.(riskFreeRate := q.riskFreeRate + RateChange)), BinomialPrices(m, q), RateChange)
  }

  /** `calculateBinomialGreeks` on exact lattice prices. */
  function BinomialGreeks(m: MathLib, q: BinomialParams, priceChange: real, volChange: real, timeChange: real): Greeks
    requires Axioms(m) && Bumpable(q, priceChange, volChange, timeChange)
  {
    Greeks(BinomialDelta(m, q, priceChange), BinomialGamma(m, q, priceChange),
           BinomialTheta(m, q, timeChange), BinomialVega(m, q, volChange), BinomialRho(m, q))
  }

  /**
   * `calculateBinomialGreeks`: eight lattice valuations (the base, four spot bumps,
   * shorter maturity, higher volatility, higher rate) and the differences between them.
   */
  method CalculateBinomialGreeks(m: MathLib, q: BinomialParams, priceChange: real, volChange: real, timeChange: real)
    returns (g: Greeks)
    requires Axioms(m) && Bumpable(q, priceChange, volChange, timeChange)
    ensures g == BinomialGreeks(m, q, priceChange, volChange, timeChange)
  {
    var base := Prices(m, q);
    var delta := EstimateDelta(m, q, priceChange);
    var gamma := EstimateGamma(m, q, priceChange, base);
    var theta := EstimateTheta(m, q, timeChange, base);
    var vega := EstimateVega(m, q, volChange, base);
    var rho := EstimateRho(m, q, base);
    g := Greeks(delta, gamma, theta, vega, rho);
  }

  /** The spot-bumped valuations of delta and their central difference. */
  method EstimateDelta(m: MathLib, q: BinomialParams, priceChange: real) returns (delta: CallPut)
    requires Axioms(m) && q.spotPrice != 0.0 && priceChange != 0.0
    ensures delta == BinomialDelta(m, q, priceChange)
  {
    var up := Prices(m, ScaleSpot(q, 1.0 + priceChange));
    var down := Prices(m, ScaleSpot(q, 1.0 - priceChange));
    delta := CentralDifference(up, down, q.spotPrice, priceChange);
  }

  /** The half-step spot-bumped valuations of gamma and their second difference. */
  method EstimateGamma(m: MathLib, q: BinomialParams, priceChange: real, base: CallPut) returns (gamma: real)
    requires Axioms(m) && q.spotPrice != 0.0 && priceChange != 0.0
    requires base == BinomialPrices(m, q)
    ensures gamma == BinomialGamma(m, q, priceChange)
  {
    var midUp := Prices(m, ScaleSpot(q, 1.0 + priceChange / 2.0));
    var midDown := Prices(m, ScaleSpot(q, 1.0 - priceChange / 2.0));
    gamma := SecondDifference(midUp.call, base.call, midDown.call, q.spotPrice, priceChange);
  }

  /** The valuation at the shortened maturity and its forward difference from the base. */
  method EstimateTheta(m: MathLib, q: BinomialParams, timeChange: real, base: CallPut) returns (theta: CallPut)
    requires Axioms(m) && timeChange != 0.0
    requires base == BinomialPrices(m, q)
    ensures theta == BinomialTheta(m, q, timeChange)
  {
    var timeUp := Prices(m, q.(timeToMaturity := q.timeToMaturity - timeChange));
    theta := Difference(timeUp, base, timeChange);
  }

  /** The valuation at the raised volatility and the forward difference of its call. */
  method EstimateVega(m: MathLib, q: BinomialParams, volChange: real, base: CallPut) returns (vega: real)
    requires Axioms(m) && volChange != 0.0
    requires base == BinomialPrices(m, q)
    ensures vega == BinomialVega(m, q, volChange)
  {
    var volUp := Prices(m, q.(volatility := q.volatility + volChange));
    vega := (volUp.call - base.call) / volChange;
  }

  /** The valuation at the raised rate and its forward difference from the base. */
  method EstimateRho(m: MathLib, q: BinomialParams, base: CallPut) returns (rho: CallPut)
    requires Axioms(m)
    requires base == BinomialPrices(m, q)
    ensures rho == BinomialRho(m, q)
  {
    var rateUp := Prices(m, q.(riskFreeRate := q.riskFreeRate + RateChange));
    rho := Difference(rateUp, base, RateChange);
  }

  /**
   * `generateBinomialDeltaCurve`: one `calculateBinomialGreeks` call with the default bumps
   * per sample of the sweep; the sample spots must be non-zero for the delta quotient.
   */
  method GenerateBinomialDeltaCurve(m: MathLib, base: BinomialParams, range: SpotRange) returns (curve: DeltaCurve)
    requires Axioms(m) && range.steps != 0
    requires forall i :: 0 <= i <= range.steps ==> SamplePoint(range, i) != 0.0
    ensures |curve.spotPrices| == |curve.callDeltas| == |curve.putDeltas| == SampleCount(range.steps)
    ensures forall i :: 0 <= i < |curve.spotPrices| ==>
      && curve.spotPrices[i] == SamplePoint(range, i)
      && curve.callDeltas[i] == CurveDelta(m, base, SamplePoint(range, i)).call
      && curve.putDeltas[i] == CurveDelta(m, base, SamplePoint(range, i)).put
  {
    var spotPrices, callDeltas, putDeltas := [], [], [];
    var step := (range.max - range.min) / range.steps as real;
    var i := 0;
    while i <= range.steps
      invariant 0 <= i <= SampleCount(range.steps)
      invariant |spotPrices| == |callDeltas| == |putDeltas| == i
      invariant forall k :: 0 <= k < i ==>
        && spotPrices[k] == SamplePoint(range, k)
        && callDeltas[k] == CurveDelta(m, base, SamplePoint(range, k)).call
        && putDeltas[k] == CurveDelta(m, base, SamplePoint(range, k)).put
    {
      var spotPrice := range.min + i as real * step;
      SampleAt(range, step, i);
      spotPrices := spotPrices + [spotPrice];
      var delta := DeltaAt(m, base, spotPrice);
      callDeltas := callDeltas + [delta.call];
      putDeltas := putDeltas + [delta.put];
      i := i + 1;
    }
    curve := DeltaCurve(spotPrices, callDeltas, putDeltas);
  }

  /** One sample of the delta curve: the delta of a full Greeks run at spot price s. */
  method DeltaAt(m: MathLib, base: BinomialParams, s: real) returns (delta: CallPut)
    requires Axioms(m) && s != 0.0
    ensures delta == CurveDelta(m, base, s)
  {
    var greeks := CalculateBinomialGreeks(m, base.(spotPrice := s),
                                          DefaultPriceChange, DefaultVolChange, DefaultTimeChange);
    delta := greeks.delta;
  }

  /** The lattice delta, with the default bump, at spot price s. */
  function CurveDelta(m: MathLib, base: BinomialParams, s: real): CallPut
    requires Axioms(m) && s != 0.0
  {
    BinomialDelta(m, base.(spotPrice := s), DefaultPriceChange)
  }

  /** The two root prices of one `calculateBinomial` run. */
  method Prices(m: MathLib, q: BinomialParams) returns (prices: CallPut)
    requires Axioms(m)
    ensures prices == BinomialPrices(m, q)
  {
    var result := CalculateBinomial(m, q);
    prices := CallPut(result.callPrice, result.putPrice);
  }

  /** With a non-positive strike or no steps every bumped valuation is degenerate too: all Greeks are zero. */
  lemma BinomialGreeksDegenerate(m: MathLib, q: BinomialParams, priceChange: real, volChange: real, timeChange: real)
    requires Axioms(m) && Bumpable(q, priceChange, volChange, timeChange)
    requires q.strikePrice <= 0.0 || q.steps <= 0
    ensures BinomialGreeks(m, q, priceChange, volChange, timeChange) == ZeroGreeks
  {
    var zero := CallPut(0.0, 0.0);
    assert BinomialPrices(m, q) == zero;
    assert BinomialDelta(m, q, priceChange) == zero;
    assert BinomialPrices(m, ScaleSpot(q, 1.0 + priceChange / 2.0)) == zero;
    assert BinomialPrices(m, ScaleSpot(q, 1.0 - priceChange / 2.0)) == zero;
    assert BinomialGamma(m, q, priceChange) == 0.0;
    assert BinomialTheta(m, q, timeChange) == zero;
    assert BinomialVega(m, q, volChange) == 0.0;
    assert BinomialRho(m, q) == zero;
  }

  /**
   * When the maturity is no longer than the time bump, the shortened valuation is the
   * degenerate zero and theta is just −price/timeChange on both legs.
   */
  lemma ThetaShortMaturity(m: MathLib, q: BinomialParams, priceChange: real, volChange: real, timeChange: real)
    requires Axioms(m) && Bumpable(q, priceChange, volChange, timeChange)
    requires q.timeToMaturity <= timeChange
    ensures BinomialGreeks(m, q, priceChange, volChange, timeChange).theta
         == CallPut(-BinomialPrices(m, q).call / timeChange, -BinomialPrices(m, q).put / timeChange)
  {
  }

  /** exp(x)·exp(−x) = 1 makes the one-step discount and growth of the lattice reciprocal. */
  lemma DiscountGrowthReciprocal(m: MathLib, q: BinomialParams)
    requires Axioms(m) && ExpInverse(m) && !IsDegenerate(q)
    ensures CrrFactors(m, q).discount * CrrFactors(m, q).growth == 1.0
  {
    assert StepDiscount(m, q.riskFreeRate, TimeStep(q)) * StepGrowth(m, q.riskFreeRate, TimeStep(q)) == 1.0;
  }

  /** The strike discounted over all n steps, K·D^n. */
  function DiscountedStrike(m: MathLib, q: BinomialParams): real
    requires q.steps > 0
  {
    q.strikePrice * Pow(OneStepDiscount(m, q), q.steps)
  }

  /** Put–call parity of a pair of prices: call − put = spot − discounted strike. */
  predicate ParityAt(prices: CallPut, spot: real, bond: real)
  {
    prices.call - prices.put == spot - bond
  }

  /**
   * Put–call parity of the lattice prices: call minus put is the spot price minus the
   * strike discounted over all n steps.
   */
  lemma BinomialParity(m: MathLib, q: BinomialParams)
    requires Axioms(m) && ExpInverse(m) && !IsDegenerate(q)
    ensures ParityAt(BinomialPrices(m, q), q.spotPrice, DiscountedStrike(m, q))
  {
    var f := CrrFactors(m, q);
    CrrFactorsConsistent(m, q);
    DiscountGrowthReciprocal(m, q);
    LatticeParity(f, 0, 0);
  }

  /** Scaling the spot by a positive factor keeps the inputs non-degenerate and the discount unchanged. */
  lemma ScaledNonDegenerate(m: MathLib, q: BinomialParams, factor: real)
    requires !IsDegenerate(q) && factor > 0.0
    ensures !IsDegenerate(ScaleSpot(q, factor))
    ensures DiscountedStrike(m, ScaleSpot(q, factor)) == DiscountedStrike(m, q)
  {
    PositiveProduct(q.spotPrice, factor);
    var scaled := ScaleSpot(q, factor);
    assert scaled.riskFreeRate == q.riskFreeRate && TimeStep(scaled) == TimeStep(q);
    assert OneStepDiscount(m, scaled) == OneStepDiscount(m, q);
    assert scaled.strikePrice == q.strikePrice && scaled.steps == q.steps;
  }

  lemma PositiveProduct(a: real, b: real)
    requires a > 0.0 && b > 0.0
    ensures a * b > 0.0
  {
  }

  /** Put–call parity at a spot scaled by a positive factor, against the unscaled discount. */
  lemma ScaledParity(m: MathLib, q: BinomialParams, scaled: BinomialParams, factor: real)
    requires Axioms(m) && ExpInverse(m) && !IsDegenerate(q) && factor > 0.0
    requires scaled == ScaleSpot(q, factor)
    ensures !IsDegenerate(scaled) && scaled.spotPrice == q.spotPrice * factor
    ensures ParityAt(BinomialPrices(m, scaled), scaled.spotPrice, DiscountedStrike(m, q))
  {
    ScaledNonDegenerate(m, q, factor);
    BinomialParity(m, scaled);
  }

  /**
   * For bumps inside (−1, 1) the lattice deltas of the two legs differ by exactly 1,
   * the finite-difference form of put–call parity.
   */
  lemma BinomialDeltaParity(m: MathLib, q: BinomialParams, priceChange: real)
    requires Axioms(m) && ExpInverse(m) && !IsDegenerate(q)
    requires priceChange != 0.0 && -1.0 < priceChange < 1.0
    ensures BinomialDelta(m, q, priceChange).call - BinomialDelta(m, q, priceChange).put == 1.0
  {
    var fu, fd := 1.0 + priceChange, 1.0 - priceChange;
    var up, down := BinomialPrices(m, ScaleSpot(q, fu)), BinomialPrices(m, ScaleSpot(q, fd));
    BumpedLegsParity(m, q, fu, fd);
    DeltaParityRing(q.spotPrice, priceChange, DiscountedStrike(m, q), fu, fd, q.spotPrice * fu, q.spotPrice * fd, up, down);
  }

  /** Parity at two positively scaled spots, against the unscaled discounted strike. */
  lemma BumpedLegsParity(m: MathLib, q: BinomialParams, fu: real, fd: real)
    requires Axioms(m) && ExpInverse(m) && !IsDegenerate(q) && fu > 0.0 && fd > 0.0
    ensures ParityAt(BinomialPrices(m, ScaleSpot(q, fu)), q.spotPrice * fu, DiscountedStrike(m, q))
    ensures ParityAt(BinomialPrices(m, ScaleSpot(q, fd)), q.spotPrice * fd, DiscountedStrike(m, q))
  {
    ScaledParity(m, q, ScaleSpot(q, fu), fu);
    ScaledParity(m, q, ScaleSpot(q, fd), fd);
  }

  /** The arithmetic of `BinomialDeltaParity`: both parities subtracted, divided by 2·S·h. */
  lemma DeltaParityRing(s: real, h: real, bond: real, fu: real, fd: real, su: real, sd: real,
                        upPrices: CallPut, downPrices: CallPut)
    requires s != 0.0 && h != 0.0
    requires fu == 1.0 + h && fd == 1.0 - h && su == s * fu && sd == s * fd
    requires ParityAt(upPrices, su, bond) && ParityAt(downPrices, sd, bond)
    ensures CentralDifference(upPrices, downPrices, s, h).call - CentralDifference(upPrices, downPrices, s, h).put == 1.0
  {
    var delta := CentralDifference(upPrices, downPrices, s, h);
    var w := 2.0 * s * h;
    NonZeroProduct(s, h);
    assert (delta.call - delta.put - 1.0) * w == 0.0;
    ZeroFactor(delta.call - delta.put - 1.0, w);
  }

  /**
   * Gamma is computed from the call leg only; by parity the put leg's second difference
   * is the same number, for bumps inside (−2, 2).
   */
  lemma GammaFromPutLeg(m: MathLib, q: BinomialParams, priceChange: real)
    requires Axioms(m) && ExpInverse(m) && !IsDegenerate(q)
    requires priceChange != 0.0 && -2.0 < priceChange < 2.0
    ensures SecondDifference(BinomialPrices(m, ScaleSpot(q, 1.0 + priceChange / 2.0)).put,
                             BinomialPrices(m, q).put,
                             BinomialPrices(m, ScaleSpot(q, 1.0 - priceChange / 2.0)).put,
                             q.spotPrice, priceChange)
         == BinomialGamma(m, q, priceChange)
  {
    var fu, fd := 1.0 + priceChange / 2.0, 1.0 - priceChange / 2.0;
    var up, base, down := BinomialPrices(m, ScaleSpot(q, fu)), BinomialPrices(m, q), BinomialPrices(m, ScaleSpot(q, fd));
    GammaLegsParity(m, q, fu, fd);
    GammaLegRing(q.spotPrice, DiscountedStrike(m, q), fu, fd, up, base, down);
    EqualNumerators(up.put, base.put, down.put, up.call, base.call, down.call, q.spotPrice, priceChange);
    GammaOfLegs(m, q, priceChange, up, base, down);
  }

  /** `BinomialGamma` over the three lattice runs it combines. */
  lemma GammaOfLegs(m: MathLib, q: BinomialParams, priceChange: real, up: CallPut, base: CallPut, down: CallPut)
    requires Axioms(m) && q.spotPrice != 0.0 && priceChange != 0.0
    requires up == BinomialPrices(m, ScaleSpot(q, 1.0 + priceChange / 2.0)) && base == BinomialPrices(m, q)
    requires down == BinomialPrices(m, ScaleSpot(q, 1.0 - priceChange / 2.0))
    ensures BinomialGamma(m, q, priceChange) == SecondDifference(up.call, base.call, down.call, q.spotPrice, priceChange)
  {
  }

  /** Parity of the three lattice runs that gamma combines. */
  lemma GammaLegsParity(m: MathLib, q: BinomialParams, fu: real, fd: real)
    requires Axioms(m) && ExpInverse(m) && !IsDegenerate(q) && fu > 0.0 && fd > 0.0
    ensures ParityAt(BinomialPrices(m, ScaleSpot(q, fu)), q.spotPrice * fu, DiscountedStrike(m, q))
    ensures ParityAt(BinomialPrices(m, q), q.spotPrice, DiscountedStrike(m, q))
    ensures ParityAt(BinomialPrices(m, ScaleSpot(q, fd)), q.spotPrice * fd, DiscountedStrike(m, q))
  {
    BumpedLegsParity(m, q, fu, fd);
    BinomialParity(m, q);
  }

  /** The arithmetic of `GammaFromPutLeg`: the parity terms cancel in the second-difference numerator. */
  lemma GammaLegRing(s: real, bond: real, fu: real, fd: real, up: CallPut, base: CallPut, down: CallPut)
    requires fu + fd == 2.0
    requires ParityAt(up, s * fu, bond) && ParityAt(base, s, bond) && ParityAt(down, s * fd, bond)
    ensures up.put - 2.0 * base.put + down.put == up.call - 2.0 * base.call + down.call
  {
    assert s * fu + s * fd == s * (fu + fd);
  }

  /** Second differences with equal numerators are equal. */
  lemma EqualNumerators(u: real, b: real, d: real, u': real, b': real, d': real, s: real, h: real)
    requires s != 0.0 && h != 0.0
    requires u - 2.0 * b + d == u' - 2.0 * b' + d'
    ensures SecondDifference(u, b, d, s, h) == SecondDifference(u', b', d', s, h)
  {
  }

  /** Raising the volatility keeps the inputs non-degenerate and the discounted strike unchanged. */
  lemma VolatilityBumpedParity(m: MathLib, q: BinomialParams, volChange: real)
    requires Axioms(m) && ExpInverse(m) && !IsDegenerate(q) && q.volatility + volChange > 0.0
    ensures ParityAt(BinomialPrices(m, q.(volatility := q.volatility + volChange)), q.spotPrice, DiscountedStrike(m, q))
  {
    var bumped := q.(volatility := q.volatility + volChange);
    assert bumped.riskFreeRate == q.riskFreeRate && TimeStep(bumped) == TimeStep(q);
    assert OneStepDiscount(m, bumped) == OneStepDiscount(m, q);
    BinomialParity(m, bumped);
  }

  /**
   * Vega is computed from the call leg only; by parity the put leg's forward difference
   * is the same number whenever the raised volatility stays positive.
   */
  lemma VegaFromPutLeg(m: MathLib, q: BinomialParams, volChange: real)
    requires Axioms(m) && ExpInverse(m) && !IsDegenerate(q)
    requires volChange != 0.0 && q.volatility + volChange > 0.0
    ensures (BinomialPrices(m, q.(volatility := q.volatility + volChange)).put - BinomialPrices(m, q).put) / volChange
         == BinomialVega(m, q, volChange)
  {
    VolatilityBumpedParity(m, q, volChange);
    BinomialParity(m, q);
    var bumped := BinomialPrices(m, q.(volatility := q.volatility + volChange));
    var base := BinomialPrices(m, q);
    assert bumped.put - base.put == bumped.call - base.call;
  }

  /** On the delta curve of non-degenerate inputs the two deltas differ by exactly 1 at every sample. */
  lemma CurveDeltaParity(m: MathLib, base: BinomialParams, s: real)
    requires Axioms(m) && ExpInverse(m) && !IsDegenerate(base.(spotPrice := s))
    ensures CurveDelta(m, base, s).call - CurveDelta(m, base, s).put == 1.0
  {
    BinomialDeltaParity(m, base.(spotPrice := s), DefaultPriceChange);
  }
}
