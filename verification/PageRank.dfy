/** Personalised PageRank by power iteration (crates/sap-automate-graph/src/ppr.rs), with
    `f32` read as the reals.  Nodes are numbered 0..n; a node without outgoing weight sends
    its mass back to the restart vector. */
module PageRank {
  import opened Sums
  import opened Rows

  type Vec = seq<real>

  predicate ValidRow(n: nat, row: Row) {
    forall l :: l in row ==> l.to < n && l.weight >= 0.0
  }

  predicate ValidNet(g: Net) {
    forall row :: row in g ==> ValidRow(|g|, row)
  }

  predicate NonNegative(v: Vec) {
    forall i :: 0 <= i < |v| ==> v[i] >= 0.0
  }

  function Entry(v: Vec): int -> real {
    i => Get(v, i)
  }

  function Get(v: Vec, i: int): real {
    if 0 <= i < |v| then v[i] else 0.0
  }

  function Total(v: Vec): real {
    Sum(|v|, Entry(v))
  }

  /** Non-negative, with total exactly one. */
  predicate Distribution(v: Vec) {
    NonNegative(v) && Total(v) == 1.0
  }

  /** Non-negative, with total at most one: what the restart vector of any seeds is, repeated ones included. */
  predicate SubDistribution(v: Vec) {
    NonNegative(v) && Total(v) <= 1.0
  }

  // ----- one step of the walk, as a linear map --------------------------------------------

  function OutWeight(row: Row): real {
    if row == [] then 0.0 else OutWeight(row[..|row| - 1]) + row[|row| - 1].weight
  }

  /** The share of node `i`'s mass that moves to `j`: along its links, or by restart if dangling. */
  function Share(g: Net, t: Vec, i: int, j: int): real
    requires |t| == |g|
  {
    if !(0 <= i < |g| && 0 <= j < |g|) then 0.0
    else if OutWeight(g[i]) <= 0.0 then t[j] else WeightTo(g[i], j) / OutWeight(g[i])
  }

  /** What reaches node `j` when every node of `p` passes its mass on. */
  function Mix(g: Net, t: Vec, p: Vec, j: int): real
    requires |t| == |p| == |g|
  {
    Sum(|g|, Flow(g, t, p, j))
  }

  function Flow(g: Net, t: Vec, p: Vec, j: int): int -> real
    requires |t| == |g|
  {
    i => Get(p, i) * Share(g, t, i, j)
  }

  function Walk(g: Net, t: Vec, p: Vec): Vec
    requires |t| == |p| == |g|
  {
    seq(|g|, j => Mix(g, t, p, j))
  }

  /** The vector after one iteration: restart with probability `alpha`, else pass the mass on. */
  function Step(g: Net, t: Vec, alpha: real, p: Vec): Vec
    requires |t| == |p| == |g|
  {
    Plus(Scale(alpha, t), Scale(1.0 - alpha, Walk(g, t, p)))
  }

  // ----- vectors -------------------------------------------------------------------------

  function Plus(p: Vec, q: Vec): Vec
    requires |p| == |q|
  {
    seq(|p|, i requires 0 <= i < |p| => p[i] + q[i])
  }

  function Minus(p: Vec, q: Vec): Vec
    requires |p| == |q|
  {
    seq(|p|, i requires 0 <= i < |p| => p[i] - q[i])
  }

  function Scale(c: real, v: Vec): Vec {
    seq(|v|, i requires 0 <= i < |v| => c * v[i])
  }

  function Magnitude(v: Vec): Vec {
    seq(|v|, i requires 0 <= i < |v| => Abs(v[i]))
  }

  /** The L1 distance. */
  function Distance(p: Vec, q: Vec): real
    requires |p| == |q|
  {
    Total(Magnitude(Minus(p, q)))
  }

  lemma TotalPlus(p: Vec, q: Vec)
    requires |p| == |q|
    ensures Total(Plus(p, q)) == Total(p) + Total(q)
  {
    SumAdd(|p|, Entry(p), Entry(q), Entry(Plus(p, q)));
  }

  lemma TotalScale(c: real, v: Vec)
    ensures Total(Scale(c, v)) == c * Total(v)
  {
    SumScale(|v|, c, Entry(v), Entry(Scale(c, v)));
  }

  lemma TotalMono(p: Vec, q: Vec)
    requires |p| == |q| && forall i :: 0 <= i < |p| ==> p[i] <= q[i]
    ensures Total(p) <= Total(q)
  {
    SumMono(|p|, Entry(p), Entry(q));
  }

  lemma ProductNonNegative(a: real, b: real)
    requires a >= 0.0 && b >= 0.0
    ensures a * b >= 0.0
  {}

  lemma AbsScale(c: real, x: real)
    requires c >= 0.0
    ensures Abs(c * x) == c * Abs(x)
  {
    if x >= 0.0 { ProductNonNegative(c, x); } else { ProductNonNegative(c, -x); }
  }

  // ----- one iteration keeps the mass ------------------------------------------------------

  function Weights(row: Row): int -> real {
    j => WeightTo(row, j)
  }

  lemma {:induction false} RowWeights(n: nat, row: Row)
    requires ValidRow(n, row)
    ensures OutWeight(row) >= 0.0 && forall j :: WeightTo(row, j) >= 0.0
    ensures Sum(n, Weights(row)) == OutWeight(row)
  {
    if row == [] {
      SumZero(n, Weights(row));
    } else {
      var front, last := row[..|row| - 1], row[|row| - 1];
      RowWeights(n, front);
      var point := j => if last.to == j then last.weight else 0.0;
      SumZero(n, j => 0.0);
      SumPoint(n, last.to, j => 0.0, point);
      SumAdd(n, Weights(front), point, Weights(row));
    }
  }

  lemma Quotient(x: real, y: real)
    requires x >= 0.0 && y > 0.0
    ensures x / y >= 0.0 && x / y == (1.0 / y) * x
  {}

  function Shares(g: Net, t: Vec, i: int): int -> real
    requires |t| == |g|
  {
    j => Share(g, t, i, j)
  }

  lemma ShareNonNegative(g: Net, t: Vec, i: int, j: int)
    requires ValidNet(g) && |t| == |g| && NonNegative(t)
    ensures Share(g, t, i, j) >= 0.0
  {
    if 0 <= i < |g| && 0 <= j < |g| {
      assert g[i] in g;
      RowWeights(|g|, g[i]);
      if OutWeight(g[i]) > 0.0 {
        Quotient(WeightTo(g[i], j), OutWeight(g[i]));
      }
    }
  }

  lemma LinkedShare(g: Net, t: Vec, i: nat, j: nat)
    requires ValidNet(g) && |t| == |g| && i < |g| && j < |g| && OutWeight(g[i]) > 0.0
    ensures Shares(g, t, i)(j) == (1.0 / OutWeight(g[i])) * Weights(g[i])(j)
  {
    assert g[i] in g;
    RowWeights(|g|, g[i]);
    Quotient(WeightTo(g[i], j), OutWeight(g[i]));
  }

  lemma Inverse(x: real)
    requires x > 0.0
    ensures (1.0 / x) * x == 1.0
  {
  }

  lemma LinkedSharesSumToOne(g: Net, t: Vec, i: nat)
    requires ValidNet(g) && |t| == |g| && i < |g| && OutWeight(g[i]) > 0.0
    ensures Sum(|g|, Shares(g, t, i)) == 1.0
  {
    var out := OutWeight(g[i]);
    forall j: nat | j < |g| ensures Shares(g, t, i)(j) == (1.0 / out) * Weights(g[i])(j) {
      LinkedShare(g, t, i, j);
    }
    SumScale(|g|, 1.0 / out, Weights(g[i]), Shares(g, t, i));
    assert g[i] in g;
    RowWeights(|g|, g[i]);
    Inverse(out);
  }

  /** How much of its mass node `i` hands on. */
  function RowSum(g: Net, t: Vec, i: int): real
    requires |t| == |g|
  {
    Sum(|g|, Shares(g, t, i))
  }

  /** All of it along its links; a dangling node hands on what the restart vector holds. */
  lemma RowSumIs(g: Net, t: Vec, i: nat)
    requires ValidNet(g) && |t| == |g| && i < |g|
    ensures RowSum(g, t, i) == if OutWeight(g[i]) <= 0.0 then Total(t) else 1.0
  {
    if OutWeight(g[i]) <= 0.0 {
      SumSame(|g|, Entry(t), Shares(g, t, i));
    } else {
      LinkedSharesSumToOne(g, t, i);
    }
  }

  /** Every row of the walk is a probability distribution, dangling rows included. */
  lemma ShareIsStochastic(g: Net, t: Vec, i: nat)
    requires ValidNet(g) && |t| == |g| && Distribution(t) && i < |g|
    ensures Sum(|g|, Shares(g, t, i)) == 1.0 && forall j :: Shares(g, t, i)(j) >= 0.0
  {
    RowSumIs(g, t, i);
    forall j ensures Shares(g, t, i)(j) >= 0.0 {
      ShareNonNegative(g, t, i, j);
    }
  }

  function Cell(g: Net, t: Vec, v: Vec): (int, int) -> real
    requires |t| == |g|
  {
    (i, j) => Get(v, i) * Share(g, t, i, j)
  }

  /** What each node hands on. */
  function Sent(g: Net, t: Vec, v: Vec): int -> real
    requires |t| == |g|
  {
    i => Get(v, i) * RowSum(g, t, i)
  }

  lemma CellRow(g: Net, t: Vec, v: Vec, i: nat)
    requires |t| == |v| == |g| && i < |g|
    ensures Sum(|g|, j => Cell(g, t, v)(i, j)) == Sent(g, t, v)(i)
  {
    var row := j => Cell(g, t, v)(i, j);
    forall j | 0 <= j < |g| ensures row(j) == Get(v, i) * Shares(g, t, i)(j) {
      assert row(j) == Cell(g, t, v)(i, j) == Get(v, i) * Share(g, t, i, j);
    }
    SumScale(|g|, Get(v, i), Shares(g, t, i), row);
  }

  /** The mass after one walk is the mass handed on: a matrix summed by columns and by rows. */
  lemma WalkTotal(g: Net, t: Vec, v: Vec)
    requires |t| == |v| == |g|
    ensures Total(Walk(g, t, v)) == Sum(|g|, Sent(g, t, v))
  {
    var f := Cell(g, t, v);
    forall j | 0 <= j < |g| ensures Entry(Walk(g, t, v))(j) == Sum(|g|, i => f(i, j)) {
      SumSame(|g|, Flow(g, t, v, j), i => f(i, j));
    }
    SumSame(|g|, Entry(Walk(g, t, v)), j => Sum(|g|, i => f(i, j)));
    SumSwap(|g|, |g|, f);
    forall i | 0 <= i < |g| ensures Sum(|g|, j => f(i, j)) == Sent(g, t, v)(i) {
      CellRow(g, t, v, i);
      SumSame(|g|, j => f(i, j), j => Cell(g, t, v)(i, j));
    }
    SumSame(|g|, i => Sum(|g|, j => f(i, j)), Sent(g, t, v));
  }

  /** With a restart distribution, passing the mass on keeps its total. */
  lemma WalkKeepsTotal(g: Net, t: Vec, v: Vec)
    requires ValidNet(g) && |t| == |v| == |g| && Distribution(t)
    ensures Total(Walk(g, t, v)) == Total(v)
  {
    WalkTotal(g, t, v);
    forall i | 0 <= i < |g| ensures Sent(g, t, v)(i) == Entry(v)(i) {
      RowSumIs(g, t, i);
    }
    SumSame(|g|, Sent(g, t, v), Entry(v));
  }

  lemma HandsOnAtMost(x: real, share: real)
    requires x >= 0.0 && share <= 1.0
    ensures x * share <= x
  {
    ProductNonNegative(x, 1.0 - share);
  }

  lemma SentIsAtMost(g: Net, t: Vec, v: Vec, i: nat)
    requires ValidNet(g) && |t| == |v| == |g| && SubDistribution(t) && NonNegative(v) && i < |g|
    ensures Sent(g, t, v)(i) <= Entry(v)(i)
  {
    RowSumIs(g, t, i);
    HandsOnAtMost(v[i], RowSum(g, t, i));
  }

  /** With any restart vector of seeds it never adds mass. */
  lemma WalkAddsNoMass(g: Net, t: Vec, v: Vec)
    requires ValidNet(g) && |t| == |v| == |g| && SubDistribution(t) && NonNegative(v)
    ensures Total(Walk(g, t, v)) <= Total(v)
  {
    WalkTotal(g, t, v);
    forall i | 0 <= i < |g| ensures Sent(g, t, v)(i) <= Entry(v)(i) {
      SentIsAtMost(g, t, v, i);
    }
    SumMono(|g|, Sent(g, t, v), Entry(v));
  }

  lemma WalkNonNegative(g: Net, t: Vec, v: Vec)
    requires ValidNet(g) && |t| == |v| == |g| && NonNegative(t) && NonNegative(v)
    ensures NonNegative(Walk(g, t, v))
  {
    forall j | 0 <= j < |g| ensures Mix(g, t, v, j) >= 0.0 {
      forall i | 0 <= i < |g| ensures 0.0 <= Flow(g, t, v, j)(i) {
        ShareNonNegative(g, t, i, j);
        ProductNonNegative(v[i], Share(g, t, i, j));
        assert Flow(g, t, v, j)(i) == v[i] * Share(g, t, i, j);
      }
      SumZero(|g|, i => 0.0);
      SumMono(|g|, i => 0.0, Flow(g, t, v, j));
    }
  }

  lemma StepNonNegative(g: Net, t: Vec, alpha: real, p: Vec)
    requires ValidNet(g) && |t| == |p| == |g| && NonNegative(t) && NonNegative(p) && 0.0 <= alpha <= 1.0
    ensures NonNegative(Step(g, t, alpha, p))
  {
    var w := Walk(g, t, p);
    WalkNonNegative(g, t, p);
    forall j | 0 <= j < |g| ensures Step(g, t, alpha, p)[j] >= 0.0 {
      ProductNonNegative(alpha, t[j]);
      ProductNonNegative(1.0 - alpha, w[j]);
    }
  }

  lemma StepTotal(g: Net, t: Vec, alpha: real, p: Vec)
    requires |t| == |p| == |g|
    ensures Total(Step(g, t, alpha, p)) == alpha * Total(t) + (1.0 - alpha) * Total(Walk(g, t, p))
  {
    var w := Walk(g, t, p);
    TotalPlus(Scale(alpha, t), Scale(1.0 - alpha, w));
    TotalScale(alpha, t);
    TotalScale(1.0 - alpha, w);
  }

  /** Every iteration keeps all scores non-negative and their total exactly one. */
  lemma StepKeepsDistribution(g: Net, t: Vec, alpha: real, p: Vec)
    requires ValidNet(g) && |t| == |p| == |g| && Distribution(t) && Distribution(p) && 0.0 <= alpha <= 1.0
    ensures Distribution(Step(g, t, alpha, p))
  {
    StepNonNegative(g, t, alpha, p);
    WalkKeepsTotal(g, t, p);
    StepTotal(g, t, alpha, p);
  }

  lemma Blend(alpha: real, x: real, y: real, bound: real)
    requires 0.0 <= alpha <= 1.0 && x <= bound && y <= bound
    ensures alpha * x + (1.0 - alpha) * y <= bound
  {
    ProductNonNegative(alpha, bound - x);
    ProductNonNegative(1.0 - alpha, bound - y);
  }

  /** And with any restart vector of seeds it adds no mass to that of the restart vector. */
  lemma StepAddsNoMass(g: Net, t: Vec, alpha: real, p: Vec)
    requires ValidNet(g) && |t| == |p| == |g| && SubDistribution(t) && 0.0 <= alpha <= 1.0
    requires NonNegative(p) && Total(p) <= Total(t)
    ensures NonNegative(Step(g, t, alpha, p)) && Total(Step(g, t, alpha, p)) <= Total(t)
  {
    StepNonNegative(g, t, alpha, p);
    WalkAddsNoMass(g, t, p);
    StepTotal(g, t, alpha, p);
    Blend(alpha, Total(t), Total(Walk(g, t, p)), Total(t));
  }

  // ----- contraction ---------------------------------------------------------------------

  lemma MixDifference(g: Net, t: Vec, p: Vec, q: Vec, j: int)
    requires |t| == |p| == |q| == |g|
    ensures Mix(g, t, p, j) == Mix(g, t, q, j) + Mix(g, t, Minus(p, q), j)
  {
    forall i | 0 <= i < |g|
      ensures Flow(g, t, p, j)(i) == Flow(g, t, q, j)(i) + Flow(g, t, Minus(p, q), j)(i)
    {
      var c := Share(g, t, i, j);
      assert Flow(g, t, p, j)(i) == p[i] * c && Flow(g, t, q, j)(i) == q[i] * c;
      assert Flow(g, t, Minus(p, q), j)(i) == (p[i] - q[i]) * c;
    }
    SumAdd(|g|, Flow(g, t, q, j), Flow(g, t, Minus(p, q), j), Flow(g, t, p, j));
  }

  lemma MixTriangle(g: Net, t: Vec, v: Vec, j: int)
    requires ValidNet(g) && |t| == |v| == |g| && NonNegative(t)
    ensures Abs(Mix(g, t, v, j)) <= Mix(g, t, Magnitude(v), j)
  {
    forall i | 0 <= i < |g| ensures Flow(g, t, Magnitude(v), j)(i) == Abs(Flow(g, t, v, j)(i)) {
      ShareNonNegative(g, t, i, j);
      AbsScale(Share(g, t, i, j), v[i]);
      assert Flow(g, t, v, j)(i) == v[i] * Share(g, t, i, j);
      assert Flow(g, t, Magnitude(v), j)(i) == Abs(v[i]) * Share(g, t, i, j);
    }
    SumAbs(|g|, Flow(g, t, v, j), Flow(g, t, Magnitude(v), j));
  }

  lemma StepDifference(g: Net, t: Vec, alpha: real, p: Vec, q: Vec, j: nat)
    requires ValidNet(g) && |t| == |p| == |q| == |g| && NonNegative(t) && alpha <= 1.0 && j < |g|
    ensures Abs(Step(g, t, alpha, p)[j] - Step(g, t, alpha, q)[j])
            <= (1.0 - alpha) * Mix(g, t, Magnitude(Minus(p, q)), j)
  {
    var x, y, d := Mix(g, t, p, j), Mix(g, t, q, j), Mix(g, t, Minus(p, q), j);
    MixDifference(g, t, p, q, j);
    MixTriangle(g, t, Minus(p, q), j);
    AbsScale(1.0 - alpha, d);
    calc {
      Step(g, t, alpha, p)[j] - Step(g, t, alpha, q)[j];
      (1.0 - alpha) * x - (1.0 - alpha) * y;
      (1.0 - alpha) * d;
    }
    ProductNonNegative(1.0 - alpha, Mix(g, t, Magnitude(Minus(p, q)), j) - Abs(d));
  }

  /** How far the two steps are apart at each node, and the bound on it. */
  function Moved(g: Net, t: Vec, alpha: real, p: Vec, q: Vec): Vec
    requires |t| == |p| == |q| == |g|
  {
    Magnitude(Minus(Step(g, t, alpha, p), Step(g, t, alpha, q)))
  }

  lemma MovedAt(g: Net, t: Vec, alpha: real, p: Vec, q: Vec, j: nat)
    requires ValidNet(g) && |t| == |p| == |q| == |g| && NonNegative(t) && alpha <= 1.0 && j < |g|
    ensures Moved(g, t, alpha, p, q)[j] <= Scale(1.0 - alpha, Walk(g, t, Magnitude(Minus(p, q))))[j]
  {
    StepDifference(g, t, alpha, p, q, j);
  }

  lemma StepDistance(g: Net, t: Vec, alpha: real, p: Vec, q: Vec)
    requires ValidNet(g) && |t| == |p| == |q| == |g| && NonNegative(t) && alpha <= 1.0
    ensures Distance(Step(g, t, alpha, p), Step(g, t, alpha, q))
            <= (1.0 - alpha) * Total(Walk(g, t, Magnitude(Minus(p, q))))
  {
    var moved, w := Moved(g, t, alpha, p, q), Walk(g, t, Magnitude(Minus(p, q)));
    forall j | 0 <= j < |g| ensures moved[j] <= Scale(1.0 - alpha, w)[j] {
      MovedAt(g, t, alpha, p, q, j);
    }
    TotalMono(moved, Scale(1.0 - alpha, w));
    TotalScale(1.0 - alpha, w);
  }

  /** One iteration brings any two vectors closer by at least the factor 1 - alpha, for the restart vector of
      any seeds. */
  lemma StepContracts(g: Net, t: Vec, alpha: real, p: Vec, q: Vec)
    requires ValidNet(g) && |t| == |p| == |q| == |g| && SubDistribution(t) && 0.0 <= alpha <= 1.0
    ensures Distance(Step(g, t, alpha, p), Step(g, t, alpha, q)) <= (1.0 - alpha) * Distance(p, q)
  {
    var a := Magnitude(Minus(p, q));
    StepDistance(g, t, alpha, p, q);
    WalkAddsNoMass(g, t, a);
    ProductMono(1.0 - alpha, Total(Walk(g, t, a)), Distance(p, q));
  }

  lemma ProductMono(c: real, a: real, b: real)
    requires c >= 0.0 && a <= b
    ensures c * a <= c * b
  {
    ProductNonNegative(c, b - a);
  }

  function Pow(x: real, k: nat): real {
    if k == 0 then 1.0 else x * Pow(x, k - 1)
  }

  /** The vector after `k` iterations from the restart vector. */
  function Iterate(g: Net, t: Vec, alpha: real, k: nat): (p: Vec)
    requires |t| == |g|
    ensures |p| == |g|
  {
    if k == 0 then t else Step(g, t, alpha, Iterate(g, t, alpha, k - 1))
  }

  /** The `delta` the loop computes in iteration `k`, counted from 0. */
  function Delta(g: Net, t: Vec, alpha: real, k: nat): real
    requires |t| == |g|
  {
    Distance(Iterate(g, t, alpha, k), Iterate(g, t, alpha, k + 1))
  }

  lemma {:induction false} IterateIsDistribution(g: Net, t: Vec, alpha: real, k: nat)
    requires ValidNet(g) && |t| == |g| && Distribution(t) && 0.0 <= alpha <= 1.0
    ensures Distribution(Iterate(g, t, alpha, k))
  {
    if k > 0 {
      IterateIsDistribution(g, t, alpha, k - 1);
      StepKeepsDistribution(g, t, alpha, Iterate(g, t, alpha, k - 1));
    }
  }

  /** The scores never hold more mass than the restart vector. */
  lemma {:induction false} IterateAddsNoMass(g: Net, t: Vec, alpha: real, k: nat)
    requires ValidNet(g) && |t| == |g| && SubDistribution(t) && 0.0 <= alpha <= 1.0
    ensures NonNegative(Iterate(g, t, alpha, k)) && Total(Iterate(g, t, alpha, k)) <= Total(t)
  {
    if k > 0 {
      IterateAddsNoMass(g, t, alpha, k - 1);
      StepAddsNoMass(g, t, alpha, Iterate(g, t, alpha, k - 1));
    }
  }

  /** So every iterate is a distribution exactly when the restart vector is one. */
  lemma IterateIsDistributionExactly(g: Net, t: Vec, alpha: real, k: nat)
    requires ValidNet(g) && |t| == |g| && SubDistribution(t) && 0.0 <= alpha <= 1.0
    ensures Distribution(Iterate(g, t, alpha, k)) <==> Distribution(t)
  {
    IterateAddsNoMass(g, t, alpha, k);
    if Distribution(t) {
      IterateIsDistribution(g, t, alpha, k);
    }
  }

  lemma DistanceAtMostTwo(p: Vec, q: Vec)
    requires |p| == |q| && SubDistribution(p) && SubDistribution(q)
    ensures Distance(p, q) <= 2.0
  {
    TotalMono(Magnitude(Minus(p, q)), Plus(p, q));
    TotalPlus(p, q);
  }

  lemma RestartEntry(x: real, y: real, alpha: real)
    requires alpha <= 1.0
    ensures Abs(x - (alpha * x + (1.0 - alpha) * y)) == (1.0 - alpha) * Abs(x - y)
  {
    AbsScale(1.0 - alpha, x - y);
  }

  function Restarted(t: Vec, w: Vec, alpha: real): Vec
    requires |t| == |w|
  {
    Plus(Scale(alpha, t), Scale(1.0 - alpha, w))
  }

  lemma RestartAt(t: Vec, w: Vec, alpha: real, i: nat)
    requires |t| == |w| && alpha <= 1.0 && i < |t|
    ensures Magnitude(Minus(t, Restarted(t, w, alpha)))[i] == (1.0 - alpha) * Magnitude(Minus(t, w))[i]
  {
    RestartEntry(t[i], w[i], alpha);
  }

  lemma ScaledTotal(p: Vec, q: Vec, c: real)
    requires |p| == |q| && forall i :: 0 <= i < |p| ==> q[i] == c * p[i]
    ensures Total(q) == c * Total(p)
  {
    SumScale(|p|, c, Entry(p), Entry(q));
  }

  lemma RestartDifference(t: Vec, w: Vec, alpha: real)
    requires |t| == |w| && alpha <= 1.0
    ensures Distance(t, Restarted(t, w, alpha)) == (1.0 - alpha) * Distance(t, w)
  {
    var moved, whole, c := Magnitude(Minus(t, Restarted(t, w, alpha))), Magnitude(Minus(t, w)), 1.0 - alpha;
    forall i | 0 <= i < |whole| ensures moved[i] == c * whole[i] {
      RestartAt(t, w, alpha, i);
    }
    ScaledTotal(whole, moved, c);
  }

  lemma FirstDeltaIs(g: Net, t: Vec, alpha: real)
    requires |t| == |g| && alpha <= 1.0
    ensures Delta(g, t, alpha, 0) == (1.0 - alpha) * Distance(t, Walk(g, t, t))
  {
    RestartDifference(t, Walk(g, t, t), alpha);
    assert Iterate(g, t, alpha, 0) == t && Iterate(g, t, alpha, 1) == Step(g, t, alpha, t);
  }

  /** The first iteration replaces only a 1 - alpha part of the restart vector. */
  lemma FirstDelta(g: Net, t: Vec, alpha: real)
    requires ValidNet(g) && |t| == |g| && SubDistribution(t) && 0.0 <= alpha <= 1.0
    ensures Delta(g, t, alpha, 0) <= 2.0 * (1.0 - alpha)
  {
    var w := Walk(g, t, t);
    WalkNonNegative(g, t, t);
    WalkAddsNoMass(g, t, t);
    DistanceAtMostTwo(t, w);
    FirstDeltaIs(g, t, alpha);
    ProductMono(1.0 - alpha, Distance(t, w), 2.0);
  }

  lemma IterateNext(g: Net, t: Vec, alpha: real, k: nat)
    requires |t| == |g|
    ensures Iterate(g, t, alpha, k + 1) == Step(g, t, alpha, Iterate(g, t, alpha, k))
  {
  }

  /** A bound on how far one step moves bounds the next one, `c` being 1 - alpha. */
  lemma StepWithin(g: Net, t: Vec, alpha: real, c: real, p: Vec, q: Vec, r: Vec, bound: real)
    requires ValidNet(g) && |t| == |p| == |g| && SubDistribution(t) && 0.0 <= alpha <= 1.0 && c == 1.0 - alpha
    requires q == Step(g, t, alpha, p) && r == Step(g, t, alpha, q) && Distance(p, q) <= bound
    ensures Distance(q, r) <= c * bound
  {
    StepContracts(g, t, alpha, p, q);
    ProductMono(c, Distance(p, q), bound);
  }

  lemma DeltaWithin(g: Net, t: Vec, alpha: real, c: real, k: nat, bound: real, next: real)
    requires ValidNet(g) && |t| == |g| && SubDistribution(t) && 0.0 <= alpha <= 1.0 && c == 1.0 - alpha && k > 0
    requires Delta(g, t, alpha, k - 1) <= bound && next == c * bound
    ensures Delta(g, t, alpha, k) <= next
  {
    var p, q, r := Iterate(g, t, alpha, k - 1), Iterate(g, t, alpha, k), Iterate(g, t, alpha, k + 1);
    IterateNext(g, t, alpha, k - 1);
    IterateNext(g, t, alpha, k);
    StepWithin(g, t, alpha, c, p, q, r, bound);
  }

  lemma PowNext(c: real, k: nat)
    ensures Pow(c, k + 1) == c * Pow(c, k)
  {
  }

  /** 2c^(k+1), by the recursion of the iteration. */
  function Bound(c: real, k: nat): real {
    if k == 0 then 2.0 * c else c * Bound(c, k - 1)
  }

  lemma TwiceNext(c: real, p: real, q: real)
    requires q == c * p
    ensures c * (2.0 * p) == 2.0 * q
  {
  }

  lemma {:induction false} BoundIsPower(c: real, k: nat)
    ensures Bound(c, k) == 2.0 * Pow(c, k + 1)
  {
    PowNext(c, k);
    if k > 0 {
      BoundIsPower(c, k - 1);
      TwiceNext(c, Pow(c, k), Pow(c, k + 1));
    }
  }

  lemma DecayStarts(g: Net, t: Vec, alpha: real, c: real)
    requires ValidNet(g) && |t| == |g| && SubDistribution(t) && 0.0 <= alpha <= 1.0 && c == 1.0 - alpha
    ensures Delta(g, t, alpha, 0) <= Bound(c, 0)
  {
    FirstDelta(g, t, alpha);
  }

  lemma BoundNext(c: real, k: nat)
    ensures Bound(c, k + 1) == c * Bound(c, k)
  {
  }

  lemma DecayNext(g: Net, t: Vec, alpha: real, c: real, k: nat)
    requires ValidNet(g) && |t| == |g| && SubDistribution(t) && 0.0 <= alpha <= 1.0 && c == 1.0 - alpha
    requires Delta(g, t, alpha, k) <= Bound(c, k)
    ensures Delta(g, t, alpha, k + 1) <= Bound(c, k + 1)
  {
    BoundNext(c, k);
    DeltaWithin(g, t, alpha, c, k + 1, Bound(c, k), Bound(c, k + 1));
  }

  lemma {:induction false} Decay(g: Net, t: Vec, alpha: real, c: real, k: nat)
    requires ValidNet(g) && |t| == |g| && SubDistribution(t) && 0.0 <= alpha <= 1.0 && c == 1.0 - alpha
    ensures Delta(g, t, alpha, k) <= Bound(c, k)
  {
    if k == 0 {
      DecayStarts(g, t, alpha, c);
    } else {
      Decay(g, t, alpha, c, k - 1);
      DecayNext(g, t, alpha, c, k - 1);
    }
  }

  /** The loop's convergence measure decays geometrically, whatever the seeds. */
  lemma DeltaBound(g: Net, t: Vec, alpha: real, k: nat)
    requires ValidNet(g) && |t| == |g| && SubDistribution(t) && 0.0 <= alpha <= 1.0
    ensures Delta(g, t, alpha, k) <= 2.0 * Pow(1.0 - alpha, k + 1)
  {
    Decay(g, t, alpha, 1.0 - alpha, k);
    BoundIsPower(1.0 - alpha, k);
  }
}
