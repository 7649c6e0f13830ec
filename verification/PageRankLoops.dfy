/** The loops of crates/sap-automate-graph/src/ppr.rs:67-122 compute the linear map of `PageRank`, when they
    stop, and a graph on which they are as slow as the bound allows. */
module PageRankLoops {
  import opened Sums
  import opened Rows
  import opened PageRank

  // ----- the loops compute the linear map -------------------------------------------------

  function LinkFlow(g: Net, p: Vec, j: int): int -> real {
    i => LinkPart(g, p, i, j)
  }

  function LinkPart(g: Net, p: Vec, i: int, j: int): real {
    if 0 <= i < |g| && OutWeight(g[i]) > 0.0 then Get(p, i) * (WeightTo(g[i], j) / OutWeight(g[i])) else 0.0
  }

  function DanglingFlow(g: Net, p: Vec): int -> real {
    i => DanglingPart(g, p, i)
  }

  function DanglingPart(g: Net, p: Vec, i: int): real {
    if 0 <= i < |g| && OutWeight(g[i]) <= 0.0 then Get(p, i) else 0.0
  }

  function Returned(g: Net, p: Vec, share: real): int -> real {
    i => share * DanglingPart(g, p, i)
  }

  lemma FlowPoint(g: Net, t: Vec, p: Vec, i: nat, j: nat)
    requires |t| == |p| == |g| && i < |g| && j < |g|
    ensures Flow(g, t, p, j)(i) == LinkPart(g, p, i, j) + t[j] * DanglingPart(g, p, i)
  {
    assert Flow(g, t, p, j)(i) == p[i] * Share(g, t, i, j);
  }

  lemma FlowSplits(g: Net, t: Vec, p: Vec, j: nat)
    requires |t| == |p| == |g| && j < |g|
    ensures Mix(g, t, p, j) == Sum(|g|, LinkFlow(g, p, j)) + t[j] * Sum(|g|, DanglingFlow(g, p))
  {
    var back := Returned(g, p, t[j]);
    SumScale(|g|, t[j], DanglingFlow(g, p), back);
    forall i | 0 <= i < |g| ensures Flow(g, t, p, j)(i) == LinkFlow(g, p, j)(i) + back(i) {
      FlowPoint(g, t, p, i, j);
    }
    SumAdd(|g|, LinkFlow(g, p, j), back, Flow(g, t, p, j));
  }

  lemma AddShares(w: real, x: real, z: real, out: real)
    requires out > 0.0 && z == w + x
    ensures w / out + x / out == z / out
  {}

  lemma AddProducts(c: real, x: real, y: real, z: real)
    requires z == x + y
    ensures c * x + c * y == c * z
  {}

  lemma AddRow(c: real, s: real, p: real, q: real)
    ensures c * s + (c * p) * q == c * (s + p * q)
  {}

  /** What the links of a row bring to node `j`. */
  function Brought(row: Row, out: real, outgoing: real, j: int): real
    requires out != 0.0
  {
    outgoing * (WeightTo(row, j) / out)
  }

  predicate Spread(row: Row, out: real, outgoing: real, acc: Vec, next: Vec)
    requires out != 0.0
  {
    |next| == |acc| && forall j :: 0 <= j < |acc| ==> next[j] == acc[j] + Brought(row, out, outgoing, j)
  }

  lemma SharesJoin(w: real, x: real, z: real, out: real, outgoing: real)
    requires out > 0.0 && z == w + x
    ensures outgoing * (z / out) == outgoing * (w / out) + outgoing * (x / out)
  {
    AddShares(w, x, z, out);
    AddProducts(outgoing, w / out, x / out, z / out);
  }

  lemma ZeroShare(out: real, outgoing: real)
    requires out > 0.0
    ensures outgoing * (0.0 / out) == 0.0
  {
    assert 0.0 / out == 0.0;
  }

  lemma BroughtNext(front: Row, l: Link, out: real, outgoing: real, j: int)
    requires out > 0.0
    ensures Brought(front + [l], out, outgoing, j)
            == Brought(front, out, outgoing, j) + if l.to == j then outgoing * (l.weight / out) else 0.0
  {
    var w, z := WeightTo(front, j), WeightTo(front + [l], j);
    WeightNext(front, l, j);
    if l.to == j {
      SharesJoin(w, l.weight, z, out, outgoing);
    } else {
      ZeroShare(out, outgoing);
      SharesJoin(w, 0.0, z, out, outgoing);
    }
    assert Brought(front, out, outgoing, j) == outgoing * (w / out);
    assert Brought(front + [l], out, outgoing, j) == outgoing * (z / out);
  }

  lemma SpreadNext(front: Row, l: Link, out: real, outgoing: real, acc: Vec, next: Vec)
    requires out > 0.0 && l.to < |acc| && Spread(front, out, outgoing, acc, next)
    ensures Spread(front + [l], out, outgoing, acc, next[l.to := next[l.to] + outgoing * (l.weight / out)])
  {
    forall j | 0 <= j < |acc|
      ensures next[l.to := next[l.to] + outgoing * (l.weight / out)][j]
              == acc[j] + Brought(front + [l], out, outgoing, j)
    {
      BroughtNext(front, l, out, outgoing, j);
    }
  }

  /** Pushes node `i`'s mass along its links. */
  method SpreadLinks(row: Row, out: real, outgoing: real, acc: Vec) returns (next: Vec)
    requires ValidRow(|acc|, row) && out > 0.0
    ensures Spread(row, out, outgoing, acc, next)
  {
    next := acc;
    ghost var done: Row := [];
    for k := 0 to |row|
      invariant done == row[..k] && Spread(done, out, outgoing, acc, next)
    {
      var l := row[k];
      assert l in row;
      SpreadNext(done, l, out, outgoing, acc, next);
      next := next[l.to := next[l.to] + outgoing * (l.weight / out)];
      done := done + [l];
    }
    assert row[..|row|] == row;
  }

  method OutWeights(g: Net) returns (out: Vec)
    ensures |out| == |g| && forall i :: 0 <= i < |g| ==> out[i] == OutWeight(g[i])
  {
    out := [];
    for i := 0 to |g|
      invariant |out| == i && forall k :: 0 <= k < i ==> out[k] == OutWeight(g[k])
    {
      var w := 0.0;
      for k := 0 to |g[i]|
        invariant w == OutWeight(g[i][..k])
      {
        assert g[i][..k + 1][..k] == g[i][..k];
        w := w + g[i][k].weight;
      }
      assert g[i][..|g[i]|] == g[i];
      out := out + [w];
    }
  }

  /** What the first `i` nodes have sent to `j` along their links. */
  function Linked(g: Net, alpha: real, p: Vec, i: nat, j: int): real {
    (1.0 - alpha) * Sum(i, LinkFlow(g, p, j))
  }

  lemma LinkedNext(g: Net, alpha: real, p: Vec, i: nat, j: int)
    requires i < |g| && |p| == |g|
    ensures OutWeight(g[i]) > 0.0 ==>
              Linked(g, alpha, p, i + 1, j)
              == Linked(g, alpha, p, i, j) + ((1.0 - alpha) * p[i]) * (WeightTo(g[i], j) / OutWeight(g[i]))
    ensures OutWeight(g[i]) <= 0.0 || p[i] == 0.0 ==> Linked(g, alpha, p, i + 1, j) == Linked(g, alpha, p, i, j)
  {
    assert LinkFlow(g, p, j)(i) == LinkPart(g, p, i, j);
    if OutWeight(g[i]) > 0.0 {
      AddRow(1.0 - alpha, Sum(i, LinkFlow(g, p, j)), p[i], WeightTo(g[i], j) / OutWeight(g[i]));
    }
  }

  method FollowLinks(g: Net, out: Vec, alpha: real, p: Vec) returns (next: Vec)
    requires ValidNet(g) && |out| == |p| == |g| && forall i :: 0 <= i < |g| ==> out[i] == OutWeight(g[i])
    ensures |next| == |g| && forall j :: 0 <= j < |g| ==> next[j] == Linked(g, alpha, p, |g|, j)
  {
    next := seq(|g|, j => 0.0);
    for i := 0 to |g|
      invariant |next| == |g| && forall j :: 0 <= j < |g| ==> next[j] == Linked(g, alpha, p, i, j)
    {
      forall j | 0 <= j < |g| {
        LinkedNext(g, alpha, p, i, j);
      }
      if out[i] > 0.0 && p[i] != 0.0 {
        assert g[i] in g;
        next := SpreadLinks(g[i], out[i], (1.0 - alpha) * p[i], next);
      }
    }
  }

  /** What the first `i` nodes have handed back to the restart vector, as seen by `j`. */
  function HandedBack(g: Net, t: Vec, alpha: real, p: Vec, i: nat, j: int): real {
    (1.0 - alpha) * Get(t, j) * Sum(i, DanglingFlow(g, p))
  }

  lemma HandedBackNext(g: Net, t: Vec, alpha: real, p: Vec, i: nat, j: nat)
    requires i < |g| && |p| == |t| == |g| && j < |g|
    ensures HandedBack(g, t, alpha, p, i + 1, j)
            == HandedBack(g, t, alpha, p, i, j)
               + if OutWeight(g[i]) <= 0.0 then ((1.0 - alpha) * p[i]) * t[j] else 0.0
  {
    assert DanglingFlow(g, p)(i) == DanglingPart(g, p, i);
    AddDangling(0.0, 1.0 - alpha, p[i], t[j], Sum(i, DanglingFlow(g, p)));
  }

  lemma AddDangling(x: real, c: real, p: real, t: real, d: real)
    ensures x + c * t * d + (c * p) * t == x + c * t * (d + p)
  {}

  method AddMultiple(acc: Vec, c: real, t: Vec) returns (next: Vec)
    requires |acc| == |t|
    ensures |next| == |acc| && forall j :: 0 <= j < |acc| ==> next[j] == acc[j] + c * t[j]
  {
    next := acc;
    for j := 0 to |acc|
      invariant |next| == |acc|
      invariant forall k :: 0 <= k < |acc| ==> next[k] == if k < j then acc[k] + c * t[k] else acc[k]
    {
      next := next[j := next[j] + c * t[j]];
    }
  }

  /** What the second loop has made of the vector before its `i`-th turn. */
  predicate Restored(g: Net, t: Vec, alpha: real, p: Vec, links: Vec, next: Vec, i: nat)
    requires |t| == |p| == |links| == |g| && i <= |g|
  {
    && |next| == |g|
    && forall j :: 0 <= j < |g| ==>
         next[j] == links[j] + (if j < i then Scale(alpha, t)[j] else 0.0) + HandedBack(g, t, alpha, p, i, j)
  }

  /** One turn of the second loop. */
  method RestoreNode(g: Net, out: Vec, t: Vec, alpha: real, p: Vec, ghost links: Vec, acc: Vec, i: nat)
      returns (next: Vec)
    requires |out| == |t| == |p| == |links| == |g| && NonNegative(p) && i < |g| && out[i] == OutWeight(g[i])
    requires Restored(g, t, alpha, p, links, acc, i)
    ensures Restored(g, t, alpha, p, links, next, i + 1)
  {
    forall j | 0 <= j < |g| {
      HandedBackNext(g, t, alpha, p, i, j);
    }
    next := acc[i := acc[i] + Scale(alpha, t)[i]];
    if out[i] <= 0.0 && p[i] > 0.0 {
      next := AddMultiple(next, (1.0 - alpha) * p[i], t);
    }
  }

  /** Adds the restart component, and hands the mass of dangling nodes back to the restart vector. */
  method AddRestart(g: Net, out: Vec, t: Vec, alpha: real, p: Vec, links: Vec) returns (next: Vec)
    requires |out| == |t| == |p| == |links| == |g| && NonNegative(p)
    requires forall i :: 0 <= i < |g| ==> out[i] == OutWeight(g[i])
    ensures |next| == |g|
    ensures forall j :: 0 <= j < |g| ==>
              next[j] == links[j] + alpha * t[j] + HandedBack(g, t, alpha, p, |g|, j)
  {
    next := links;
    for i := 0 to |g|
      invariant Restored(g, t, alpha, p, links, next, i)
    {
      next := RestoreNode(g, out, t, alpha, p, links, next, i);
    }
  }

  lemma JoinParts(a: real, t: real, l: real, d: real)
    ensures (1.0 - a) * l + a * t + (1.0 - a) * t * d == a * t + (1.0 - a) * (l + t * d)
  {}

  lemma StepAt(g: Net, t: Vec, alpha: real, p: Vec, j: nat)
    requires |t| == |p| == |g| && j < |g|
    ensures Step(g, t, alpha, p)[j] == Linked(g, alpha, p, |g|, j) + alpha * t[j] + HandedBack(g, t, alpha, p, |g|, j)
  {
    FlowSplits(g, t, p, j);
    JoinParts(alpha, t[j], Sum(|g|, LinkFlow(g, p, j)), Sum(|g|, DanglingFlow(g, p)));
  }

  /** One iteration of the loop, on any non-negative vector: exactly the linear map. */
  method PowerStep(g: Net, out: Vec, t: Vec, alpha: real, p: Vec) returns (next: Vec)
    requires ValidNet(g) && |out| == |t| == |p| == |g| && NonNegative(p)
    requires forall i :: 0 <= i < |g| ==> out[i] == OutWeight(g[i])
    ensures next == Step(g, t, alpha, p)
  {
    var links := FollowLinks(g, out, alpha, p);
    next := AddRestart(g, out, t, alpha, p, links);
    forall j | 0 <= j < |g| ensures next[j] == Step(g, t, alpha, p)[j] {
      StepAt(g, t, alpha, p, j);
    }
  }

  // ----- seeds ---------------------------------------------------------------------------

  function Restart(n: nat, seeds: seq<nat>): Vec
    requires seeds != []
  {
    seq(n, i => if i in seeds then 1.0 / |seeds| as real else 0.0)
  }

  method Personalise(n: nat, seeds: seq<nat>) returns (p: Vec)
    requires seeds != [] && forall s :: s in seeds ==> s < n
    ensures p == Restart(n, seeds)
  {
    p := seq(n, i => 0.0);
    var share := 1.0 / |seeds| as real;
    for k := 0 to |seeds|
      invariant |p| == n
      invariant forall i :: 0 <= i < n ==> p[i] == if i in seeds[..k] then share else 0.0
    {
      assert seeds[k] in seeds;
      assert seeds[..k + 1] == seeds[..k] + [seeds[k]];
      p := p[seeds[k] := share];
    }
    assert seeds[..|seeds|] == seeds;
  }

  predicate Distinct(seeds: seq<nat>) {
    forall a, b :: 0 <= a < b < |seeds| ==> seeds[a] != seeds[b]
  }

  function Elements(seeds: seq<nat>): set<nat> {
    set s | s in seeds
  }

  lemma DistinctSnoc(front: seq<nat>, last: nat)
    ensures Distinct(front + [last]) <==> Distinct(front) && last !in front
  {
    var seeds := front + [last];
    assert seeds[|front|] == last && forall a :: 0 <= a < |front| ==> seeds[a] == front[a];
    if last in front {
      var a :| 0 <= a < |front| && front[a] == last;
      assert seeds[a] == seeds[|front|];
    }
    if Distinct(seeds) {
      forall a, b | 0 <= a < b < |front| ensures front[a] != front[b] {
        assert seeds[a] != seeds[b];
      }
    }
  }

  lemma ElementsSnoc(front: seq<nat>, last: nat)
    ensures Elements(front + [last]) == Elements(front) + {last}
    ensures |Elements(front + [last])| == |Elements(front)| + if last in front then 0 else 1
  {
    assert Elements(front + [last]) == Elements(front) + {last};
    if last in front {
      assert Elements(front) + {last} == Elements(front);
    }
  }

  lemma {:induction false} DistinctBySize(seeds: seq<nat>)
    ensures |Elements(seeds)| <= |seeds|
    ensures |Elements(seeds)| == |seeds| <==> Distinct(seeds)
  {
    if seeds != [] {
      var front, last := seeds[..|seeds| - 1], seeds[|seeds| - 1];
      DistinctBySize(front);
      assert seeds == front + [last];
      DistinctSnoc(front, last);
      ElementsSnoc(front, last);
    }
  }

  function Indicator(s: set<nat>): int -> real {
    i => if i >= 0 && i in s then 1.0 else 0.0
  }

  lemma {:induction false} SumIndicator(n: nat, s: set<nat>)
    requires forall x :: x in s ==> x < n
    ensures Sum(n, Indicator(s)) == |s| as real
  {
    if n == 0 {
      assert s == {};
    } else {
      var rest := s - {n - 1};
      SumIndicator(n - 1, rest);
      SumSame(n - 1, Indicator(s), Indicator(rest));
      if n - 1 in s {
        assert |s| == |rest| + 1;
      } else {
        assert rest == s;
      }
    }
  }

  lemma RestartTotal(n: nat, seeds: seq<nat>)
    requires seeds != [] && forall s :: s in seeds ==> s < n
    ensures Total(Restart(n, seeds)) == (1.0 / |seeds| as real) * |Elements(seeds)| as real
  {
    SumIndicator(n, Elements(seeds));
    SumScale(n, 1.0 / |seeds| as real, Indicator(Elements(seeds)), Entry(Restart(n, seeds)));
  }

  /** The restart vector holds the whole mass exactly when no seed is named twice. */
  lemma RestartMass(n: nat, seeds: seq<nat>)
    requires seeds != [] && forall s :: s in seeds ==> s < n
    ensures NonNegative(Restart(n, seeds))
    ensures Total(Restart(n, seeds)) == |Elements(seeds)| as real / |seeds| as real <= 1.0
    ensures Distribution(Restart(n, seeds)) <==> Distinct(seeds)
  {
    RestartTotal(n, seeds);
    DistinctBySize(seeds);
    Fraction(|Elements(seeds)|, |seeds|);
  }

  lemma Fraction(a: nat, b: nat)
    requires a <= b && b > 0
    ensures a as real * (1.0 / b as real) == a as real / b as real <= 1.0
    ensures a as real / b as real == 1.0 <==> a == b
  {}

  // ----- the power iteration -------------------------------------------------------------

  datatype Config = Config(alpha: real, maxIterations: nat, tolerance: real)

  method L1(p: Vec, q: Vec) returns (d: real)
    requires |p| == |q|
    ensures d == Distance(p, q)
  {
    d := 0.0;
    var m := Magnitude(Minus(p, q));
    for i := 0 to |p|
      invariant d == Sum(i, Entry(m))
    {
      d := d + Abs(p[i] - q[i]);
    }
  }

  /** No iteration before number `n` brought delta below the tolerance. */
  ghost predicate Unsettled(g: Net, t: Vec, cfg: Config, n: int)
    requires |t| == |g|
    decreases n
  {
    n <= 0 || (Unsettled(g, t, cfg, n - 1) && Delta(g, t, cfg.alpha, n - 1) >= cfg.tolerance)
  }

  lemma {:induction false} UnsettledAt(g: Net, t: Vec, cfg: Config, n: int, k: nat)
    requires |t| == |g| && Unsettled(g, t, cfg, n) && k < n
    ensures Delta(g, t, cfg.alpha, k) >= cfg.tolerance
  {
    if k < n - 1 {
      UnsettledAt(g, t, cfg, n - 1, k);
    }
  }

  /** The loop, from vector `p` after `n` iterations. */
  function Run(g: Net, t: Vec, cfg: Config, p: Vec, n: nat): (Vec, nat)
    requires |t| == |p| == |g|
    decreases cfg.maxIterations - n
  {
    if n >= cfg.maxIterations then (p, n)
    else
      var next := Step(g, t, cfg.alpha, p);
      if Distance(p, next) < cfg.tolerance then (next, n + 1) else Run(g, t, cfg, next, n + 1)
  }

  method Converge(g: Net, t: Vec, cfg: Config) returns (p: Vec, iterations: nat)
    requires ValidNet(g) && |t| == |g| && NonNegative(t) && 0.0 <= cfg.alpha <= 1.0
    ensures (p, iterations) == Run(g, t, cfg, t, 0)
  {
    var out := OutWeights(g);
    p, iterations := t, 0;
    while iterations < cfg.maxIterations
      invariant iterations <= cfg.maxIterations && |p| == |g| && NonNegative(p)
      invariant Run(g, t, cfg, p, iterations) == Run(g, t, cfg, t, 0)
    {
      var next := PowerStep(g, out, t, cfg.alpha, p);
      StepNonNegative(g, t, cfg.alpha, p);
      var delta := L1(p, next);
      p, iterations := next, iterations + 1;
      if delta < cfg.tolerance {
        return;
      }
    }
  }

  /** `p` is the iterate after `n` iterations, none of which settled. */
  ghost predicate Reached(g: Net, t: Vec, cfg: Config, n: nat, p: Vec)
    requires |t| == |g|
  {
    p == Iterate(g, t, cfg.alpha, n) && Unsettled(g, t, cfg, n)
  }

  /** `p` is the iterate after `n` iterations, of which the last one was the first to settle. */
  ghost predicate Ended(g: Net, t: Vec, cfg: Config, n: nat, p: Vec)
    requires |t| == |g|
  {
    && n > 0 && p == Iterate(g, t, cfg.alpha, n) && Unsettled(g, t, cfg, n - 1)
    && Delta(g, t, cfg.alpha, n - 1) < cfg.tolerance
  }

  /** The loop stops at the first iteration that settles, or at the cap. */
  ghost predicate Stopped(g: Net, t: Vec, cfg: Config, n: nat, p: Vec)
    requires |t| == |g|
  {
    n <= cfg.maxIterations && (Ended(g, t, cfg, n, p) || (n == cfg.maxIterations && Reached(g, t, cfg, n, p)))
  }

  lemma {:induction false} RunStops(g: Net, t: Vec, cfg: Config, n: nat)
    requires |t| == |g| && n <= cfg.maxIterations && Unsettled(g, t, cfg, n)
    ensures var r := Run(g, t, cfg, Iterate(g, t, cfg.alpha, n), n); Stopped(g, t, cfg, r.1, r.0)
    decreases cfg.maxIterations - n
  {
    if n < cfg.maxIterations {
      IterateNext(g, t, cfg.alpha, n);
      if Delta(g, t, cfg.alpha, n) >= cfg.tolerance {
        RunStops(g, t, cfg, n + 1);
      }
    }
  }

  /** The loop stops at the first iteration whose `delta` is below the tolerance, or at the cap. */
  method Rank(g: Net, seeds: seq<nat>, cfg: Config) returns (p: Vec, iterations: nat)
    requires ValidNet(g) && (forall s :: s in seeds ==> s < |g|) && 0.0 <= cfg.alpha <= 1.0
    ensures seeds == [] ==> p == [] && iterations == 0
    ensures seeds != [] ==> Stopped(g, Restart(|g|, seeds), cfg, iterations, p)
  {
    if seeds == [] {
      return [], 0;
    }
    var t := Personalise(|g|, seeds);
    RestartMass(|g|, seeds);
    p, iterations := Converge(g, t, cfg);
    RunStops(g, t, cfg, 0);
  }

  /** The seeds found in a graph: at least one, each a node. */
  predicate Seeded(g: Net, seeds: seq<nat>) {
    seeds != [] && forall s :: s in seeds ==> s < |g|
  }

  /** After any number of iterations the scores are a distribution exactly when no seed is named twice. */
  lemma ScoresAreDistributionExactly(g: Net, seeds: seq<nat>, alpha: real, k: nat)
    requires ValidNet(g) && Seeded(g, seeds) && 0.0 <= alpha <= 1.0
    ensures Distribution(Iterate(g, Restart(|g|, seeds), alpha, k)) <==> Distinct(seeds)
  {
    RestartMass(|g|, seeds);
    IterateIsDistributionExactly(g, Restart(|g|, seeds), alpha, k);
  }

  lemma StopsInTime(g: Net, t: Vec, cfg: Config, p: Vec, iterations: nat, k: nat)
    requires |t| == |g| && Stopped(g, t, cfg, iterations, p) && Delta(g, t, cfg.alpha, k) < cfg.tolerance
    ensures iterations <= k + 1
  {
    if iterations > k + 1 {
      UnsettledAt(g, t, cfg, iterations - 1, k);
    }
  }

  /** What a caller gets, for any seeds: the scores form a distribution exactly when no seed is named twice,
      and the loop is done after `k + 1` iterations as soon as 2(1 - alpha)^(k+1) is below the tolerance. */
  lemma RankConverges(g: Net, seeds: seq<nat>, cfg: Config, p: Vec, iterations: nat, k: nat)
    requires ValidNet(g) && Seeded(g, seeds) && 0.0 <= cfg.alpha <= 1.0
    requires Stopped(g, Restart(|g|, seeds), cfg, iterations, p)
    ensures Distribution(p) <==> Distinct(seeds)
    ensures 2.0 * Pow(1.0 - cfg.alpha, k + 1) < cfg.tolerance ==> iterations <= k + 1
  {
    ScoresAreDistributionExactly(g, seeds, cfg.alpha, iterations);
    if 2.0 * Pow(1.0 - cfg.alpha, k + 1) < cfg.tolerance {
      RestartMass(|g|, seeds);
      DeltaBound(g, Restart(|g|, seeds), cfg.alpha, k);
      StopsInTime(g, Restart(|g|, seeds), cfg, p, iterations, k);
    }
  }

  // ----- the bound is tight --------------------------------------------------------------

  /** Two nodes joined by one edge, seeded at the first. */
  const PAIR: Net := [[Link(1, 1.0)], [Link(0, 1.0)]]
  const FIRST: Vec := [1.0, 0.0]

  lemma PairShares(t: Vec)
    requires |t| == 2
    ensures Share(PAIR, t, 0, 0) == 0.0 && Share(PAIR, t, 1, 0) == 1.0
    ensures Share(PAIR, t, 0, 1) == 1.0 && Share(PAIR, t, 1, 1) == 0.0
  {
    assert [Link(1, 1.0)][..0] == [] && [Link(0, 1.0)][..0] == [];
  }

  lemma PairMix(p: Vec, j: nat)
    requires |p| == 2 && j < 2
    ensures Mix(PAIR, FIRST, p, j) == p[1 - j]
  {
    PairShares(FIRST);
    var f := Flow(PAIR, FIRST, p, j);
    assert Sum(2, f) == Sum(1, f) + f(1) && Sum(1, f) == f(0);
    assert f(0) == p[0] * Share(PAIR, FIRST, 0, j) && f(1) == p[1] * Share(PAIR, FIRST, 1, j);
  }

  /** The mass split between the two nodes. */
  function Both(x: real): Vec {
    [x, 1.0 - x]
  }

  lemma IsBoth(q: Vec, x: real)
    requires |q| == 2 && q[0] == x && q[1] == 1.0 - x
    ensures q == Both(x)
  {
  }

  lemma PairStep(alpha: real, c: real, x: real, y: real)
    requires c == 1.0 - alpha && y == 1.0 - c * x
    ensures Step(PAIR, FIRST, alpha, Both(x)) == Both(y)
  {
    var q := Step(PAIR, FIRST, alpha, Both(x));
    PairMix(Both(x), 0);
    PairMix(Both(x), 1);
    assert q[0] == alpha * 1.0 + c * (1.0 - x) && q[1] == alpha * 0.0 + c * x;
    IsBoth(q, y);
  }

  /** The score of the first node after `k` iterations; the second node has the rest. */
  function PairScore(c: real, k: nat): real {
    if k == 0 then 1.0 else 1.0 - c * PairScore(c, k - 1)
  }

  lemma {:induction false} PairIterate(alpha: real, c: real, k: nat)
    requires c == 1.0 - alpha
    ensures Iterate(PAIR, FIRST, alpha, k) == Both(PairScore(c, k))
  {
    if k == 0 {
      IsBoth(FIRST, PairScore(c, 0));
    } else {
      PairIterate(alpha, c, k - 1);
      IterateNext(PAIR, FIRST, alpha, k - 1);
      PairStep(alpha, c, PairScore(c, k - 1), PairScore(c, k));
    }
  }

  lemma PairDistance(x: real, y: real)
    ensures Distance(Both(x), Both(y)) == 2.0 * Abs(x - y)
  {
    var m := Entry(Magnitude(Minus(Both(x), Both(y))));
    assert Sum(2, m) == Sum(1, m) + m(1) && Sum(1, m) == m(0);
  }

  lemma GapScales(c: real, x: real, y: real, z: real)
    requires c >= 0.0 && y == 1.0 - c * x && z == 1.0 - c * y
    ensures Abs(y - z) == c * Abs(x - y)
  {
    AbsScale(c, x - y);
    assert y - z == -(c * (x - y));
  }

  lemma FirstGap(c: real)
    requires c >= 0.0
    ensures Abs(PairScore(c, 0) - PairScore(c, 1)) == c
  {
    assert PairScore(c, 1) == 1.0 - c * PairScore(c, 0);
  }

  lemma NextGap(c: real, k: nat)
    requires c >= 0.0
    ensures Abs(PairScore(c, k + 1) - PairScore(c, k + 2)) == c * Abs(PairScore(c, k) - PairScore(c, k + 1))
  {
    GapScales(c, PairScore(c, k), PairScore(c, k + 1), PairScore(c, k + 2));
  }

  /** The scores move by exactly the factor `c` less each time. */
  lemma {:induction false} PairGap(c: real, k: nat)
    requires c >= 0.0
    ensures Abs(PairScore(c, k) - PairScore(c, k + 1)) == Pow(c, k + 1)
  {
    PowNext(c, k);
    if k == 0 {
      FirstGap(c);
    } else {
      PairGap(c, k - 1);
      NextGap(c, k - 1);
    }
  }

  /** On that graph every iteration attains the bound exactly, for every restart probability. */
  lemma PairDelta(alpha: real, k: nat)
    requires alpha <= 1.0
    ensures Delta(PAIR, FIRST, alpha, k) == 2.0 * Pow(1.0 - alpha, k + 1)
  {
    var c := 1.0 - alpha;
    PairIterate(alpha, c, k);
    PairIterate(alpha, c, k + 1);
    PairGap(c, k);
    PairDistance(PairScore(c, k), PairScore(c, k + 1));
  }

  lemma PairIsSeeded()
    ensures ValidNet(PAIR) && Seeded(PAIR, [0]) && Restart(2, [0]) == FIRST
  {
    assert forall row :: row in PAIR ==> row == PAIR[0] || row == PAIR[1];
  }

  /** Delta at iteration `k` is below `tolerance` for every graph and every seeds exactly when the geometric
      bound is. */
  lemma DeltaBelowExactly(alpha: real, k: nat, tolerance: real)
    requires 0.0 <= alpha <= 1.0
    ensures (forall g: Net, seeds: seq<nat> :: ValidNet(g) && Seeded(g, seeds) ==>
               Delta(g, Restart(|g|, seeds), alpha, k) < tolerance)
            <==> 2.0 * Pow(1.0 - alpha, k + 1) < tolerance
  {
    if 2.0 * Pow(1.0 - alpha, k + 1) < tolerance {
      forall g: Net, seeds: seq<nat> | ValidNet(g) && Seeded(g, seeds)
        ensures Delta(g, Restart(|g|, seeds), alpha, k) < tolerance
      {
        RestartMass(|g|, seeds);
        DeltaBound(g, Restart(|g|, seeds), alpha, k);
      }
    } else {
      PairIsSeeded();
      PairDelta(alpha, k);
      assert Delta(PAIR, Restart(|PAIR|, [0]), alpha, k) >= tolerance;
    }
  }

  /** Within the cap some iteration brings delta below the tolerance. */
  ghost predicate Settles(g: Net, seeds: seq<nat>, cfg: Config)
    requires Seeded(g, seeds)
  {
    !Unsettled(g, Restart(|g|, seeds), cfg, cfg.maxIterations)
  }

  lemma {:induction false} NeverSettles(g: Net, t: Vec, cfg: Config, n: nat)
    requires |t| == |g| && forall k: nat :: k < n ==> Delta(g, t, cfg.alpha, k) >= cfg.tolerance
    ensures Unsettled(g, t, cfg, n)
  {
    if n > 0 {
      NeverSettles(g, t, cfg, n - 1);
    }
  }

  lemma PairStaysAbove(cfg: Config, k: nat)
    requires 0.0 <= cfg.alpha <= 1.0 && k < cfg.maxIterations
    requires 2.0 * Pow(1.0 - cfg.alpha, cfg.maxIterations) >= cfg.tolerance
    ensures Delta(PAIR, FIRST, cfg.alpha, k) >= cfg.tolerance
  {
    PairDelta(cfg.alpha, k);
    PowFalls(1.0 - cfg.alpha, k + 1, cfg.maxIterations);
  }

  lemma PairNeverSettles(cfg: Config)
    requires 0.0 <= cfg.alpha <= 1.0
    requires cfg.maxIterations > 0 ==> 2.0 * Pow(1.0 - cfg.alpha, cfg.maxIterations) >= cfg.tolerance
    ensures Unsettled(PAIR, FIRST, cfg, cfg.maxIterations)
  {
    forall k: nat | k < cfg.maxIterations ensures Delta(PAIR, FIRST, cfg.alpha, k) >= cfg.tolerance {
      PairStaysAbove(cfg, k);
    }
    NeverSettles(PAIR, FIRST, cfg, cfg.maxIterations);
  }

  /** The cap is enough for every graph and every seeds exactly when the geometric bound after that many
      iterations is below the tolerance. */
  lemma CapSufficesExactly(cfg: Config)
    requires 0.0 <= cfg.alpha <= 1.0
    ensures (forall g: Net, seeds: seq<nat> :: ValidNet(g) && Seeded(g, seeds) ==> Settles(g, seeds, cfg))
            <==> cfg.maxIterations > 0 && 2.0 * Pow(1.0 - cfg.alpha, cfg.maxIterations) < cfg.tolerance
  {
    if cfg.maxIterations > 0 && 2.0 * Pow(1.0 - cfg.alpha, cfg.maxIterations) < cfg.tolerance {
      forall g: Net, seeds: seq<nat> | ValidNet(g) && Seeded(g, seeds) ensures Settles(g, seeds, cfg) {
        RestartMass(|g|, seeds);
        DeltaBound(g, Restart(|g|, seeds), cfg.alpha, cfg.maxIterations - 1);
      }
    } else {
      PairIsSeeded();
      PairNeverSettles(cfg);
      assert !Settles(PAIR, [0], cfg);
    }
  }

  lemma FallsOnce(x: real, y: real)
    requires 0.0 <= x <= 1.0 && y >= 0.0
    ensures 0.0 <= x * y <= y
  {
    ProductNonNegative(x, y);
    ProductMono(y, x, 1.0);
    assert y * x == x * y;
  }

  lemma {:induction false} PowFalls(x: real, a: nat, b: nat)
    requires 0.0 <= x <= 1.0 && a <= b
    ensures Pow(x, a) >= Pow(x, b) >= 0.0
    decreases b
  {
    if b > 0 {
      var y := Pow(x, b - 1);
      PowFalls(x, if a < b then a else b - 1, b - 1);
      FallsOnce(x, y);
      assert Pow(x, b) == x * y;
    }
  }

  lemma {:induction false} PowAdd(x: real, a: nat, b: nat)
    ensures Pow(x, a + b) == Pow(x, a) * Pow(x, b)
  {
    if a > 0 {
      var y, z := Pow(x, a - 1), Pow(x, b);
      PowAdd(x, a - 1, b);
      assert x * (y * z) == (x * y) * z;
    }
  }

  lemma PowTimes(x: real, a: nat, b: nat, low: real, high: real)
    requires Pow(x, a) >= low >= 0.0 && Pow(x, b) >= high >= 0.0
    ensures Pow(x, a + b) >= low * high
  {
    var y, z := Pow(x, a), Pow(x, b);
    PowAdd(x, a, b);
    ProductMono(high, low, y);
    ProductMono(y, high, z);
    assert high * low == low * high && high * y == y * high;
  }

  lemma PowOfDefault()
    ensures Pow(0.85, 50) >= 0.0001
  {
    assert Pow(0.85, 1) == 0.85 * Pow(0.85, 0);
    PowTimes(0.85, 1, 1, 0.85, 0.85);
    PowTimes(0.85, 2, 2, 0.72, 0.72);
    PowTimes(0.85, 4, 4, 0.51, 0.51);
    PowTimes(0.85, 8, 8, 0.26, 0.26);
    PowTimes(0.85, 16, 16, 0.06, 0.06);
    PowTimes(0.85, 32, 16, 0.0036, 0.06);
    PowTimes(0.85, 48, 2, 0.0002, 0.72);
  }

  /** So the defaults are not enough for every graph: 50 iterations do not by themselves reach 1e-5. */
  lemma DefaultsNeedNotConverge()
    ensures !forall g: Net, seeds: seq<nat> :: ValidNet(g) && Seeded(g, seeds) ==>
               Settles(g, seeds, Config(0.15, 50, 0.00001))
  {
    PowOfDefault();
    CapSufficesExactly(Config(0.15, 50, 0.00001));
  }
}
