/** What the scores of the power iteration of crates/sap-automate-graph/src/ppr.rs say about the graph: they spread one
    hop in each iteration, and they follow the weights of the links. */
module ScoreSpread {
  import opened Sums
  import opened Rows
  import opened StoredRows
  import GraphStore
  import opened PageRank
  import opened PageRankLoops
  import opened Hops
  import opened MultiHop

  // ----- sums and rows -------------------------------------------------------------------

  lemma {:induction false} SumPositive(n: nat, f: int -> real)
    requires forall i :: 0 <= i < n ==> f(i) >= 0.0
    ensures Sum(n, f) >= 0.0
    ensures Sum(n, f) > 0.0 <==> exists i :: 0 <= i < n && f(i) > 0.0
  {
    if n > 0 {
      SumPositive(n - 1, f);
      if f(n - 1) > 0.0 {
        assert 0 <= n - 1 < n;
      }
    }
  }

  lemma {:induction false} RowBounds(n: nat, row: Row, j: nat)
    requires ValidRow(n, row)
    ensures 0.0 <= WeightTo(row, j) <= OutWeight(row)
    ensures !Leads(row, j) ==> WeightTo(row, j) == 0.0
  {
    if row != [] {
      var front, last := row[..|row| - 1], row[|row| - 1];
      RowBounds(n, front, j);
      assert row == front + [last] && last in row;
      LeadsSnoc(front, last, j);
    }
  }

  /** Wherever a link leads, it has some weight. */
  ghost predicate Weighty(g: Net) {
    forall i, j: nat :: 0 <= i < |g| && Leads(g[i], j) ==> WeightTo(g[i], j) > 0.0
  }

  // ----- one step ------------------------------------------------------------------------

  lemma QuotientPositive(x: real, y: real)
    requires y > 0.0
    ensures x / y > 0.0 <==> x > 0.0
  {
  }

  lemma SharePositive(g: Net, t: Vec, i: nat, j: nat)
    requires ValidNet(g) && Weighty(g) && |t| == |g| && i < |g| && j < |g|
    ensures Share(g, t, i, j) > 0.0 <==> Leads(g[i], j) || (OutWeight(g[i]) <= 0.0 && t[j] > 0.0)
  {
    assert g[i] in g;
    RowBounds(|g|, g[i], j);
    if OutWeight(g[i]) > 0.0 {
      QuotientPositive(WeightTo(g[i], j), OutWeight(g[i]));
    }
  }

  lemma ProductPositive(a: real, b: real)
    requires a >= 0.0 && b >= 0.0
    ensures a * b >= 0.0
    ensures a * b > 0.0 <==> a > 0.0 && b > 0.0
  {
  }

  /** Some node with a score hands on a share. */
  ghost predicate Fed(g: Net, t: Vec, p: Vec, j: int)
    requires |t| == |p| == |g|
  {
    exists i :: 0 <= i < |g| && p[i] > 0.0 && Share(g, t, i, j) > 0.0
  }

  lemma MixPositive(g: Net, t: Vec, p: Vec, j: nat)
    requires ValidNet(g) && |t| == |p| == |g| && NonNegative(t) && NonNegative(p) && j < |g|
    ensures Mix(g, t, p, j) >= 0.0
    ensures Mix(g, t, p, j) > 0.0 <==> Fed(g, t, p, j)
  {
    var f := Flow(g, t, p, j);
    forall i | 0 <= i < |g| ensures f(i) >= 0.0 && (f(i) > 0.0 <==> p[i] > 0.0 && Share(g, t, i, j) > 0.0) {
      ShareNonNegative(g, t, i, j);
      ProductPositive(p[i], Share(g, t, i, j));
    }
    SumPositive(|g|, f);
  }

  lemma BlendPositive(alpha: real, x: real, y: real)
    requires 0.0 < alpha < 1.0 && x >= 0.0 && y >= 0.0
    ensures alpha * x + (1.0 - alpha) * y > 0.0 <==> x > 0.0 || y > 0.0
  {
    ProductPositive(alpha, x);
    ProductPositive(1.0 - alpha, y);
  }

  lemma StepEntry(g: Net, t: Vec, alpha: real, p: Vec, j: nat)
    requires |t| == |p| == |g| && j < |g|
    ensures Step(g, t, alpha, p)[j] == alpha * t[j] + (1.0 - alpha) * Mix(g, t, p, j)
  {
  }

  /** A link from a node with a score leads here. */
  ghost predicate FedByLink(g: Net, p: Vec, j: nat)
    requires |p| == |g|
  {
    exists i: nat :: i < |g| && p[i] > 0.0 && Leads(g[i], j)
  }

  lemma StepPositive(g: Net, t: Vec, alpha: real, p: Vec, j: nat)
    requires ValidNet(g) && Weighty(g) && |t| == |p| == |g| && NonNegative(t) && NonNegative(p) && j < |g|
    requires 0.0 < alpha < 1.0
    ensures Step(g, t, alpha, p)[j] > 0.0 <==> t[j] > 0.0 || FedByLink(g, p, j)
  {
    StepEntry(g, t, alpha, p, j);
    MixPositive(g, t, p, j);
    BlendPositive(alpha, t[j], Mix(g, t, p, j));
    if Fed(g, t, p, j) {
      var i :| 0 <= i < |g| && p[i] > 0.0 && Share(g, t, i, j) > 0.0;
      SharePositive(g, t, i, j);
    }
    if FedByLink(g, p, j) {
      var i: nat :| i < |g| && p[i] > 0.0 && Leads(g[i], j);
      SharePositive(g, t, i, j);
    }
  }

  // ----- one hop in each iteration -------------------------------------------------------

  lemma LeadsIsNeighbour(g: Net, i: nat, j: nat)
    requires i < |g|
    ensures Leads(g[i], j) <==> j in Unweighted(g)[i]
  {
    var targets := Targets(g[i]);
    if Leads(g[i], j) {
      var k :| 0 <= k < |g[i]| && g[i][k].to == j;
      assert targets[k] == j;
    }
    if j in targets {
      var k :| 0 <= k < |targets| && targets[k] == j;
      assert g[i][k].to == j;
    }
  }

  /** A neighbour of the ball. */
  ghost predicate NextTo(a: Adjacency, seeds: seq<nat>, k: nat, v: nat) {
    exists u: nat :: u < |a| && u in Ball(a, seeds, k) && v in a[u]
  }

  lemma BallNextAt(a: Adjacency, seeds: seq<nat>, k: nat, v: nat)
    requires v < |a|
    ensures v in Ball(a, seeds, k + 1) <==> v in Ball(a, seeds, k) || NextTo(a, seeds, k, v)
  {
    BallNext(a, seeds, k);
    if NextTo(a, seeds, k, v) {
      assert Touches(a, Ball(a, seeds, k), v);
    }
    if Touches(a, Ball(a, seeds, k), v) {
      var u :| u in Ball(a, seeds, k) && u < |a| && v in a[u];
      assert NextTo(a, seeds, k, v);
    }
  }

  lemma NextToLater(a: Adjacency, seeds: seq<nat>, k: nat, v: nat)
    requires NextTo(a, seeds, k, v)
    ensures NextTo(a, seeds, k + 1, v)
  {
    var u: nat :| u < |a| && u in Ball(a, seeds, k) && v in a[u];
    BallKeeps(a, seeds, u, k, k + 1);
  }

  lemma SeedsAreCentre(a: Adjacency, seeds: seq<nat>, v: nat)
    ensures v in Ball(a, seeds, 0) <==> v in seeds
  {
  }

  /** A seed, or a neighbour of the ball. */
  ghost predicate Sourced(a: Adjacency, seeds: seq<nat>, k: nat, v: nat) {
    v in seeds || NextTo(a, seeds, k, v)
  }

  lemma SourcedLater(a: Adjacency, seeds: seq<nat>, k: nat, v: nat)
    requires Sourced(a, seeds, k, v)
    ensures Sourced(a, seeds, k + 1, v)
  {
    if v !in seeds {
      NextToLater(a, seeds, k, v);
    }
  }

  lemma NewInBall(a: Adjacency, seeds: seq<nat>, k: nat, v: nat)
    requires v < |a| && v in Ball(a, seeds, k + 1) && v !in Ball(a, seeds, k)
    ensures NextTo(a, seeds, k, v)
  {
    BallNextAt(a, seeds, k, v);
  }

  /** A node of a ball is a seed or has a neighbour in that very ball. */
  lemma {:induction false} BallSource(a: Adjacency, seeds: seq<nat>, k: nat, v: nat)
    requires v < |a| && v in Ball(a, seeds, k)
    ensures Sourced(a, seeds, k, v)
  {
    if k == 0 {
      SeedsAreCentre(a, seeds, v);
    } else {
      if v in Ball(a, seeds, k - 1) {
        BallSource(a, seeds, k - 1, v);
      } else {
        NewInBall(a, seeds, k - 1, v);
      }
      SourcedLater(a, seeds, k - 1, v);
    }
  }

  lemma BallSteps(a: Adjacency, seeds: seq<nat>, k: nat, v: nat)
    requires v < |a|
    ensures v in Ball(a, seeds, k + 1) <==> v in seeds || NextTo(a, seeds, k, v)
  {
    BallNextAt(a, seeds, k, v);
    if v in Ball(a, seeds, k) {
      BallSource(a, seeds, k, v);
    }
    if v in seeds {
      SeedsAreCentre(a, seeds, v);
      BallKeeps(a, seeds, v, 0, k);
    }
  }

  /** Exactly the nodes of the ball have a score. */
  ghost predicate ScoredWithin(g: Net, seeds: seq<nat>, p: Vec, k: nat) {
    |p| == |g| && forall v: nat :: v < |g| ==> (p[v] > 0.0 <==> v in Ball(Unweighted(g), seeds, k))
  }

  lemma RestartPositive(g: Net, seeds: seq<nat>)
    requires Seeded(g, seeds)
    ensures ScoredWithin(g, seeds, Restart(|g|, seeds), 0)
  {
    QuotientPositive(1.0, |seeds| as real);
  }

  lemma StepReaches(g: Net, seeds: seq<nat>, alpha: real, p: Vec, k: nat)
    requires ValidNet(g) && Weighty(g) && Seeded(g, seeds) && 0.0 < alpha < 1.0
    requires NonNegative(p) && ScoredWithin(g, seeds, p, k)
    ensures ScoredWithin(g, seeds, Step(g, Restart(|g|, seeds), alpha, p), k + 1)
  {
    var t, a := Restart(|g|, seeds), Unweighted(g);
    RestartMass(|g|, seeds);
    RestartPositive(g, seeds);
    forall v: nat | v < |g|
      ensures Step(g, t, alpha, p)[v] > 0.0 <==> v in Ball(a, seeds, k + 1)
    {
      StepPositive(g, t, alpha, p, v);
      BallSteps(a, seeds, k, v);
      FedIsNextTo(g, seeds, p, k, v);
    }
  }

  lemma FedIsNextTo(g: Net, seeds: seq<nat>, p: Vec, k: nat, v: nat)
    requires ScoredWithin(g, seeds, p, k)
    ensures FedByLink(g, p, v) <==> NextTo(Unweighted(g), seeds, k, v)
  {
    if FedByLink(g, p, v) {
      var i: nat :| i < |g| && p[i] > 0.0 && Leads(g[i], v);
      LeadsIsNeighbour(g, i, v);
    }
    if NextTo(Unweighted(g), seeds, k, v) {
      var u: nat :| u < |g| && u in Ball(Unweighted(g), seeds, k) && v in Unweighted(g)[u];
      LeadsIsNeighbour(g, u, v);
    }
  }

  /** After k iterations exactly the nodes within k hops of a seed have a score above zero. */
  lemma {:induction false} ScoresSpreadByHops(g: Net, seeds: seq<nat>, alpha: real, k: nat)
    requires ValidNet(g) && Weighty(g) && Seeded(g, seeds) && 0.0 < alpha < 1.0
    ensures NonNegative(Iterate(g, Restart(|g|, seeds), alpha, k))
    ensures ScoredWithin(g, seeds, Iterate(g, Restart(|g|, seeds), alpha, k), k)
  {
    RestartMass(|g|, seeds);
    if k == 0 {
      RestartPositive(g, seeds);
    } else {
      ScoresSpreadByHops(g, seeds, alpha, k - 1);
      StepNonNegative(g, Restart(|g|, seeds), alpha, Iterate(g, Restart(|g|, seeds), alpha, k - 1));
      StepReaches(g, seeds, alpha, Iterate(g, Restart(|g|, seeds), alpha, k - 1), k - 1);
    }
  }

  lemma DistanceInBall(g: Net, seeds: seq<nat>, v: nat, d: nat, k: nat)
    requires (forall s :: s in seeds ==> s < |g|) && AtDistance(g, seeds, v, d)
    ensures v in Ball(Unweighted(g), seeds, k) <==> d <= k
  {
    var w :| WalkTo(Unweighted(g), seeds, w, v) && |w| - 1 == d;
    WalkEndsInBall(Unweighted(g), seeds, w, v);
    if d <= k {
      BallKeeps(Unweighted(g), seeds, v, d, k);
    }
    if v in Ball(Unweighted(g), seeds, k) {
      var x := BallHasWalk(Unweighted(g), seeds, v, k);
    }
  }

  /** So a surfaced hit scores above zero exactly if its hop count is at most the number of iterations run. */
  lemma ScoreTellsHops(g: Net, seeds: seq<nat>, cfg: Config, maxHops: nat, topK: nat, hits: seq<Hit>, iterations: nat,
                       i: nat)
    requires ValidNet(g) && Weighty(g) && Seeded(g, seeds) && 0.0 < cfg.alpha < 1.0 && maxHops < FAR
    requires Answered(g, seeds, cfg, maxHops, topK, hits, iterations) && i < |hits|
    ensures hits[i].score > 0.0 <==> hits[i].hops <= iterations
  {
    var p := Iterate(g, Restart(|g|, seeds), cfg.alpha, iterations);
    assert Sound(g, seeds, maxHops, p, hits[i]);
    ScoresSpreadByHops(g, seeds, cfg.alpha, iterations);
    DistanceInBall(g, seeds, hits[i].node, hits[i].hops, iterations);
  }

  // ----- by the weights ------------------------------------------------------------------

  /** The same weight either way. */
  predicate Symmetric(g: Net) {
    forall i, j :: 0 <= i < |g| && 0 <= j < |g| ==> WeightTo(g[i], j) == WeightTo(g[j], i)
  }

  function OutWeightsOf(g: Net): (p: Vec)
    ensures |p| == |g| && forall i :: 0 <= i < |g| ==> p[i] == OutWeight(g[i])
  {
    seq(|g|, i requires 0 <= i < |g| => OutWeight(g[i]))
  }

  lemma Regain(x: real, out: real)
    requires out > 0.0
    ensures out * (x / out) == x
  {
  }

  lemma HandsOnWeight(g: Net, t: Vec, i: nat, j: nat)
    requires ValidNet(g) && |t| == |g| && i < |g| && j < |g|
    ensures OutWeight(g[i]) * Share(g, t, i, j) == WeightTo(g[i], j)
  {
    assert g[i] in g;
    RowBounds(|g|, g[i], j);
    if OutWeight(g[i]) > 0.0 {
      Regain(WeightTo(g[i], j), OutWeight(g[i]));
    }
  }

  lemma GetsBack(g: Net, t: Vec, j: nat)
    requires ValidNet(g) && Symmetric(g) && |t| == |g| && j < |g|
    ensures Mix(g, t, OutWeightsOf(g), j) == OutWeight(g[j])
  {
    var f := Flow(g, t, OutWeightsOf(g), j);
    forall i: nat | i < |g| ensures f(i) == Weights(g[j])(i) {
      HandsOnWeight(g, t, i, j);
    }
    SumSame(|g|, f, Weights(g[j]));
    assert g[j] in g;
    RowWeights(|g|, g[j]);
  }

  /** Between symmetric links the out-weights themselves are in balance: whatever a node hands on by its links it
      gets back from its neighbours. */
  lemma OutWeightsAreStationary(g: Net, t: Vec)
    requires ValidNet(g) && Symmetric(g) && |t| == |g|
    ensures Walk(g, t, OutWeightsOf(g)) == OutWeightsOf(g)
  {
    forall j: nat | j < |g| ensures Mix(g, t, OutWeightsOf(g), j) == OutWeight(g[j]) {
      GetsBack(g, t, j);
    }
  }

  /** The rows of a stored graph are so, whatever its edges. */
  lemma StoredIsSymmetric(edges: seq<GraphStore.Edge>, ids: seq<GraphStore.NodeId>, net: Net)
    requires Stored(edges, ids, net)
    ensures Symmetric(net)
  {
    forall i, j | 0 <= i < |net| && 0 <= j < |net| ensures WeightTo(net[i], j) == WeightTo(net[j], i) {
      GraphStore.AdjacencySymmetric(edges, ids[i], ids[j]);
      assert StoredRow(edges, ids, i, net[i]) && StoredRow(edges, ids, j, net[j]);
    }
  }

  lemma {:induction false} JoinedHasWeight(edges: seq<GraphStore.Edge>, u: GraphStore.NodeId, v: GraphStore.NodeId)
    requires forall k :: 0 <= k < |edges| ==> edges[k].weight > 0.0
    ensures GraphStore.Adjacency(edges, u, v) >= 0.0
    ensures GraphStore.Joined(edges, u, v) ==> GraphStore.Adjacency(edges, u, v) > 0.0
  {
    if edges != [] {
      var n := |edges| - 1;
      JoinedHasWeight(edges[..n], u, v);
      if GraphStore.Joined(edges, u, v) && !GraphStore.Joins(edges[n], u, v) {
        var k :| 0 <= k < |edges| && GraphStore.Joins(edges[k], u, v);
        assert GraphStore.Joins(edges[..n][k], u, v);
      }
    }
  }

  /** With positive edge weights its links have weight wherever they lead. */
  lemma StoredIsWeighty(edges: seq<GraphStore.Edge>, ids: seq<GraphStore.NodeId>, net: Net)
    requires Stored(edges, ids, net) && forall k :: 0 <= k < |edges| ==> edges[k].weight > 0.0
    ensures Weighty(net)
  {
    forall i, j: nat | 0 <= i < |net| && Leads(net[i], j) ensures WeightTo(net[i], j) > 0.0 {
      assert StoredRow(edges, ids, i, net[i]);
      var k :| 0 <= k < |net[i]| && net[i][k].to == j;
      JoinedHasWeight(edges, ids[i], ids[j]);
    }
  }
}
