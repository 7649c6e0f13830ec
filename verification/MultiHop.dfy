/** The whole of `multi_hop_search` of crates/sap-automate-graph/src/ppr.rs behind the text lookup of seeds: rows
    from the stored graph, seeds, scores, hop distances, ranking, hop filter and cut. */
module MultiHop {
  import opened Rows
  import opened StoredRows
  import GraphStore
  import opened Ranking
  import opened PageRank
  import opened PageRankLoops
  import opened Hops

  /** Where the links of a row lead. */
  function Targets(row: Row): (r: seq<nat>)
    ensures |r| == |row| && forall k :: 0 <= k < |row| ==> r[k] == row[k].to
  {
    seq(|row|, k requires 0 <= k < |row| => row[k].to)
  }

  function Unweighted(g: Net): (a: Adjacency)
    ensures |a| == |g| && forall i :: 0 <= i < |g| ==> a[i] == Targets(g[i])
  {
    seq(|g|, i requires 0 <= i < |g| => Targets(g[i]))
  }

  lemma UnweightedIsValid(g: Net)
    requires ValidNet(g)
    ensures ValidAdjacency(Unweighted(g))
  {
    var a := Unweighted(g);
    forall i, k | 0 <= i < |a| && 0 <= k < |a[i]| ensures a[i][k] < |a| {
      assert g[i] in g && ValidRow(|g|, g[i]);
      assert g[i][k] in g[i];
    }
  }

  /** Some walk of at most `maxHops` edges leads from a seed to `v`. */
  ghost predicate Reachable(g: Net, seeds: seq<nat>, maxHops: nat, v: nat) {
    exists w :: WalkTo(Unweighted(g), seeds, w, v) && |w| - 1 <= maxHops
  }

  /** The length of a shortest walk from a seed. */
  ghost predicate AtDistance(g: Net, seeds: seq<nat>, v: nat, d: nat) {
    && (exists w :: WalkTo(Unweighted(g), seeds, w, v) && |w| - 1 == d)
    && (forall w :: WalkTo(Unweighted(g), seeds, w, v) ==> d <= |w| - 1)
  }

  /** No walk of fewer than `d` edges leads from a seed to `v`. */
  ghost predicate NotNearer(g: Net, seeds: seq<nat>, v: nat, d: nat) {
    forall w :: WalkTo(Unweighted(g), seeds, w, v) ==> d <= |w| - 1
  }

  /** A hit lies within the budget and reports the score of its node and its distance from the seeds, where the mark
      `u32::MAX` stands for every distance from there on, and for none. */
  ghost predicate Sound(g: Net, seeds: seq<nat>, maxHops: nat, p: Vec, h: Hit) {
    && h.node < |p| && h.score == p[h.node] && h.hops <= maxHops
    && (h.hops < FAR ==> AtDistance(g, seeds, h.node, h.hops))
    && (h.hops == FAR ==> NotNearer(g, seeds, h.node, FAR))
  }

  /** No node twice, each hit sound, in rank order, and a reachable node is missing only behind `topK` hits of
      better rank. */
  ghost predicate Answers(g: Net, seeds: seq<nat>, maxHops: nat, topK: nat, p: Vec, hits: seq<Hit>) {
    && InRank(hits) && |hits| <= topK
    && (forall i :: 0 <= i < |hits| ==> Sound(g, seeds, maxHops, p, hits[i]))
    && (forall i, j :: 0 <= i < j < |hits| ==> hits[i].node != hits[j].node)
    && (forall v: nat :: v < |p| && Reachable(g, seeds, maxHops, v) && !Keeps(hits, v) ==>
          |hits| == topK && AllAhead(hits, p, v))
  }

  /** Every hit scores more than `v`, or as much with a smaller number. */
  predicate AllAhead(hits: seq<Hit>, p: Vec, v: nat)
    requires v < |p|
  {
    forall i :: 0 <= i < |hits| ==> hits[i].score > p[v] || (hits[i].score == p[v] && hits[i].node < v)
  }

  predicate Keeps(hits: seq<Hit>, v: nat) {
    exists i :: 0 <= i < |hits| && hits[i].node == v
  }

  // ----- one hit per node ----------------------------------------------------------------

  lemma {:induction false} HitsOfPrefix(scores: seq<real>, hops: seq<nat>, n: nat, h: Hit)
    requires |scores| == |hops| && n <= |scores|
    ensures multiset(AllHits(scores, hops)[..n])[h]
            == if h.node < n && h == HitAt(scores, hops, h.node) then 1 else 0
  {
    var all := AllHits(scores, hops);
    if n == 0 {
      assert all[..0] == [];
    } else {
      HitsOfPrefix(scores, hops, n - 1, h);
      assert all[..n] == all[..n - 1] + [all[n - 1]];
    }
  }

  lemma OneHitPerNode(scores: seq<real>, hops: seq<nat>, ranked: seq<Hit>, h: Hit)
    requires |scores| == |hops| && Ranked(ranked, scores, hops)
    ensures multiset(ranked)[h] == if h.node < |scores| && h == HitAt(scores, hops, h.node) then 1 else 0
  {
    HitsOfPrefix(scores, hops, |scores|, h);
    assert AllHits(scores, hops)[..|scores|] == AllHits(scores, hops);
  }

  // ----- the answer ----------------------------------------------------------------------

  lemma KeptIsOwn(p: Vec, hops: seq<nat>, ranked: seq<Hit>, maxHops: nat, topK: nat, kept: seq<Hit>, i: nat)
    requires |p| == |hops| && Ranked(ranked, p, hops) && Surfaces(ranked, maxHops, topK, kept) && i < |kept|
    ensures var h := kept[i];
            h.node < |p| && h == HitAt(p, hops, h.node) && h.hops <= maxHops && multiset(kept)[h] == 1
  {
    var h := kept[i];
    assert multiset(kept)[h] > 0;
    assert multiset(kept)[h] <= Within(ranked, maxHops, h);
    OneHitPerNode(p, hops, ranked, h);
  }

  lemma KeptAreDistinct(p: Vec, hops: seq<nat>, ranked: seq<Hit>, maxHops: nat, topK: nat, kept: seq<Hit>, i: nat,
                        j: nat)
    requires |p| == |hops| && Ranked(ranked, p, hops) && Surfaces(ranked, maxHops, topK, kept) && i < j < |kept|
    ensures kept[i].node != kept[j].node
  {
    KeptIsOwn(p, hops, ranked, maxHops, topK, kept, i);
    KeptIsOwn(p, hops, ranked, maxHops, topK, kept, j);
    if kept[i] == kept[j] {
      TwiceCounts(kept, i, j);
    }
  }

  lemma KeptIsSound(g: Net, seeds: seq<nat>, p: Vec, hops: seq<nat>, ranked: seq<Hit>, maxHops: nat, topK: nat,
                    kept: seq<Hit>, i: nat)
    requires ValidSeeds(Unweighted(g), seeds) && Exact(Unweighted(g), seeds, maxHops, hops)
             && |p| == |hops| == |g| && maxHops <= FAR
    requires Ranked(ranked, p, hops) && Surfaces(ranked, maxHops, topK, kept) && i < |kept|
    ensures Sound(g, seeds, maxHops, p, kept[i])
  {
    KeptIsOwn(p, hops, ranked, maxHops, topK, kept, i);
    HitIsAtDistance(g, seeds, hops, maxHops, kept[i]);
  }

  lemma HitIsAtDistance(g: Net, seeds: seq<nat>, hops: seq<nat>, maxHops: nat, h: Hit)
    requires ValidSeeds(Unweighted(g), seeds) && Exact(Unweighted(g), seeds, maxHops, hops) && maxHops <= FAR
    requires |hops| == |g| && h.node < |g| && h.hops == hops[h.node] && h.hops <= maxHops
    ensures h.hops < FAR ==> AtDistance(g, seeds, h.node, h.hops)
    ensures h.hops == FAR ==> NotNearer(g, seeds, h.node, FAR)
  {
    var w := ExactIsShortest(Unweighted(g), seeds, maxHops, hops, h.node);
    forall x | WalkTo(Unweighted(g), seeds, x, h.node) ensures h.hops <= |x| - 1 {
      if |x| - 1 > maxHops {
        assert h.hops <= maxHops;
      }
    }
    if h.hops < FAR {
      assert WalkTo(Unweighted(g), seeds, w, h.node) && |w| - 1 == h.hops;
    }
  }

  lemma ReachableIsNear(g: Net, seeds: seq<nat>, hops: seq<nat>, maxHops: nat, v: nat)
    requires ValidSeeds(Unweighted(g), seeds) && Exact(Unweighted(g), seeds, maxHops, hops) && maxHops <= FAR
    requires |hops| == |g| && v < |g| && Reachable(g, seeds, maxHops, v)
    ensures hops[v] <= maxHops
  {
    var w := ExactIsShortest(Unweighted(g), seeds, maxHops, hops, v);
  }

  lemma MissingIsWorse(g: Net, seeds: seq<nat>, p: Vec, hops: seq<nat>, ranked: seq<Hit>, maxHops: nat, topK: nat,
                       kept: seq<Hit>, v: nat)
    requires ValidSeeds(Unweighted(g), seeds) && Exact(Unweighted(g), seeds, maxHops, hops)
             && |p| == |hops| == |g| && maxHops <= FAR
    requires Ranked(ranked, p, hops) && Surfaces(ranked, maxHops, topK, kept)
    requires v < |p| && Reachable(g, seeds, maxHops, v) && !Keeps(kept, v)
    ensures |kept| == topK && AllAhead(kept, p, v)
  {
    var h := HitAt(p, hops, v);
    ReachableIsNear(g, seeds, hops, maxHops, v);
    OneHitPerNode(p, hops, ranked, h);
    assert h !in kept;
    assert multiset(kept)[h] < Within(ranked, maxHops, h);
    forall i | 0 <= i < |kept|
      ensures kept[i].score > p[v] || (kept[i].score == p[v] && kept[i].node < v)
    {
      assert kept[i] in kept && Ahead(kept[i], h);
    }
  }

  lemma SurfacedAnswers(g: Net, seeds: seq<nat>, p: Vec, hops: seq<nat>, ranked: seq<Hit>, maxHops: nat, topK: nat,
                        kept: seq<Hit>)
    requires ValidSeeds(Unweighted(g), seeds) && Exact(Unweighted(g), seeds, maxHops, hops)
             && |p| == |hops| == |g| && maxHops <= FAR
    requires Ranked(ranked, p, hops) && Surfaces(ranked, maxHops, topK, kept)
    ensures Answers(g, seeds, maxHops, topK, p, kept)
  {
    forall i | 0 <= i < |kept| ensures Sound(g, seeds, maxHops, p, kept[i]) {
      KeptIsSound(g, seeds, p, hops, ranked, maxHops, topK, kept, i);
    }
    forall i, j | 0 <= i < j < |kept| ensures kept[i].node != kept[j].node {
      KeptAreDistinct(p, hops, ranked, maxHops, topK, kept, i, j);
    }
    forall v: nat | v < |p| && Reachable(g, seeds, maxHops, v) && !Keeps(kept, v)
      ensures |kept| == topK && AllAhead(kept, p, v)
    {
      MissingIsWorse(g, seeds, p, hops, ranked, maxHops, topK, kept, v);
    }
  }

  /** Nothing for no seeds, else the answer by the scores of some number of iterations within the cap. */
  ghost predicate Answered(g: Net, seeds: seq<nat>, cfg: Config, maxHops: nat, topK: nat, hits: seq<Hit>,
                           iterations: nat) {
    if seeds == [] then hits == [] && iterations == 0
    else
      && iterations <= cfg.maxIterations
      && Answers(g, seeds, maxHops, topK, Iterate(g, Restart(|g|, seeds), cfg.alpha, iterations), hits)
  }

  /** From the seeds found in the graph to the surfaced hits. */
  method MultiHopSearch(g: Net, seeds: seq<nat>, cfg: Config, maxHops: nat, topK: nat)
      returns (hits: seq<Hit>, iterations: nat)
    requires ValidNet(g) && (forall s :: s in seeds ==> s < |g|) && 0.0 <= cfg.alpha <= 1.0 && maxHops <= FAR
    ensures Answered(g, seeds, cfg, maxHops, topK, hits, iterations)
  {
    if seeds == [] {
      return [], 0;
    }
    var p;
    p, iterations := Rank(g, seeds, cfg);
    UnweightedIsValid(g);
    var hops := BfsHops(Unweighted(g), seeds, maxHops);
    var ranked := RankHits(p, hops);
    hits := Surface(ranked, maxHops, topK);
    SurfacedAnswers(g, seeds, p, hops, ranked, maxHops, topK, hits);
  }

  // ----- from the stored graph -----------------------------------------------------------

  lemma StoredNetIsValid(edges: seq<GraphStore.Edge>, ids: seq<GraphStore.NodeId>, net: Net)
    requires Stored(edges, ids, net) && AllNonNegative(net)
    ensures ValidNet(net)
  {
    forall row | row in net ensures ValidRow(|net|, row) {
      var i :| 0 <= i < |net| && net[i] == row;
      assert StoredRow(edges, ids, i, net[i]);
    }
  }

  /** The seed names that are nodes, in order. */
  function Registered(names: seq<GraphStore.NodeId>, ids: seq<GraphStore.NodeId>): (r: seq<GraphStore.NodeId>)
    ensures forall id :: id in r <==> id in names && id in ids
  {
    if names == [] then []
    else Registered(names[..|names| - 1], ids) + if names[|names| - 1] in ids then [names[|names| - 1]] else []
  }

  /** The positions of these nodes. */
  predicate Named(seeds: seq<nat>, ids: seq<GraphStore.NodeId>, nodes: seq<GraphStore.NodeId>) {
    |seeds| == |nodes| && forall k :: 0 <= k < |seeds| ==> seeds[k] < |ids| && ids[seeds[k]] == nodes[k]
  }

  method FindSeeds(names: seq<GraphStore.NodeId>, ids: seq<GraphStore.NodeId>) returns (seeds: seq<nat>)
    ensures Named(seeds, ids, Registered(names, ids))
  {
    seeds := [];
    for k := 0 to |names|
      invariant Named(seeds, ids, Registered(names[..k], ids))
    {
      assert names[..k + 1][..k] == names[..k];
      var at := Position(ids, names[k]);
      if at.Some? {
        seeds := seeds + [at.value];
      }
    }
    assert names[..|names|] == names;
  }

  /** The answer over rows and seeds of the stored graph. */
  ghost predicate AnsweredIn(edges: seq<GraphStore.Edge>, ids: seq<GraphStore.NodeId>, names: seq<GraphStore.NodeId>,
                             cfg: Config, maxHops: nat, topK: nat, hits: seq<Hit>, iterations: nat) {
    exists net, seeds ::
      && Stored(edges, ids, net) && ValidNet(net) && Named(seeds, ids, Registered(names, ids))
      && Answered(net, seeds, cfg, maxHops, topK, hits, iterations)
  }

  /** From the names of seeds to hits, on any stored graph with nodes `ids` and non-negative weights. */
  method SearchGraph(g: GraphStore.InMemoryGraph, ids: seq<GraphStore.NodeId>, names: seq<GraphStore.NodeId>,
                     cfg: Config, maxHops: nat, topK: nat) returns (hits: seq<Hit>, iterations: nat)
    requires g.Valid() && Lists(ids, g.nodes) && Positive(g.edges) && 0.0 <= cfg.alpha <= 1.0 && maxHops <= FAR
    ensures AnsweredIn(g.edges, ids, names, cfg, maxHops, topK, hits, iterations)
  {
    var net := ReadNet(g, ids);
    StoredNetIsValid(g.edges, ids, net);
    var seeds := FindSeeds(names, ids);
    hits, iterations := MultiHopSearch(net, seeds, cfg, maxHops, topK);
  }
}
