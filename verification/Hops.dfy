/** Breadth-first hop distances and the hop budget of multi-hop search
    (crates/sap-automate-graph/src/ppr.rs). */
module Hops {
  import opened Ranking

  type Adjacency = seq<seq<nat>>

  /** `u32::MAX`, the mark of a node no round has reached. */
  const FAR: nat := 0xFFFF_FFFF

  predicate ValidAdjacency(g: Adjacency) {
    forall i, k :: 0 <= i < |g| && 0 <= k < |g[i]| ==> g[i][k] < |g|
  }

  predicate ValidSeeds(g: Adjacency, seeds: seq<nat>) {
    forall s :: s in seeds ==> s < |g|
  }

  // ----- distance, by walks and by balls -------------------------------------------------

  /** A walk from a seed, with one more node than it has edges. */
  ghost predicate WalkTo(g: Adjacency, seeds: seq<nat>, w: seq<nat>, v: nat) {
    && w != [] && w[0] in seeds && w[|w| - 1] == v
    && (forall i :: 0 <= i < |w| ==> w[i] < |g|)
    && (forall i :: 0 <= i < |w| - 1 ==> w[i + 1] in g[w[i]])
  }

  ghost predicate Touches(g: Adjacency, s: set<nat>, v: nat) {
    exists u :: u in s && u < |g| && v in g[u]
  }

  ghost function Neighbours(g: Adjacency, s: set<nat>): set<nat> {
    set v: nat | v < |g| && Touches(g, s, v)
  }

  ghost function Widened(g: Adjacency, s: set<nat>): set<nat> {
    s + Neighbours(g, s)
  }

  /** The nodes at most `k` hops from a seed. */
  ghost function Ball(g: Adjacency, seeds: seq<nat>, k: nat): set<nat> {
    if k == 0 then set s | s in seeds else Widened(g, Ball(g, seeds, k - 1))
  }

  lemma {:induction false} WalkEndsInBall(g: Adjacency, seeds: seq<nat>, w: seq<nat>, v: nat)
    requires WalkTo(g, seeds, w, v)
    ensures v in Ball(g, seeds, |w| - 1)
    decreases |w|
  {
    if |w| > 1 {
      var u := w[|w| - 2];
      WalkEndsInBall(g, seeds, w[..|w| - 1], u);
      assert w[(|w| - 2) + 1] in g[u];
    }
  }

  lemma {:induction false} BallHasWalk(g: Adjacency, seeds: seq<nat>, v: nat, k: nat) returns (w: seq<nat>)
    requires ValidSeeds(g, seeds) && v in Ball(g, seeds, k)
    ensures WalkTo(g, seeds, w, v) && |w| <= k + 1
    decreases k
  {
    if k == 0 {
      w := [v];
    } else if v in Ball(g, seeds, k - 1) {
      w := BallHasWalk(g, seeds, v, k - 1);
    } else {
      var u :| u in Ball(g, seeds, k - 1) && u < |g| && v in g[u];
      var front := BallHasWalk(g, seeds, u, k - 1);
      w := front + [v];
    }
  }

  lemma {:induction false} BallGrows(g: Adjacency, seeds: seq<nat>, a: nat, b: nat)
    requires a <= b
    ensures Ball(g, seeds, a) <= Ball(g, seeds, b)
    decreases b - a
  {
    if a < b { BallGrows(g, seeds, a, b - 1); }
  }

  lemma BallKeeps(g: Adjacency, seeds: seq<nat>, v: nat, a: nat, b: nat)
    requires a <= b && v in Ball(g, seeds, a)
    ensures v in Ball(g, seeds, b)
  {
    BallGrows(g, seeds, a, b);
  }

  lemma NeighboursGrow(g: Adjacency, s: set<nat>, t: set<nat>)
    requires s <= t
    ensures Neighbours(g, s) <= Neighbours(g, t)
  {
  }

  lemma {:induction false} BallInside(g: Adjacency, seeds: seq<nat>, s: set<nat>, k: nat)
    requires Ball(g, seeds, 0) <= s && Neighbours(g, s) <= s
    ensures Ball(g, seeds, k) <= s
  {
    if k > 0 {
      BallInside(g, seeds, s, k - 1);
      NeighboursGrow(g, Ball(g, seeds, k - 1), s);
      BallNext(g, seeds, k - 1);
    }
  }

  /** A ball that holds its own neighbours is final. */
  lemma BallStable(g: Adjacency, seeds: seq<nat>, a: nat, b: nat)
    requires a <= b && Neighbours(g, Ball(g, seeds, a)) <= Ball(g, seeds, a)
    ensures Ball(g, seeds, b) == Ball(g, seeds, a)
  {
    BallGrows(g, seeds, 0, a);
    BallInside(g, seeds, Ball(g, seeds, a), b);
    BallGrows(g, seeds, a, b);
  }

  lemma BallNext(g: Adjacency, seeds: seq<nat>, k: nat)
    ensures Ball(g, seeds, k + 1) == Widened(g, Ball(g, seeds, k))
  {
  }

  /** `v` is first met at radius `d`. */
  ghost predicate FirstAt(g: Adjacency, seeds: seq<nat>, v: nat, d: nat) {
    v in Ball(g, seeds, d) && (d > 0 ==> v !in Ball(g, seeds, d - 1))
  }

  lemma FirstAtLeast(g: Adjacency, seeds: seq<nat>, v: nat, a: nat, b: nat)
    requires FirstAt(g, seeds, v, a) && v in Ball(g, seeds, b)
    ensures a <= b
  {
    if b < a {
      BallKeeps(g, seeds, v, b, a - 1);
    }
  }

  lemma FirstAtUnique(g: Adjacency, seeds: seq<nat>, v: nat, a: nat, b: nat)
    requires FirstAt(g, seeds, v, a) && FirstAt(g, seeds, v, b)
    ensures a == b
  {
    FirstAtLeast(g, seeds, v, a, b);
    FirstAtLeast(g, seeds, v, b, a);
  }

  /** The smallest radius, up to `k`, whose ball holds `v`. */
  ghost function Least(g: Adjacency, seeds: seq<nat>, v: nat, k: nat): (d: nat)
    requires v in Ball(g, seeds, k)
    ensures d <= k && FirstAt(g, seeds, v, d)
  {
    if k == 0 || v !in Ball(g, seeds, k - 1) then k else Least(g, seeds, v, k - 1)
  }

  /** What the search should report for `v` after `k` rounds. */
  ghost function Expected(g: Adjacency, seeds: seq<nat>, v: nat, k: nat): nat {
    if v in Ball(g, seeds, k) then Least(g, seeds, v, k) else FAR
  }

  ghost predicate Exact(g: Adjacency, seeds: seq<nat>, k: nat, hops: seq<nat>) {
    |hops| == |g| && forall v :: 0 <= v < |g| ==> hops[v] == Expected(g, seeds, v, k)
  }

  /** The frontier holds every node the last round added. */
  ghost predicate Fringe(g: Adjacency, seeds: seq<nat>, k: nat, frontier: seq<nat>) {
    && (forall u :: u in frontier ==> u < |g| && u in Ball(g, seeds, k))
    && (forall u :: u in Ball(g, seeds, k) && (k > 0 ==> u !in Ball(g, seeds, k - 1)) ==> u in frontier)
  }

  ghost predicate Layer(g: Adjacency, seeds: seq<nat>, k: nat, hops: seq<nat>, frontier: seq<nat>) {
    Exact(g, seeds, k, hops) && Fringe(g, seeds, k, frontier)
  }

  // ----- the search ----------------------------------------------------------------------

  method Mark(g: Adjacency, seeds: seq<nat>) returns (hops: seq<nat>, frontier: seq<nat>)
    requires ValidSeeds(g, seeds)
    ensures Layer(g, seeds, 0, hops, frontier)
  {
    hops := seq(|g|, _ => FAR);
    frontier := [];
    for k := 0 to |seeds|
      invariant |hops| == |g| && frontier == seeds[..k]
      invariant forall v :: 0 <= v < |g| ==> hops[v] == if v in seeds[..k] then 0 else FAR
    {
      assert seeds[k] in seeds;
      assert seeds[..k + 1] == seeds[..k] + [seeds[k]];
      hops := hops[seeds[k] := 0];
      frontier := frontier + [seeds[k]];
    }
    assert seeds[..|seeds|] == seeds;
  }

  /** One round: every unmarked neighbour of the frontier is marked `depth + 1`. */
  method Round(g: Adjacency, hops0: seq<nat>, frontier: seq<nat>, depth: nat) returns (hops: seq<nat>, next: seq<nat>)
    requires ValidAdjacency(g) && |hops0| == |g| && depth < FAR
    requires forall b :: 0 <= b < |frontier| ==> frontier[b] < |g|
    ensures |hops| == |g|
    ensures forall v :: 0 <= v < |g| ==>
              hops[v] == if hops0[v] == FAR && (exists u :: u in frontier && v in g[u]) then depth + 1 else hops0[v]
    ensures forall v :: v in next <==>
              0 <= v < |g| && hops0[v] == FAR && exists u :: u in frontier && v in g[u]
  {
    hops, next := hops0, [];
    ghost var seen: set<nat> := {};
    for a := 0 to |frontier|
      invariant |hops| == |g|
      invariant forall v :: v in seen <==> exists b :: 0 <= b < a && v in g[frontier[b]]
      invariant forall v :: 0 <= v < |g| ==>
                  hops[v] == if hops0[v] == FAR && v in seen then depth + 1 else hops0[v]
      invariant forall v :: v in next <==> 0 <= v < |g| && hops0[v] == FAR && v in seen
    {
      var i := frontier[a];
      assert i in frontier;
      ghost var before := seen;
      for c := 0 to |g[i]|
        invariant |hops| == |g|
        invariant seen == before + set v | v in g[i][..c]
        invariant forall v :: 0 <= v < |g| ==>
                    hops[v] == if hops0[v] == FAR && v in seen then depth + 1 else hops0[v]
        invariant forall v :: v in next <==> 0 <= v < |g| && hops0[v] == FAR && v in seen
      {
        var j := g[i][c];
        assert g[i][..c + 1] == g[i][..c] + [j];
        seen := seen + {j};
        if hops[j] == FAR {
          hops := hops[j := depth + 1];
          next := next + [j];
        }
      }
      assert g[i][..|g[i]|] == g[i];
    }
    forall v ensures v in seen <==> exists u :: u in frontier && v in g[u] {
      if b :| 0 <= b < |frontier| && v in g[frontier[b]] {
        assert frontier[b] in frontier;
      }
      if u :| u in frontier && v in g[u] {
        var b :| 0 <= b < |frontier| && frontier[b] == u;
      }
    }
  }

  /** Neighbours of the frontier that are not yet in the ball are exactly the next shell. */
  lemma ShellFromFringe(g: Adjacency, seeds: seq<nat>, k: nat, frontier: seq<nat>, v: nat)
    requires Fringe(g, seeds, k, frontier) && v < |g| && v !in Ball(g, seeds, k)
    ensures v in Ball(g, seeds, k + 1) <==> exists u :: u in frontier && v in g[u]
  {
    if v in Ball(g, seeds, k + 1) {
      var u :| u in Ball(g, seeds, k) && u < |g| && v in g[u];
      assert k > 0 ==> u !in Ball(g, seeds, k - 1);
      assert u in frontier;
    }
  }

  lemma RoundIsExact(g: Adjacency, seeds: seq<nat>, k: nat, frontier: seq<nat>, hops0: seq<nat>, hops: seq<nat>,
                     next: seq<nat>)
    requires Exact(g, seeds, k, hops0) && Fringe(g, seeds, k, frontier) && k < FAR && |hops| == |g|
    requires ValidSeeds(g, seeds)
    requires forall v :: 0 <= v < |g| ==>
               hops[v] == if hops0[v] == FAR && (exists u :: u in frontier && v in g[u]) then k + 1 else hops0[v]
    requires forall v :: v in next <==>
               0 <= v < |g| && hops0[v] == FAR && exists u :: u in frontier && v in g[u]
    ensures Exact(g, seeds, k + 1, hops) && Fringe(g, seeds, k + 1, next)
  {
    BallGrows(g, seeds, k, k + 1);
    forall v | 0 <= v < |g|
      ensures hops[v] == Expected(g, seeds, v, k + 1)
      ensures v in next <==> v in Ball(g, seeds, k + 1) && v !in Ball(g, seeds, k)
    {
      assert hops0[v] == FAR <==> v !in Ball(g, seeds, k);
      if v !in Ball(g, seeds, k) {
        ShellFromFringe(g, seeds, k, frontier, v);
      }
    }
    BallInGraph(g, seeds, k + 1);
  }

  lemma {:induction false} BallInGraph(g: Adjacency, seeds: seq<nat>, k: nat)
    requires ValidSeeds(g, seeds)
    ensures forall v :: v in Ball(g, seeds, k) ==> v < |g|
  {
    if k > 0 { BallInGraph(g, seeds, k - 1); }
  }

  lemma EmptyFringeIsFinal(g: Adjacency, seeds: seq<nat>, k: nat, max: nat, hops: seq<nat>)
    requires Layer(g, seeds, k, hops, []) && k <= max
    ensures Exact(g, seeds, max, hops)
  {
    forall v | v in Ball(g, seeds, k + 1) ensures v in Ball(g, seeds, k) {
      if v !in Ball(g, seeds, k) {
        ShellFromFringe(g, seeds, k, [], v);
      }
    }
    BallStable(g, seeds, k, max);
    forall v | 0 <= v < |g| ensures hops[v] == Expected(g, seeds, v, max) {
      if v in Ball(g, seeds, k) {
        FirstAtUnique(g, seeds, v, Least(g, seeds, v, k), Least(g, seeds, v, max));
      }
    }
  }

  method Advance(g: Adjacency, ghost seeds: seq<nat>, hops0: seq<nat>, frontier: seq<nat>, depth: nat)
    returns (hops: seq<nat>, next: seq<nat>)
    requires ValidAdjacency(g) && ValidSeeds(g, seeds) && depth < FAR
    requires Layer(g, seeds, depth, hops0, frontier)
    ensures Layer(g, seeds, depth + 1, hops, next)
  {
    assert forall b :: 0 <= b < |frontier| ==> frontier[b] in frontier;
    hops, next := Round(g, hops0, frontier, depth);
    RoundIsExact(g, seeds, depth, frontier, hops0, hops, next);
  }

  method BfsHops(g: Adjacency, seeds: seq<nat>, maxHops: nat) returns (hops: seq<nat>)
    requires ValidAdjacency(g) && ValidSeeds(g, seeds) && maxHops <= FAR
    ensures Exact(g, seeds, maxHops, hops)
  {
    var frontier;
    hops, frontier := Mark(g, seeds);
    var depth := 0;
    while frontier != [] && depth < maxHops
      invariant depth <= maxHops && Layer(g, seeds, depth, hops, frontier)
      decreases maxHops - depth
    {
      hops, frontier := Advance(g, seeds, hops, frontier, depth);
      depth := depth + 1;
    }
    LayerIsFinal(g, seeds, depth, maxHops, hops, frontier);
  }

  lemma LayerIsFinal(g: Adjacency, seeds: seq<nat>, depth: nat, maxHops: nat, hops: seq<nat>, frontier: seq<nat>)
    requires Layer(g, seeds, depth, hops, frontier) && depth <= maxHops && (frontier == [] || depth == maxHops)
    ensures Exact(g, seeds, maxHops, hops)
  {
    if depth < maxHops {
      EmptyFringeIsFinal(g, seeds, depth, maxHops, hops);
    }
  }

  /** The reported number is the length of a shortest walk from a seed, whenever one fits the
      budget; otherwise the node keeps the mark FAR. */
  lemma ExactIsShortest(g: Adjacency, seeds: seq<nat>, max: nat, hops: seq<nat>, v: nat) returns (w: seq<nat>)
    requires ValidSeeds(g, seeds) && max <= FAR && Exact(g, seeds, max, hops) && v < |g|
    ensures forall x :: WalkTo(g, seeds, x, v) && |x| - 1 <= max ==> hops[v] <= |x| - 1
    ensures hops[v] < FAR ==> hops[v] <= max && WalkTo(g, seeds, w, v) && |w| - 1 == hops[v]
    ensures hops[v] == FAR && max < FAR ==> !exists x :: WalkTo(g, seeds, x, v) && |x| - 1 <= max
  {
    forall x | WalkTo(g, seeds, x, v) && |x| - 1 <= max
      ensures hops[v] <= |x| - 1
    {
      WalkEndsInBall(g, seeds, x, v);
      BallGrows(g, seeds, |x| - 1, max);
      FirstAtLeast(g, seeds, v, Least(g, seeds, v, max), |x| - 1);
    }
    w := [];
    if v in Ball(g, seeds, max) {
      w := BallHasWalk(g, seeds, v, hops[v]);
      WalkEndsInBall(g, seeds, w, v);
      FirstAtLeast(g, seeds, v, Least(g, seeds, v, max), |w| - 1);
    }
  }

  // ----- multi-hop search ----------------------------------------------------------------

  datatype Hit = Hit(node: nat, score: real, hops: nat)

  function ScoreOf(h: Hit): real {
    h.score
  }

  function HitAt(scores: seq<real>, hops: seq<nat>, i: nat): Hit
    requires i < |scores| == |hops|
  {
    Hit(i, scores[i], hops[i])
  }

  function AllHits(scores: seq<real>, hops: seq<nat>): (all: seq<Hit>)
    requires |scores| == |hops|
    ensures |all| == |scores| && forall i :: 0 <= i < |all| ==> all[i] == HitAt(scores, hops, i)
  {
    seq(|scores|, i requires 0 <= i < |scores| => HitAt(scores, hops, i))
  }

  /** By descending score, and by ascending node where scores are equal, as a stable sort leaves them. */
  predicate Ahead(a: Hit, b: Hit) {
    a.score > b.score || (a.score == b.score && a.node < b.node)
  }

  predicate InRank(s: seq<Hit>) {
    forall i, j :: 0 <= i < j < |s| ==> Ahead(s[i], s[j])
  }

  /** One hit per node, in rank order. */
  ghost predicate Ranked(ranked: seq<Hit>, scores: seq<real>, hops: seq<nat>)
    requires |scores| == |hops|
  {
    InRank(ranked) && multiset(ranked) == multiset(AllHits(scores, hops))
  }

  lemma RankDescends(s: seq<Hit>)
    requires InRank(s)
    ensures Descending(s, ScoreOf)
  {
    forall i, j | 0 <= i < j < |s| ensures ScoreOf(s[i]) >= ScoreOf(s[j]) {
      assert Ahead(s[i], s[j]);
    }
  }

  /** A stable insertion of a later node. */
  lemma InsertKeepsRank(s: seq<Hit>, h: Hit)
    requires InRank(s) && Descending(s, ScoreOf) && forall i :: 0 <= i < |s| ==> s[i].node < h.node
    ensures InRank(Insert(s, h, ScoreOf))
  {
    var k, r := Place(s, h, ScoreOf), Insert(s, h, ScoreOf);
    forall i, j | 0 <= i < j < |r| ensures Ahead(r[i], r[j]) {
      if i == k {
        assert r[j] == s[j - 1] && (j - 1 == k || Ahead(s[k], s[j - 1]));
        assert ScoreOf(s[k]) < ScoreOf(h);
      } else if j == k {
        assert ScoreOf(s[i]) >= ScoreOf(h);
      } else {
        assert Ahead(s[if i < k then i else i - 1], s[if j < k then j else j - 1]);
      }
    }
  }

  /** The hits of the first nodes, sorted. */
  ghost predicate Sorted(ranked: seq<Hit>, first: seq<Hit>) {
    && InRank(ranked) && multiset(ranked) == multiset(first)
    && forall k :: 0 <= k < |ranked| ==> ranked[k].node < |first|
  }

  lemma InsertKeepsSorted(ranked: seq<Hit>, first: seq<Hit>, h: Hit)
    requires Sorted(ranked, first) && h.node == |first| && Descending(ranked, ScoreOf)
    ensures Sorted(Insert(ranked, h, ScoreOf), first + [h])
  {
    InsertKeepsAll(ranked, h, ScoreOf);
    InsertKeepsRank(ranked, h);
  }

  method RankHits(scores: seq<real>, hops: seq<nat>) returns (ranked: seq<Hit>)
    requires |scores| == |hops|
    ensures Ranked(ranked, scores, hops)
  {
    ranked := [];
    ghost var all := AllHits(scores, hops);
    for i := 0 to |scores|
      invariant Sorted(ranked, all[..i])
    {
      assert all[..i + 1] == all[..i] + [all[i]];
      RankDescends(ranked);
      InsertKeepsSorted(ranked, all[..i], Hit(i, scores[i], hops[i]));
      ranked := Insert(ranked, Hit(i, scores[i], hops[i]), ScoreOf);
    }
    assert all[..|scores|] == all;
  }

  /** How often a hit is left after those beyond the budget are dropped. */
  function Within(ranked: seq<Hit>, maxHops: nat, h: Hit): nat {
    if h.hops <= maxHops then multiset(ranked)[h] else 0
  }

  /** The hits within the budget, in order. */
  function Retained(ranked: seq<Hit>, maxHops: nat): (r: seq<Hit>)
    ensures |r| <= |ranked|
  {
    if ranked == [] then []
    else
      var front, last := ranked[..|ranked| - 1], ranked[|ranked| - 1];
      Retained(front, maxHops) + if last.hops <= maxHops then [last] else []
  }

  lemma {:induction false} RetainedCounts(ranked: seq<Hit>, maxHops: nat, h: Hit)
    ensures multiset(Retained(ranked, maxHops))[h] == Within(ranked, maxHops, h)
  {
    if ranked != [] {
      var front, last := ranked[..|ranked| - 1], ranked[|ranked| - 1];
      RetainedCounts(front, maxHops, h);
      assert ranked == front + [last];
    }
  }

  lemma RetainedIsRanked(ranked: seq<Hit>, maxHops: nat, h: Hit)
    requires h in Retained(ranked, maxHops)
    ensures h in ranked
  {
    RetainedCounts(ranked, maxHops, h);
    assert multiset(Retained(ranked, maxHops))[h] > 0;
  }

  lemma {:induction false} RetainedKeepsRank(ranked: seq<Hit>, maxHops: nat)
    requires InRank(ranked)
    ensures InRank(Retained(ranked, maxHops))
  {
    if ranked != [] {
      var front, last := ranked[..|ranked| - 1], ranked[|ranked| - 1];
      RetainedKeepsRank(front, maxHops);
      forall h | h in Retained(front, maxHops) ensures Ahead(h, last) {
        RetainedIsRanked(front, maxHops, h);
        var k :| 0 <= k < |front| && front[k] == h;
        assert Ahead(ranked[k], ranked[|ranked| - 1]);
      }
    }
  }

  method Retain(ranked: seq<Hit>, maxHops: nat) returns (kept: seq<Hit>)
    requires InRank(ranked)
    ensures kept == Retained(ranked, maxHops) && InRank(kept) && |kept| <= |ranked|
    ensures forall h: Hit :: multiset(kept)[h] == Within(ranked, maxHops, h)
  {
    kept := [];
    for i := 0 to |ranked|
      invariant kept == Retained(ranked[..i], maxHops)
    {
      assert ranked[..i + 1][..i] == ranked[..i];
      if ranked[i].hops <= maxHops {
        kept := kept + [ranked[i]];
      }
    }
    assert ranked[..|ranked|] == ranked;
    RetainedKeepsRank(ranked, maxHops);
    forall h: Hit {
      RetainedCounts(ranked, maxHops, h);
    }
  }

  /** The kept hits are the best `topK` of those within the budget, in order. */
  ghost predicate Surfaces(ranked: seq<Hit>, maxHops: nat, topK: nat, kept: seq<Hit>) {
    && InRank(kept) && |kept| <= topK && |kept| <= |ranked|
    && (forall h: Hit :: multiset(kept)[h] <= Within(ranked, maxHops, h))
    && (forall h, k :: multiset(kept)[h] < Within(ranked, maxHops, h) && k in kept ==> Ahead(k, h))
    && (|kept| < topK ==> forall h: Hit :: multiset(kept)[h] == Within(ranked, maxHops, h))
  }

  lemma CutKeepsBest(whole: seq<Hit>, n: nat, h: Hit, k: Hit)
    requires InRank(whole) && n <= |whole| && multiset(whole[..n])[h] < multiset(whole)[h] && k in whole[..n]
    ensures Ahead(k, h)
  {
    assert whole == whole[..n] + whole[n..];
    assert h in whole[n..];
    var a :| 0 <= a < |whole| - n && whole[n..][a] == h;
    var b :| 0 <= b < n && whole[..n][b] == k;
    assert whole[n + a] == h && whole[b] == k && Ahead(whole[b], whole[n + a]);
  }

  /** `retain` then `truncate`: keep the hits within the budget, then the best `topK` of them. */
  method Surface(ranked: seq<Hit>, maxHops: nat, topK: nat) returns (kept: seq<Hit>)
    requires InRank(ranked)
    ensures Surfaces(ranked, maxHops, topK, kept)
  {
    var whole := Retain(ranked, maxHops);
    var n := if |whole| > topK then topK else |whole|;
    kept := whole[..n];
    CutCounts(whole, n);
    forall h, k | multiset(kept)[h] < multiset(whole)[h] && k in kept ensures Ahead(k, h) {
      CutKeepsBest(whole, n, h, k);
    }
  }

  lemma CutCounts(whole: seq<Hit>, n: nat)
    requires n <= |whole|
    ensures forall h: Hit :: multiset(whole[..n])[h] <= multiset(whole)[h]
    ensures n == |whole| ==> whole[..n] == whole
  {
    assert whole == whole[..n] + whole[n..];
  }

  /** Every surfaced node really lies within the hop budget, for every budget below `u32::MAX`. */
  lemma SurfacedWithinBudget(g: Adjacency, seeds: seq<nat>, maxHops: nat, hops: seq<nat>, h: Hit)
    requires ValidSeeds(g, seeds) && Exact(g, seeds, maxHops, hops) && maxHops < FAR
    requires h.node < |g| && h.hops == hops[h.node]
    ensures h.hops <= maxHops <==> exists w :: WalkTo(g, seeds, w, h.node) && |w| - 1 <= maxHops
  {
    var w := ExactIsShortest(g, seeds, maxHops, hops, h.node);
    if h.hops <= maxHops {
      assert WalkTo(g, seeds, w, h.node) && |w| - 1 <= maxHops;
    }
  }

  /** Two nodes and no edge. */
  const APART: Adjacency := [[], []]

  lemma ApartHops()
    ensures Exact(APART, [0], FAR, [0, FAR]) && !exists w :: WalkTo(APART, [0], w, 1)
  {
    assert Ball(APART, [0], 0) == {0};
    assert forall v: nat :: !Touches(APART, {0}, v);
    assert Ball(APART, [0], 1) == {0};
    BallStable(APART, [0], 0, FAR);
    FirstAtUnique(APART, [0], 0, Least(APART, [0], 0, FAR), 0);
    forall w | WalkTo(APART, [0], w, 1) ensures false {
      WalkEndsInBall(APART, [0], w, 1);
      BallStable(APART, [0], 0, |w| - 1);
    }
  }

  /** With the budget `u32::MAX` even a node no walk reaches is surfaced: the mark for "not reached" is itself
      within the budget. */
  lemma UnboundedBudgetKeepsUnreachable(scores: seq<real>, ranked: seq<Hit>, topK: nat, kept: seq<Hit>)
    requires |scores| == 2 && topK > 2
    requires Ranked(ranked, scores, [0, FAR]) && Surfaces(ranked, FAR, topK, kept)
    ensures Exact(APART, [0], FAR, [0, FAR]) && !exists w :: WalkTo(APART, [0], w, 1)
    ensures Hit(1, scores[1], FAR) in kept
  {
    ApartHops();
    var all, h := AllHits(scores, [0, FAR]), Hit(1, scores[1], FAR);
    assert all[1] == h && h in all;
    assert |ranked| == |multiset(ranked)| == |multiset(all)| == |all|;
    assert multiset(ranked)[h] > 0;
    assert multiset(kept)[h] == Within(ranked, FAR, h);
  }
}
