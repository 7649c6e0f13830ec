/** The in-memory graph of crates/sap-automate-graph/src/store.rs: out-lists, in-lists and the
    edge list, and the undirected view that PageRank and community detection work on. */
module GraphStore {
  import opened Sums

  type NodeId = string

  datatype Edge = Edge(from: NodeId, to: NodeId, weight: real)

  datatype Arc = Arc(node: NodeId, weight: real)

  // ----- sums over edge lists ------------------------------------------------------------

  function EdgeTotal(edges: seq<Edge>): real {
    if edges == [] then 0.0 else EdgeTotal(edges[..|edges| - 1]) + edges[|edges| - 1].weight
  }

  /** What one edge adds to the undirected weight between `u` and `v`: a loop counts at both ends. */
  function Share(e: Edge, u: NodeId, v: NodeId): real {
    (if e.from == u && e.to == v then e.weight else 0.0) + (if e.to == u && e.from == v then e.weight else 0.0)
  }

  function Adjacency(edges: seq<Edge>, u: NodeId, v: NodeId): real {
    if edges == [] then 0.0 else Adjacency(edges[..|edges| - 1], u, v) + Share(edges[|edges| - 1], u, v)
  }

  function Degree(edges: seq<Edge>, u: NodeId): real {
    if edges == [] then 0.0
    else
      var e := edges[|edges| - 1];
      Degree(edges[..|edges| - 1], u) + (if e.from == u then e.weight else 0.0) + (if e.to == u then e.weight else 0.0)
  }

  lemma {:induction false} AdjacencySymmetric(edges: seq<Edge>, u: NodeId, v: NodeId)
    ensures Adjacency(edges, u, v) == Adjacency(edges, v, u)
  {
    if edges != [] { AdjacencySymmetric(edges[..|edges| - 1], u, v); }
  }

  // ----- the store -----------------------------------------------------------------------

  function OutArcs(edges: seq<Edge>, u: NodeId): seq<Arc> {
    if edges == [] then []
    else
      var e := edges[|edges| - 1];
      OutArcs(edges[..|edges| - 1], u) + if e.from == u then [Arc(e.to, e.weight)] else []
  }

  function InArcs(edges: seq<Edge>, u: NodeId): seq<Arc> {
    if edges == [] then []
    else
      var e := edges[|edges| - 1];
      InArcs(edges[..|edges| - 1], u) + if e.to == u then [Arc(e.from, e.weight)] else []
  }

  lemma ArcsOfLonger(edges: seq<Edge>, e: Edge, u: NodeId)
    ensures OutArcs(edges + [e], u) == OutArcs(edges, u) + if e.from == u then [Arc(e.to, e.weight)] else []
    ensures InArcs(edges + [e], u) == InArcs(edges, u) + if e.to == u then [Arc(e.from, e.weight)] else []
  {
    assert (edges + [e])[..|edges|] == edges;
  }

  function Lookup(m: map<NodeId, seq<Arc>>, id: NodeId): seq<Arc> {
    if id in m then m[id] else []
  }

  /** `entry(id).or_insert(0.0) += w` on a map kept as a list of distinct keys. */
  function Bump(seen: seq<Arc>, id: NodeId, w: real): seq<Arc> {
    if seen == [] then [Arc(id, w)]
    else if seen[0].node == id then [Arc(id, seen[0].weight + w)] + seen[1..]
    else [seen[0]] + Bump(seen[1..], id, w)
  }

  function Weight(seen: seq<Arc>, id: NodeId): real {
    if seen == [] then 0.0 else (if seen[0].node == id then seen[0].weight else 0.0) + Weight(seen[1..], id)
  }

  function Total(seen: seq<Arc>): real {
    if seen == [] then 0.0 else seen[0].weight + Total(seen[1..])
  }

  predicate Distinct(seen: seq<Arc>) {
    forall i, j :: 0 <= i < j < |seen| ==> seen[i].node != seen[j].node
  }

  predicate Mentions(seen: seq<Arc>, id: NodeId) {
    exists i :: 0 <= i < |seen| && seen[i].node == id
  }

  lemma {:induction false} BumpAdds(seen: seq<Arc>, id: NodeId, w: real, v: NodeId)
    ensures Weight(Bump(seen, id, w), v) == Weight(seen, v) + if v == id then w else 0.0
    ensures Total(Bump(seen, id, w)) == Total(seen) + w
  {
    if seen == [] {
      assert [Arc(id, w)][1..] == [];
    } else {
      var r := Bump(seen, id, w);
      assert r[1..] == if seen[0].node == id then seen[1..] else Bump(seen[1..], id, w);
      BumpAdds(seen[1..], id, w, v);
    }
  }

  lemma {:induction false} BumpKeys(seen: seq<Arc>, id: NodeId, w: real)
    requires Distinct(seen)
    ensures Distinct(Bump(seen, id, w))
    ensures forall v :: Mentions(Bump(seen, id, w), v) <==> Mentions(seen, v) || v == id
  {
    var r := Bump(seen, id, w);
    if seen == [] {
      assert r[0].node == id;
    } else if seen[0].node == id {
      assert forall i :: 0 <= i < |r| ==> r[i].node == seen[i].node;
      assert forall i :: 0 <= i < |seen| ==> seen[i].node == r[i].node;
    } else {
      var tail := Bump(seen[1..], id, w);
      BumpKeys(seen[1..], id, w);
      assert r == [seen[0]] + tail;
      assert !Mentions(seen[1..], seen[0].node);
      forall i, j | 0 <= i < j < |r| ensures r[i].node != r[j].node {
        assert r[j] == tail[j - 1];
        if i > 0 { assert r[i] == tail[i - 1]; }
      }
      forall v ensures Mentions(r, v) <==> Mentions(seen, v) || v == id {
        MentionsCons(seen[0], tail, v);
        MentionsCons(seen[0], seen[1..], v);
        assert [seen[0]] + seen[1..] == seen;
      }
    }
  }

  lemma MentionsCons(a: Arc, tail: seq<Arc>, v: NodeId)
    ensures Mentions([a] + tail, v) <==> a.node == v || Mentions(tail, v)
  {
    var r := [a] + tail;
    if Mentions(tail, v) {
      var i :| 0 <= i < |tail| && tail[i].node == v;
      assert r[i + 1].node == v;
    }
    if a.node == v { assert r[0].node == v; }
    if Mentions(r, v) && a.node != v {
      var i :| 0 <= i < |r| && r[i].node == v;
      assert tail[i - 1].node == v;
    }
  }

  lemma ArcsAreRow(edges: seq<Edge>, u: NodeId)
    ensures forall v :: Weight(OutArcs(edges, u), v) + Weight(InArcs(edges, u), v) == Adjacency(edges, u, v)
  {
    forall v ensures Weight(OutArcs(edges, u), v) + Weight(InArcs(edges, u), v) == Adjacency(edges, u, v) {
      ArcsAreAdjacency(edges, u, v);
    }
  }

  ghost predicate Views(outs: map<NodeId, seq<Arc>>, ins: map<NodeId, seq<Arc>>, edges: seq<Edge>) {
    forall id :: Lookup(outs, id) == OutArcs(edges, id) && Lookup(ins, id) == InArcs(edges, id)
  }

  lemma TableGrows(table: map<NodeId, seq<Arc>>, key: NodeId, a: Arc, id: NodeId)
    ensures Lookup(table[key := Lookup(table, key) + [a]], id)
            == Lookup(table, id) + if key == id then [a] else []
  {
  }

  lemma ViewsGrow(outs: map<NodeId, seq<Arc>>, ins: map<NodeId, seq<Arc>>, edges: seq<Edge>, e: Edge)
    requires Views(outs, ins, edges)
    ensures Views(outs[e.from := Lookup(outs, e.from) + [Arc(e.to, e.weight)]],
                  ins[e.to := Lookup(ins, e.to) + [Arc(e.from, e.weight)]], edges + [e])
  {
    var outs', ins' := outs[e.from := Lookup(outs, e.from) + [Arc(e.to, e.weight)]],
                       ins[e.to := Lookup(ins, e.to) + [Arc(e.from, e.weight)]];
    forall id ensures Lookup(outs', id) == OutArcs(edges + [e], id) && Lookup(ins', id) == InArcs(edges + [e], id) {
      assert Lookup(outs, id) == OutArcs(edges, id) && Lookup(ins, id) == InArcs(edges, id);
      ArcsOfLonger(edges, e, id);
      TableGrows(outs, e.from, Arc(e.to, e.weight), id);
      TableGrows(ins, e.to, Arc(e.from, e.weight), id);
    }
  }

  class InMemoryGraph {
    var nodes: set<NodeId>
    var outEdges: map<NodeId, seq<Arc>>
    var inEdges: map<NodeId, seq<Arc>>
    var edges: seq<Edge>

    /** Both adjacency maps are views of the edge list. */
    ghost predicate Valid()
      reads this
    {
      Views(outEdges, inEdges, edges)
    }

    constructor ()
      ensures Valid() && nodes == {} && edges == []
    {
      nodes, outEdges, inEdges, edges := {}, map[], map[], [];
    }

    method AddEntity(id: NodeId)
      requires Valid()
      modifies this
      ensures Valid() && nodes == old(nodes) + {id} && edges == old(edges)
    {
      nodes := nodes + {id};
    }

    method AddEdge(e: Edge)
      requires Valid()
      modifies this
      ensures Valid() && edges == old(edges) + [e] && nodes == old(nodes)
    {
      ViewsGrow(outEdges, inEdges, edges, e);
      outEdges := outEdges[e.from := Lookup(outEdges, e.from) + [Arc(e.to, e.weight)]];
      inEdges := inEdges[e.to := Lookup(inEdges, e.to) + [Arc(e.from, e.weight)]];
      edges := edges + [e];
    }

    /** The neighbours of `id`, each once, with the undirected weight to it; their weights add up to
        the degree. */
    method UndirectedNeighbours(id: NodeId) returns (seen: seq<Arc>)
      requires Valid()
      ensures Distinct(seen) && Total(seen) == Degree(edges, id)
      ensures forall v :: Weight(seen, v) == Adjacency(edges, id, v)
      ensures forall v :: Mentions(seen, v) <==> Mentions(OutArcs(edges, id), v) || Mentions(InArcs(edges, id), v)
    {
      var outs, ins := Lookup(outEdges, id), Lookup(inEdges, id);
      seen := Accumulate(outs, []);
      seen := Accumulate(ins, seen);
      ArcsAreRow(edges, id);
      ArcsAreDegree(edges, id);
    }
  }

  method Accumulate(arcs: seq<Arc>, start: seq<Arc>) returns (seen: seq<Arc>)
    requires Distinct(start)
    ensures Distinct(seen) && Total(seen) == Total(start) + Total(arcs)
    ensures forall v :: Weight(seen, v) == Weight(start, v) + Weight(arcs, v)
    ensures forall v :: Mentions(seen, v) <==> Mentions(start, v) || Mentions(arcs, v)
  {
    seen := start;
    for i := 0 to |arcs|
      invariant Distinct(seen) && Total(seen) + Total(arcs[i..]) == Total(start) + Total(arcs)
      invariant forall v :: Weight(seen, v) + Weight(arcs[i..], v) == Weight(start, v) + Weight(arcs, v)
      invariant forall v :: Mentions(seen, v) <==> Mentions(start, v) || Mentions(arcs[..i], v)
    {
      assert arcs[i..][1..] == arcs[i + 1..];
      assert arcs[..i + 1] == arcs[..i] + [arcs[i]];
      forall v ensures Mentions(arcs[..i + 1], v) <==> Mentions(arcs[..i], v) || v == arcs[i].node {
        MentionsSnoc(arcs[..i], arcs[i], v);
      }
      forall v ensures Weight(Bump(seen, arcs[i].node, arcs[i].weight), v)
                       == Weight(seen, v) + if v == arcs[i].node then arcs[i].weight else 0.0 {
        BumpAdds(seen, arcs[i].node, arcs[i].weight, v);
      }
      BumpAdds(seen, arcs[i].node, arcs[i].weight, "");
      BumpKeys(seen, arcs[i].node, arcs[i].weight);
      seen := Bump(seen, arcs[i].node, arcs[i].weight);
    }
    assert arcs[..|arcs|] == arcs;
  }

  lemma MentionsSnoc(front: seq<Arc>, a: Arc, v: NodeId)
    ensures Mentions(front + [a], v) <==> Mentions(front, v) || a.node == v
  {
    var r := front + [a];
    if Mentions(front, v) {
      var i :| 0 <= i < |front| && front[i].node == v;
      assert r[i].node == v;
    }
    if a.node == v { assert r[|front|].node == v; }
  }

  lemma {:induction false} WeightConcat(a: seq<Arc>, b: seq<Arc>, v: NodeId)
    ensures Weight(a + b, v) == Weight(a, v) + Weight(b, v) && Total(a + b) == Total(a) + Total(b)
  {
    if a == [] {
      assert a + b == b;
    } else {
      assert (a + b)[1..] == a[1..] + b;
      WeightConcat(a[1..], b, v);
    }
  }

  lemma {:induction false} ArcsAreAdjacency(edges: seq<Edge>, u: NodeId, v: NodeId)
    ensures Weight(OutArcs(edges, u), v) + Weight(InArcs(edges, u), v) == Adjacency(edges, u, v)
  {
    if edges != [] {
      var front, e := edges[..|edges| - 1], edges[|edges| - 1];
      ArcsAreAdjacency(front, u, v);
      WeightConcat(OutArcs(front, u), if e.from == u then [Arc(e.to, e.weight)] else [], v);
      WeightConcat(InArcs(front, u), if e.to == u then [Arc(e.from, e.weight)] else [], v);
      assert [Arc(e.to, e.weight)][1..] == [] && [Arc(e.from, e.weight)][1..] == [];
    }
  }

  lemma {:induction false} ArcsAreDegree(edges: seq<Edge>, u: NodeId)
    ensures Total(OutArcs(edges, u)) + Total(InArcs(edges, u)) == Degree(edges, u)
  {
    if edges != [] {
      var front, e := edges[..|edges| - 1], edges[|edges| - 1];
      ArcsAreDegree(front, u);
      WeightConcat(OutArcs(front, u), if e.from == u then [Arc(e.to, e.weight)] else [], u);
      WeightConcat(InArcs(front, u), if e.to == u then [Arc(e.from, e.weight)] else [], u);
      assert [Arc(e.to, e.weight)][1..] == [] && [Arc(e.from, e.weight)][1..] == [];
    }
  }

  predicate Joins(e: Edge, u: NodeId, v: NodeId) {
    (e.from == u && e.to == v) || (e.to == u && e.from == v)
  }

  /** Some edge joins `u` and `v`. */
  predicate Joined(edges: seq<Edge>, u: NodeId, v: NodeId) {
    exists k :: 0 <= k < |edges| && Joins(edges[k], u, v)
  }

  lemma JoinedSnoc(front: seq<Edge>, e: Edge, u: NodeId, v: NodeId)
    ensures Joined(front + [e], u, v)
            <==> Joined(front, u, v) || Joins(e, u, v)
  {
    var edges := front + [e];
    assert edges[|front|] == e;
    assert forall k :: 0 <= k < |front| ==> edges[k] == front[k];
  }

  /** The neighbours of a node are the other ends of its edges. */
  lemma {:induction false} NeighboursAreJoined(edges: seq<Edge>, u: NodeId, v: NodeId)
    ensures Mentions(OutArcs(edges, u), v) || Mentions(InArcs(edges, u), v) <==> Joined(edges, u, v)
  {
    if edges != [] {
      var front, e := edges[..|edges| - 1], edges[|edges| - 1];
      NeighboursAreJoined(front, u, v);
      assert edges == front + [e];
      JoinedSnoc(front, e, u, v);
      MentionsSnoc(OutArcs(front, u), Arc(e.to, e.weight), v);
      MentionsSnoc(InArcs(front, u), Arc(e.from, e.weight), v);
      ArcsOfLonger(front, e, u);
      assert OutArcs(front, u) + [] == OutArcs(front, u) && InArcs(front, u) + [] == InArcs(front, u);
    }
  }

  // ----- the matrix view -----------------------------------------------------------------

  /** A numbering of the registered nodes. */
  predicate Numbering(ids: seq<NodeId>, edges: seq<Edge>) {
    && (forall i, j :: 0 <= i < j < |ids| ==> ids[i] != ids[j])
    && (forall k :: 0 <= k < |edges| ==> edges[k].from in ids && edges[k].to in ids)
  }

  function At(edges: seq<Edge>, ids: seq<NodeId>, i: int, j: int): real {
    if 0 <= i < |ids| && 0 <= j < |ids| then Adjacency(edges, ids[i], ids[j]) else 0.0
  }

  function RowOf(edges: seq<Edge>, ids: seq<NodeId>, i: int): int -> real {
    j => At(edges, ids, i, j)
  }

  function DegreeAt(edges: seq<Edge>, ids: seq<NodeId>): int -> real {
    i => if 0 <= i < |ids| then Degree(edges, ids[i]) else 0.0
  }

  /** One term at position `k`. */
  function Spike(k: int, w: real): int -> real {
    i => if i == k then w else 0.0
  }

  lemma SumSpike(n: nat, k: nat, w: real)
    requires k < n
    ensures Sum(n, Spike(k, w)) == w
  {
    SumZero(n, Spike(k, 0.0));
    SumPoint(n, k, Spike(k, 0.0), Spike(k, w));
  }

  /** What the last edge adds to row `i`: its weight at its target if it starts there, and at its source if
      it ends there. */
  lemma RowGrows(edges: seq<Edge>, ids: seq<NodeId>, i: nat, a: nat, b: nat, j: nat)
    requires Numbering(ids, edges) && i < |ids| && edges != [] && j < |ids|
    requires var e := edges[|edges| - 1]; a < |ids| && ids[a] == e.from && b < |ids| && ids[b] == e.to
    ensures var front, e := edges[..|edges| - 1], edges[|edges| - 1];
            RowOf(edges, ids, i)(j)
            == RowOf(front, ids, i)(j)
               + Spike(b, if e.from == ids[i] then e.weight else 0.0)(j)
               + Spike(a, if e.to == ids[i] then e.weight else 0.0)(j)
  {
  }

  /** With all ends registered, a node's degree is the sum of its row. */
  lemma {:induction false} DegreeIsRowSum(edges: seq<Edge>, ids: seq<NodeId>, i: nat)
    requires Numbering(ids, edges) && i < |ids|
    ensures Sum(|ids|, RowOf(edges, ids, i)) == Degree(edges, ids[i])
  {
    if edges == [] {
      SumZero(|ids|, RowOf(edges, ids, i));
    } else {
      var front, e := edges[..|edges| - 1], edges[|edges| - 1];
      DegreeIsRowSum(front, ids, i);
      var a :| 0 <= a < |ids| && ids[a] == e.from;
      var b :| 0 <= b < |ids| && ids[b] == e.to;
      var x, y := if e.from == ids[i] then e.weight else 0.0, if e.to == ids[i] then e.weight else 0.0;
      SumSpike(|ids|, b, x);
      SumSpike(|ids|, a, y);
      forall j: nat | j < |ids|
        ensures RowOf(edges, ids, i)(j) == RowOf(front, ids, i)(j) + Spike(b, x)(j) + Spike(a, y)(j)
      {
        RowGrows(edges, ids, i, a, b, j);
      }
      SumThree(|ids|, RowOf(front, ids, i), Spike(b, x), Spike(a, y), RowOf(edges, ids, i));
    }
  }

  lemma {:induction false} SumThree(n: nat, f: int -> real, g: int -> real, h: int -> real, total: int -> real)
    requires forall i: nat :: i < n ==> total(i) == f(i) + g(i) + h(i)
    ensures Sum(n, total) == Sum(n, f) + Sum(n, g) + Sum(n, h)
  {
    if n > 0 {
      SumThree(n - 1, f, g, h, total);
    }
  }

  /** With all ends registered, the degrees add up to twice the weight of the edges. */
  lemma {:induction false} DegreesSumToTwiceWeight(edges: seq<Edge>, ids: seq<NodeId>)
    requires Numbering(ids, edges)
    ensures Sum(|ids|, DegreeAt(edges, ids)) == 2.0 * EdgeTotal(edges)
  {
    if edges == [] {
      SumZero(|ids|, DegreeAt(edges, ids));
    } else {
      var front, e := edges[..|edges| - 1], edges[|edges| - 1];
      DegreesSumToTwiceWeight(front, ids);
      var a :| 0 <= a < |ids| && ids[a] == e.from;
      var b :| 0 <= b < |ids| && ids[b] == e.to;
      SumSpike(|ids|, a, e.weight);
      SumSpike(|ids|, b, e.weight);
      SumThree(|ids|, DegreeAt(front, ids), Spike(a, e.weight), Spike(b, e.weight), DegreeAt(edges, ids));
    }
  }
}
