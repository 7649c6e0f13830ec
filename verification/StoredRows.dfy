/** Rows of positions read from the graph store: what crates/sap-automate-graph/src/ppr.rs:63-79 and
    crates/sap-automate-graph/src/community.rs:55-105 make of `undirected_neighbours`. */
module StoredRows {
  import opened Wrappers
  import opened Rows
  import opened GraphStore

  predicate Unique(ids: seq<NodeId>) {
    forall i, j :: 0 <= i < j < |ids| ==> ids[i] != ids[j]
  }

  predicate Lists(ids: seq<NodeId>, nodes: set<NodeId>) {
    Unique(ids) && nodes == set id | id in ids
  }

  method Position(ids: seq<NodeId>, id: NodeId) returns (r: Option<nat>)
    ensures r.Some? <==> id in ids
    ensures r.Some? ==> r.value < |ids| && ids[r.value] == id
  {
    for i := 0 to |ids|
      invariant id !in ids[..i]
    {
      if ids[i] == id {
        return Some(i);
      }
    }
    r := None;
  }

  /** The row holds, for each position, the weight its node has among the neighbours. */
  predicate Carries(row: Row, seen: seq<Arc>, ids: seq<NodeId>) {
    Inside(row, |ids|) && forall j :: 0 <= j < |ids| ==> WeightTo(row, j) == Weight(seen, ids[j])
  }

  lemma CarriesNext(row: Row, seen: seq<Arc>, ids: seq<NodeId>, a: Arc, at: nat)
    requires Carries(row, seen, ids) && Unique(ids) && at < |ids| && ids[at] == a.node
    ensures Carries(row + [Link(at, a.weight)], seen + [a], ids)
  {
    forall j | 0 <= j < |ids| ensures WeightTo(row + [Link(at, a.weight)], j) == Weight(seen + [a], ids[j]) {
      WeightNext(row, Link(at, a.weight), j);
      WeightConcat(seen, [a], ids[j]);
      assert [a][1..] == [] && (at == j <==> ids[at] == ids[j]);
    }
  }

  lemma CarriesUnknown(row: Row, seen: seq<Arc>, ids: seq<NodeId>, a: Arc)
    requires Carries(row, seen, ids) && a.node !in ids
    ensures Carries(row, seen + [a], ids)
  {
    forall j | 0 <= j < |ids| ensures WeightTo(row, j) == Weight(seen + [a], ids[j]) {
      WeightConcat(seen, [a], ids[j]);
      assert [a][1..] == [];
    }
  }

  /** Each neighbour as a position, or the panic of looking up one that is not registered. */
  method AllPositions(seen: seq<Arc>, ids: seq<NodeId>) returns (row: Option<Row>)
    requires Unique(ids)
    ensures row.Some? <==> forall k :: 0 <= k < |seen| ==> seen[k].node in ids
    ensures row.Some? ==> Carries(row.value, seen, ids)
  {
    var links: Row := [];
    for k := 0 to |seen|
      invariant forall i :: 0 <= i < k ==> seen[i].node in ids
      invariant Carries(links, seen[..k], ids)
    {
      var at := Position(ids, seen[k].node);
      if at.None? {
        return None;
      }
      CarriesNext(links, seen[..k], ids, seen[k], at.value);
      links := links + [Link(at.value, seen[k].weight)];
      assert seen[..k + 1] == seen[..k] + [seen[k]];
    }
    assert seen[..|seen|] == seen;
    row := Some(links);
  }

  /** The row leads exactly to the registered neighbours. */
  predicate Reaches(row: Row, seen: seq<Arc>, ids: seq<NodeId>) {
    forall j: nat :: j < |ids| ==> (Leads(row, j) <==> Mentions(seen, ids[j]))
  }

  lemma ReachesNext(row: Row, seen: seq<Arc>, ids: seq<NodeId>, a: Arc, at: nat)
    requires Reaches(row, seen, ids) && Unique(ids) && at < |ids| && ids[at] == a.node
    ensures Reaches(row + [Link(at, a.weight)], seen + [a], ids)
  {
    forall j: nat | j < |ids| ensures Leads(row + [Link(at, a.weight)], j) <==> Mentions(seen + [a], ids[j]) {
      LeadsSnoc(row, Link(at, a.weight), j);
      MentionsSnoc(seen, a, ids[j]);
      assert at == j <==> ids[at] == ids[j];
    }
  }

  lemma ReachesUnknown(row: Row, seen: seq<Arc>, ids: seq<NodeId>, a: Arc)
    requires Reaches(row, seen, ids) && a.node !in ids
    ensures Reaches(row, seen + [a], ids)
  {
    forall j: nat | j < |ids| ensures Leads(row, j) <==> Mentions(seen + [a], ids[j]) {
      MentionsSnoc(seen, a, ids[j]);
    }
  }

  predicate Negative(seen: seq<Arc>) {
    exists k :: 0 <= k < |seen| && seen[k].weight < 0.0
  }

  /** The registered neighbours as positions; the others are passed over. */
  method KnownPositions(seen: seq<Arc>, ids: seq<NodeId>) returns (row: Row)
    requires Unique(ids)
    ensures Carries(row, seen, ids) && Reaches(row, seen, ids)
    ensures !Negative(seen) ==> forall k :: 0 <= k < |row| ==> row[k].weight >= 0.0
  {
    row := [];
    for k := 0 to |seen|
      invariant Carries(row, seen[..k], ids) && Reaches(row, seen[..k], ids)
      invariant !Negative(seen) ==> forall i :: 0 <= i < |row| ==> row[i].weight >= 0.0
    {
      var a := seen[k];
      var at := Position(ids, a.node);
      match at {
        case Some(i) =>
          CarriesNext(row, seen[..k], ids, a, i);
          ReachesNext(row, seen[..k], ids, a, i);
          row := row + [Link(i, a.weight)];
        case None =>
          CarriesUnknown(row, seen[..k], ids, a);
          ReachesUnknown(row, seen[..k], ids, a);
      }
      assert seen[..k + 1] == seen[..k] + [a];
    }
    assert seen[..|seen|] == seen;
  }

  /** Rows of a stored graph, under a numbering of its nodes: each holds the node's adjacency to the numbered
      nodes and leads exactly to those an edge joins it to. */
  ghost predicate Stored(edges: seq<Edge>, ids: seq<NodeId>, net: Net) {
    |net| == |ids| && forall i :: 0 <= i < |ids| ==> StoredRow(edges, ids, i, net[i])
  }

  ghost predicate StoredRow(edges: seq<Edge>, ids: seq<NodeId>, i: int, row: Row)
    requires 0 <= i < |ids|
  {
    && Inside(row, |ids|)
    && (forall j :: 0 <= j < |ids| ==> WeightTo(row, j) == GraphStore.At(edges, ids, i, j))
    && (forall j: nat :: j < |ids| ==> (Leads(row, j) <==> Joined(edges, ids[i], ids[j])))
  }

  predicate Positive(edges: seq<Edge>) {
    forall k :: 0 <= k < |edges| ==> edges[k].weight >= 0.0
  }

  lemma {:induction false} AdjacencyNonNegative(edges: seq<Edge>, u: NodeId, v: NodeId)
    requires Positive(edges)
    ensures Adjacency(edges, u, v) >= 0.0
  {
    if edges != [] {
      AdjacencyNonNegative(edges[..|edges| - 1], u, v);
    }
  }

  lemma {:induction false} WeightOfUnmentioned(seen: seq<Arc>, v: NodeId)
    requires forall k :: 0 <= k < |seen| ==> seen[k].node != v
    ensures Weight(seen, v) == 0.0
  {
    if seen != [] {
      WeightOfUnmentioned(seen[1..], v);
    }
  }

  lemma {:induction false} WeightOfDistinct(seen: seq<Arc>, k: nat)
    requires Distinct(seen) && k < |seen|
    ensures Weight(seen, seen[k].node) == seen[k].weight
  {
    if k == 0 {
      WeightOfUnmentioned(seen[1..], seen[0].node);
    } else {
      WeightOfDistinct(seen[1..], k - 1);
    }
  }

  lemma NeighboursNonNegative(edges: seq<Edge>, u: NodeId, seen: seq<Arc>)
    requires Positive(edges) && Distinct(seen) && forall v :: Weight(seen, v) == Adjacency(edges, u, v)
    ensures !Negative(seen)
  {
    forall k | 0 <= k < |seen| ensures seen[k].weight >= 0.0 {
      WeightOfDistinct(seen, k);
      AdjacencyNonNegative(edges, u, seen[k].node);
    }
  }

  predicate AllNonNegative(net: Net) {
    forall i, k :: 0 <= i < |net| && 0 <= k < |net[i]| ==> net[i][k].weight >= 0.0
  }

  method ReadRow(g: InMemoryGraph, ids: seq<NodeId>, i: nat) returns (row: Row)
    requires g.Valid() && Unique(ids) && i < |ids|
    ensures StoredRow(g.edges, ids, i, row)
    ensures Positive(g.edges) ==> forall k :: 0 <= k < |row| ==> row[k].weight >= 0.0
  {
    var seen := g.UndirectedNeighbours(ids[i]);
    row := KnownPositions(seen, ids);
    forall v ensures Mentions(seen, v) <==> Joined(g.edges, ids[i], v) {
      NeighboursAreJoined(g.edges, ids[i], v);
    }
    if Positive(g.edges) {
      NeighboursNonNegative(g.edges, ids[i], seen);
    }
  }

  /** The rows of all nodes, unregistered neighbours passed over. */
  method ReadNet(g: InMemoryGraph, ids: seq<NodeId>) returns (net: Net)
    requires g.Valid() && Unique(ids)
    ensures Stored(g.edges, ids, net)
    ensures Positive(g.edges) ==> AllNonNegative(net)
  {
    net := [];
    for i := 0 to |ids|
      invariant |net| == i && forall k :: 0 <= k < i ==> StoredRow(g.edges, ids, k, net[k])
      invariant Positive(g.edges) ==> AllNonNegative(net)
    {
      var row := ReadRow(g, ids, i);
      net := net + [row];
    }
  }
}
