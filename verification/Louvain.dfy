/** Community detection by greedy modularity moves (crates/sap-automate-graph/src/community.rs). */
module Louvain {
  import opened Wrappers
  import opened Sums
  import opened Rows
  import opened GraphStore
  import opened StoredRows
  import opened Partition

  // ----- the greedy passes ---------------------------------------------------------------

  function Toward(ties: Row, c: seq<nat>, v: nat): real
    requires Inside(ties, |c|)
  {
    if ties == [] then 0.0
    else
      var t := ties[|ties| - 1];
      Toward(ties[..|ties| - 1], c, v) + if c[t.to] == v then t.weight else 0.0
  }

  /** Some neighbour lives in community `v`. */
  predicate Adjoins(ties: Row, c: seq<nat>, v: nat)
    requires Inside(ties, |c|)
  {
    exists k :: 0 <= k < |ties| && c[ties[k].to] == v
  }

  function TableEntry(m: map<nat, real>, v: nat): real {
    if v in m then m[v] else 0.0
  }

  method SumByCommunity(ties: Row, c: seq<nat>) returns (toComm: map<nat, real>)
    requires Inside(ties, |c|)
    ensures forall v: nat :: v in toComm <==> Adjoins(ties, c, v)
    ensures forall v: nat :: TableEntry(toComm, v) == Toward(ties, c, v)
  {
    toComm := map[];
    for k := 0 to |ties|
      invariant forall v: nat :: v in toComm <==> Adjoins(ties[..k], c, v)
      invariant forall v: nat :: TableEntry(toComm, v) == Toward(ties[..k], c, v)
    {
      var t := ties[k];
      assert ties[..k + 1][..k] == ties[..k];
      forall v: nat ensures Adjoins(ties[..k + 1], c, v) <==> Adjoins(ties[..k], c, v) || c[t.to] == v {
        AdjoinsNext(ties, c, v, k);
      }
      toComm := toComm[c[t.to] := TableEntry(toComm, c[t.to]) + t.weight];
    }
    assert ties[..|ties|] == ties;
  }

  lemma AdjoinsNext(ties: Row, c: seq<nat>, v: nat, k: nat)
    requires Inside(ties, |c|) && k < |ties|
    ensures Adjoins(ties[..k + 1], c, v) <==> Adjoins(ties[..k], c, v) || c[ties[k].to] == v
  {
    if Adjoins(ties[..k], c, v) {
      var j :| 0 <= j < k && c[ties[..k][j].to] == v;
      assert ties[..k + 1][j] == ties[..k][j];
    }
    if c[ties[k].to] == v {
      assert ties[..k + 1][k] == ties[k];
    }
    if Adjoins(ties[..k + 1], c, v) && c[ties[k].to] != v {
      var j :| 0 <= j < k + 1 && c[ties[..k + 1][j].to] == v;
      assert ties[..k][j] == ties[..k + 1][j];
    }
  }

  function Degrees(degree: seq<real>): int -> real {
    i => if 0 <= i < |degree| then degree[i] else 0.0
  }

  method MassByCommunity(c: seq<nat>, degree: seq<real>, x: nat) returns (sigma: map<nat, real>)
    requires |degree| == |c|
    ensures forall v: nat :: TableEntry(sigma, v) == Mass(Degrees(degree), c, x, v)
  {
    sigma := map[];
    for j := 0 to |c|
      invariant forall v: nat :: TableEntry(sigma, v) == Sum(j, MassAt(Degrees(degree), c, x, v))
    {
      forall v: nat ensures MassAt(Degrees(degree), c, x, v)(j) == if j != x && c[j] == v then degree[j] else 0.0 {}
      if j != x {
        sigma := sigma[c[j] := TableEntry(sigma, c[j]) + degree[j]];
      }
    }
  }

  /** The gain the pass computes for moving `x` into community `v`. */
  function MoveGain(ties: Row, c: seq<nat>, degree: seq<real>, x: nat, m: real, v: nat): real
    requires Inside(ties, |c|) && x < |degree| && m != 0.0
  {
    GainFormula(Toward(ties, c, v), Mass(Degrees(degree), c, x, v), degree[x], m)
  }

  /** `v` is a community the pass considers for `x`. */
  predicate Candidate(ties: Row, c: seq<nat>, x: nat, v: nat)
    requires Inside(ties, |c|) && x < |c|
  {
    v != c[x] && Adjoins(ties, c, v)
  }

  /** `best` is the first candidate, in ascending order, of the largest positive gain, or the current
      community if no candidate gains anything. */
  ghost predicate Picks(ties: Row, c: seq<nat>, degree: seq<real>, x: nat, m: real, best: nat)
    requires |degree| == |c| && x < |c| && Inside(ties, |c|) && m != 0.0
  {
    if best == c[x] then forall v: nat :: Candidate(ties, c, x, v) ==> MoveGain(ties, c, degree, x, m, v) <= 0.0
    else
      && Candidate(ties, c, x, best) && MoveGain(ties, c, degree, x, m, best) > 0.0
      && forall v: nat :: Candidate(ties, c, x, v) ==>
           && MoveGain(ties, c, degree, x, m, v) <= MoveGain(ties, c, degree, x, m, best)
           && (v < best ==> MoveGain(ties, c, degree, x, m, v) < MoveGain(ties, c, degree, x, m, best))
  }

  method PickCommunity(ties: Row, c: seq<nat>, degree: seq<real>, x: nat, m: real) returns (best: nat)
    requires |degree| == |c| && x < |c| && Inside(ties, |c|) && m != 0.0
    requires forall j :: 0 <= j < |c| ==> c[j] < |c|
    ensures best < |c| && Picks(ties, c, degree, x, m, best)
  {
    var toComm := SumByCommunity(ties, c);
    var sigma := MassByCommunity(c, degree, x);
    best := c[x];
    var bestGain := 0.0;
    for cand := 0 to |c|
      invariant best < |c| && bestGain >= 0.0
      invariant best == c[x] ==> bestGain == 0.0
      invariant best != c[x] ==>
                  best < cand && Candidate(ties, c, x, best) && bestGain == MoveGain(ties, c, degree, x, m, best) > 0.0
      invariant forall v: nat :: v < cand && Candidate(ties, c, x, v) ==>
                  MoveGain(ties, c, degree, x, m, v) <= bestGain
      invariant forall v: nat :: v < best && best != c[x] && Candidate(ties, c, x, v) ==>
                  MoveGain(ties, c, degree, x, m, v) < bestGain
    {
      if cand in toComm && cand != c[x] {
        var gain := GainFormula(toComm[cand], TableEntry(sigma, cand), degree[x], m);
        assert toComm[cand] == TableEntry(toComm, cand);
        assert gain == MoveGain(ties, c, degree, x, m, cand);
        if gain > bestGain {
          best, bestGain := cand, gain;
        }
      }
    }
    forall v: nat | Candidate(ties, c, x, v) ensures v < |c| {}
  }

  /** No node finds a candidate with a positive gain. */
  ghost predicate Settled(rows: Net, c: seq<nat>, degree: seq<real>, m: real)
    requires |rows| == |c| == |degree| && m != 0.0 && forall i :: 0 <= i < |rows| ==> Inside(rows[i], |c|)
  {
    forall x: nat, v: nat :: x < |c| && Candidate(rows[x], c, x, v) ==> MoveGain(rows[x], c, degree, x, m, v) <= 0.0
  }

  /** The inputs fit together: one row of neighbours, one degree and one community for each node. */
  predicate Fits(rows: Net, degree: seq<real>, m: real, c: seq<nat>) {
    && |rows| == |degree| == |c| && m != 0.0 && (forall i :: 0 <= i < |rows| ==> Inside(rows[i], |rows|))
    && (forall j :: 0 <= j < |c| ==> c[j] < |c|)
  }

  /** Node `x` takes its turn: it goes where the gains send it and no other node moves. */
  ghost predicate Turn(rows: Net, degree: seq<real>, m: real, x: nat, c: seq<nat>, c': seq<nat>) {
    && Fits(rows, degree, m, c) && x < |c| && |c'| == |c| && c' == c[x := c'[x]]
    && Picks(rows[x], c, degree, x, m, c'[x])
  }

  /** Each node in order has taken its turn. */
  ghost predicate TurnsTaken(rows: Net, degree: seq<real>, m: real, states: seq<seq<nat>>, n: nat) {
    |states| == n + 1 && forall x: nat :: x < n ==> Turn(rows, degree, m, x, states[x], states[x + 1])
  }

  ghost predicate Passed(rows: Net, degree: seq<real>, m: real, c: seq<nat>, c': seq<nat>) {
    exists states :: TurnsTaken(rows, degree, m, states, |rows|) && states[0] == c && states[|rows|] == c'
  }

  predicate Singletons(c: seq<nat>, n: nat) {
    |c| == n && forall i :: 0 <= i < n ==> c[i] == i
  }

  /** A run of passes from singletons to `c`. `stages` are the partitions between the passes; if fewer than
      eight were made, the partition is a local optimum of the code's test. */
  ghost predicate Ran(rows: Net, degree: seq<real>, m: real, c: seq<nat>, stages: seq<seq<nat>>) {
    && Fits(rows, degree, m, c) && 1 <= |stages| <= 9
    && Singletons(stages[0], |rows|) && stages[|stages| - 1] == c
    && (forall k: nat :: k + 1 < |stages| ==> Passed(rows, degree, m, stages[k], stages[k + 1]))
    && (|stages| < 9 ==> Settled(rows, c, degree, m))
  }

  ghost predicate Detected(rows: Net, degree: seq<real>, m: real, c: seq<nat>) {
    exists stages :: Ran(rows, degree, m, c, stages)
  }

  /** At most eight passes; none at all if the total weight is zero. */
  method DetectCommunities(rows: Net, degree: seq<real>, m: real) returns (c: seq<nat>)
    requires |rows| == |degree| && forall i :: 0 <= i < |rows| ==> Inside(rows[i], |rows|)
    ensures if m == 0.0 then Singletons(c, |rows|) else Detected(rows, degree, m, c)
  {
    var n := |rows|;
    c := seq(n, i requires 0 <= i < n => i as nat);
    if m == 0.0 {
      return;
    }
    ghost var stages := [c];
    var moved, passes := true, 0;
    while moved && passes < 8
      invariant Fits(rows, degree, m, c) && passes <= 8
      invariant !moved ==> Settled(rows, c, degree, m)
      invariant |stages| == passes + 1 && stages[passes] == c && Singletons(stages[0], n)
      invariant forall k: nat :: k < passes ==> Passed(rows, degree, m, stages[k], stages[k + 1])
      decreases 8 - passes
    {
      c, moved := Pass(rows, c, degree, m);
      passes := passes + 1;
      stages := stages + [c];
    }
    assert Ran(rows, degree, m, c, stages);
  }

  method Pass(rows: Net, c0: seq<nat>, degree: seq<real>, m: real) returns (c: seq<nat>, moved: bool)
    requires Fits(rows, degree, m, c0)
    ensures Fits(rows, degree, m, c) && Passed(rows, degree, m, c0, c)
    ensures !moved ==> c == c0 && Settled(rows, c, degree, m)
  {
    c, moved := c0, false;
    ghost var states := [c0];
    for x := 0 to |rows|
      invariant Fits(rows, degree, m, c) && (!moved ==> c == c0)
      invariant TurnsTaken(rows, degree, m, states, x) && states[0] == c0 && states[x] == c
      invariant !moved ==> forall y: nat, v: nat :: y < x && Candidate(rows[y], c, y, v) ==>
                             MoveGain(rows[y], c, degree, y, m, v) <= 0.0
    {
      var best := PickCommunity(rows[x], c, degree, x, m);
      if best != c[x] {
        c, moved := c[x := best], true;
      }
      TurnsGrow(rows, degree, m, states, x, c);
      states := states + [c];
    }
  }

  lemma TurnsGrow(rows: Net, degree: seq<real>, m: real, states: seq<seq<nat>>, x: nat, c: seq<nat>)
    requires TurnsTaken(rows, degree, m, states, x) && Turn(rows, degree, m, x, states[x], c)
    ensures TurnsTaken(rows, degree, m, states + [c], x + 1)
  {
    var grown := states + [c];
    forall y: nat | y < x + 1 ensures Turn(rows, degree, m, y, grown[y], grown[y + 1]) {
      if y < x {
        assert Turn(rows, degree, m, y, states[y], states[y + 1]);
      }
    }
  }

  // ----- the outcome is determined ---------------------------------------------------------

  lemma PickIsUnique(ties: Row, c: seq<nat>, degree: seq<real>, x: nat, m: real, a: nat, b: nat)
    requires |degree| == |c| && x < |c| && Inside(ties, |c|) && m != 0.0
    requires Picks(ties, c, degree, x, m, a) && Picks(ties, c, degree, x, m, b)
    ensures a == b
  {
  }

  lemma {:induction false} TurnsAreUnique(rows: Net, degree: seq<real>, m: real, s: seq<seq<nat>>, t: seq<seq<nat>>,
                                          n: nat, x: nat)
    requires TurnsTaken(rows, degree, m, s, n) && TurnsTaken(rows, degree, m, t, n) && s[0] == t[0] && x <= n
    ensures s[x] == t[x]
  {
    if x > 0 {
      TurnsAreUnique(rows, degree, m, s, t, n, x - 1);
      assert Turn(rows, degree, m, x - 1, s[x - 1], s[(x - 1) + 1]);
      assert Turn(rows, degree, m, x - 1, t[x - 1], t[(x - 1) + 1]);
      PickIsUnique(rows[x - 1], s[x - 1], degree, x - 1, m, s[x][x - 1], t[x][x - 1]);
    }
  }

  /** A pass leaves no choice: the partition it ends in is determined by the one it starts from. */
  lemma PassIsDeterministic(rows: Net, degree: seq<real>, m: real, c: seq<nat>, a: seq<nat>, b: seq<nat>)
    requires Passed(rows, degree, m, c, a) && Passed(rows, degree, m, c, b)
    ensures a == b
  {
    var s :| TurnsTaken(rows, degree, m, s, |rows|) && s[0] == c && s[|rows|] == a;
    var t :| TurnsTaken(rows, degree, m, t, |rows|) && t[0] == c && t[|rows|] == b;
    TurnsAreUnique(rows, degree, m, s, t, |rows|, |rows|);
  }

  // ----- the pass works on the matrix view -----------------------------------------------

  function TowardAt(ties: Row, c: seq<nat>, v: nat): int -> real {
    j => if 0 <= j < |c| && c[j] == v then WeightTo(ties, j) else 0.0
  }

  lemma {:induction false} TowardIsSum(ties: Row, c: seq<nat>, v: nat)
    requires Inside(ties, |c|)
    ensures Toward(ties, c, v) == Sum(|c|, TowardAt(ties, c, v))
  {
    if ties == [] {
      SumZero(|c|, TowardAt(ties, c, v));
    } else {
      var front, t := ties[..|ties| - 1], ties[|ties| - 1];
      TowardIsSum(front, c, v);
      var w := if c[t.to] == v then t.weight else 0.0;
      SumSpike(|c|, t.to, w);
      SumAdd(|c|, TowardAt(front, c, v), Spike(t.to, w), TowardAt(ties, c, v));
    }
  }

  /** Rows and degrees as the stored graph gives them, under a numbering of its nodes. */
  predicate Matches(edges: seq<Edge>, ids: seq<NodeId>, rows: Net, degree: seq<real>) {
    && |rows| == |degree| == |ids|
    && (forall i :: 0 <= i < |ids| ==> RowMatches(edges, ids, i, rows[i]) && degree[i] == Degree(edges, ids[i]))
  }

  predicate RowMatches(edges: seq<Edge>, ids: seq<NodeId>, i: nat, row: Row) {
    Inside(row, |ids|) && forall j :: 0 <= j < |ids| ==> WeightTo(row, j) == GraphStore.At(edges, ids, i, j)
  }

  /** On the neighbour lists of a stored graph, the gain of a pass is the gain of the modularity. */
  lemma MoveGainIsGain(edges: seq<Edge>, ids: seq<NodeId>, rows: Net, c: seq<nat>, degree: seq<real>, x: nat,
                       m: real, v: nat)
    requires m != 0.0 && |ids| == |c| && x < |c| && v != c[x] && Matches(edges, ids, rows, degree)
    ensures MoveGain(rows[x], c, degree, x, m, v) == Gain(edges, ids, m, c, x, v)
  {
    assert RowMatches(edges, ids, x, rows[x]);
    TowardIsSum(rows[x], c, v);
    SumSame(|c|, TowardAt(rows[x], c, v), TiesAt(edges, ids, c, x, v));
    SumSame(|c|, MassAt(Degrees(degree), c, x, v), MassAt(DegreeAt(edges, ids), c, x, v));
  }

  /** Every turn of every pass over a stored graph: if the node moves, modularity rises exactly when the
      gain exceeds the gain of staying, and always when the node was alone in its community. */
  lemma TurnRaisesModularity(edges: seq<Edge>, ids: seq<NodeId>, rows: Net, degree: seq<real>, m: real, x: nat,
                             c: seq<nat>, c': seq<nat>)
    requires Turn(rows, degree, m, x, c, c') && c' != c && Matches(edges, ids, rows, degree)
    ensures Modularity(edges, ids, m, c') > Modularity(edges, ids, m, c)
            <==> Gain(edges, ids, m, c, x, c'[x]) > Gain(edges, ids, m, c, x, c[x])
    ensures Alone(c, x, c[x]) ==> Modularity(edges, ids, m, c') > Modularity(edges, ids, m, c)
  {
    var v := c'[x];
    assert v != c[x];
    MoveGainIsGain(edges, ids, rows, c, degree, x, m, v);
    MoveRaisesModularity(edges, ids, m, c, x, v);
  }

  // ----- from the store ------------------------------------------------------------------

  /** No edge has just one registered end. */
  predicate Closed(edges: seq<Edge>, ids: seq<NodeId>) {
    forall k :: 0 <= k < |edges| ==> (edges[k].from in ids <==> edges[k].to in ids)
  }

  /** Every neighbour of `u` is registered. */
  ghost predicate Surrounded(edges: seq<Edge>, ids: seq<NodeId>, u: NodeId) {
    forall v :: Joined(edges, u, v) ==> v in ids
  }

  lemma ClosedMeansSurrounded(edges: seq<Edge>, ids: seq<NodeId>)
    ensures Closed(edges, ids) <==> forall u :: u in ids ==> Surrounded(edges, ids, u)
  {
    if forall u :: u in ids ==> Surrounded(edges, ids, u) {
      forall k | 0 <= k < |edges| ensures edges[k].from in ids <==> edges[k].to in ids {
        assert Joined(edges, edges[k].from, edges[k].to) && Joined(edges, edges[k].to, edges[k].from);
      }
    }
  }

  /** The neighbours of node `i` as positions, or the panic of looking up one that is not registered. */
  method NodeRow(g: InMemoryGraph, ids: seq<NodeId>, i: nat) returns (row: Option<Row>, degree: real)
    requires g.Valid() && i < |ids| && Unique(ids)
    ensures degree == Degree(g.edges, ids[i])
    ensures row.Some? <==> Surrounded(g.edges, ids, ids[i])
    ensures row.Some? ==> RowMatches(g.edges, ids, i, row.value)
  {
    var seen := g.UndirectedNeighbours(ids[i]);
    degree := SumWeights(seen);
    forall v ensures Mentions(seen, v) <==> Joined(g.edges, ids[i], v) {
      NeighboursAreJoined(g.edges, ids[i], v);
    }
    row := AllPositions(seen, ids);
    if row.None? {
      var k :| 0 <= k < |seen| && seen[k].node !in ids;
      assert Mentions(seen, seen[k].node);
    }
  }

  method SumWeights(seen: seq<Arc>) returns (total: real)
    ensures total == Total(seen)
  {
    total := 0.0;
    for k := 0 to |seen|
      invariant total + Total(seen[k..]) == Total(seen)
    {
      assert seen[k..][1..] == seen[k + 1..];
      total := total + seen[k].weight;
    }
  }

  /** Rows and degrees of all nodes; `None` if some row panics. */
  method ReadGraph(g: InMemoryGraph, ids: seq<NodeId>) returns (rows: Option<Net>, degree: seq<real>)
    requires g.Valid() && Unique(ids)
    ensures |degree| == |ids| && forall i :: 0 <= i < |ids| ==> degree[i] == Degree(g.edges, ids[i])
    ensures rows.Some? <==> Closed(g.edges, ids)
    ensures rows.Some? ==> Matches(g.edges, ids, rows.value, degree)
  {
    rows, degree := Some([]), [];
    for i := 0 to |ids|
      invariant |degree| == i && forall k :: 0 <= k < i ==> degree[k] == Degree(g.edges, ids[k])
      invariant rows.Some? <==> forall k :: 0 <= k < i ==> Surrounded(g.edges, ids, ids[k])
      invariant rows.Some? ==>
                  |rows.value| == i && forall k :: 0 <= k < i ==> RowMatches(g.edges, ids, k, rows.value[k])
    {
      var row, d := NodeRow(g, ids, i);
      degree := degree + [d];
      rows := if rows.Some? && row.Some? then Some(rows.value + [row.value]) else None;
    }
    ClosedMeansSurrounded(g.edges, ids);
  }

  /** Half the sum of the degrees. */
  function HalfDegrees(edges: seq<Edge>, ids: seq<NodeId>): real {
    Sum(|ids|, DegreeAt(edges, ids)) / 2.0
  }

  /** Community detection on a stored graph whose nodes are `ids`, in sorted order. It panics exactly when
      some edge has just one registered end and the total weight is not zero; otherwise it is a run of passes
      over the graph's own rows and degrees, or singletons when the total weight is zero. */
  method DetectInGraph(g: InMemoryGraph, ids: seq<NodeId>) returns (r: Option<seq<nat>>)
    requires g.Valid() && Lists(ids, g.nodes)
    ensures var m := HalfDegrees(g.edges, ids);
            && (r.None? <==> m != 0.0 && !Closed(g.edges, ids))
            && (m == 0.0 ==> Singletons(r.value, |ids|))
            && (m != 0.0 && r.Some? ==> DetectedIn(g.edges, ids, m, r.value))
  {
    var rows, degree := ReadGraph(g, ids);
    var m := TotalWeight(degree, g.edges, ids);
    if m == 0.0 {
      r := Some(seq(|ids|, i requires 0 <= i < |ids| => i as nat));
    } else if rows.None? {
      r := None;
    } else {
      MatchingRowsAreValid(g.edges, ids, rows.value, degree);
      var c := DetectCommunities(rows.value, degree, m);
      r := Some(c);
      assert DetectedIn(g.edges, ids, m, c);
    }
  }

  /** The communities of a run over rows and degrees of the stored graph. */
  ghost predicate DetectedIn(edges: seq<Edge>, ids: seq<NodeId>, m: real, c: seq<nat>) {
    exists rows, degree :: Matches(edges, ids, rows, degree) && Detected(rows, degree, m, c)
  }

  lemma MatchingRowsAreValid(edges: seq<Edge>, ids: seq<NodeId>, rows: Net, degree: seq<real>)
    requires Matches(edges, ids, rows, degree)
    ensures |rows| == |degree| == |ids| && forall i :: 0 <= i < |rows| ==> Inside(rows[i], |rows|)
  {
    forall i | 0 <= i < |rows| ensures Inside(rows[i], |rows|) {
      assert RowMatches(edges, ids, i, rows[i]);
    }
  }

  method TotalWeight(degree: seq<real>, ghost edges: seq<Edge>, ghost ids: seq<NodeId>) returns (m: real)
    requires |degree| == |ids| && forall i :: 0 <= i < |ids| ==> degree[i] == Degree(edges, ids[i])
    ensures m == HalfDegrees(edges, ids)
  {
    var total := 0.0;
    for i := 0 to |degree|
      invariant total == Sum(i, Degrees(degree))
    {
      total := total + degree[i];
    }
    SumSame(|ids|, Degrees(degree), DegreeAt(edges, ids));
    m := total / 2.0;
  }

  // ----- gain > 0 alone does not raise modularity ------------------------------------------

  const A: NodeId := "a"
  const B: NodeId := "b"
  const C: NodeId := "c"

  /** `b` is tied to `a` by weight 3 and to `c` by weight 1. */
  const CHAIN: seq<Edge> := [Edge(A, B, 3.0), Edge(B, C, 1.0)]
  const CHAIN_ROWS: Net := [[Link(1, 3.0)], [Link(0, 3.0), Link(2, 1.0)], [Link(1, 1.0)]]
  const CHAIN_DEGREES: seq<real> := [3.0, 4.0, 1.0]

  lemma ChainNumbers()
    ensures Adjacency(CHAIN, A, A) == 0.0 && Adjacency(CHAIN, A, B) == 3.0 && Adjacency(CHAIN, A, C) == 0.0
    ensures Adjacency(CHAIN, B, A) == 3.0 && Adjacency(CHAIN, B, B) == 0.0 && Adjacency(CHAIN, B, C) == 1.0
    ensures Adjacency(CHAIN, C, A) == 0.0 && Adjacency(CHAIN, C, B) == 1.0 && Adjacency(CHAIN, C, C) == 0.0
    ensures Degree(CHAIN, A) == 3.0 && Degree(CHAIN, B) == 4.0 && Degree(CHAIN, C) == 1.0
  {
    var one := [Edge(A, B, 3.0)];
    assert CHAIN[..1] == one && one[..0] == [];
    assert Adjacency(one, A, A) == 0.0 && Adjacency(one, A, B) == 3.0 && Adjacency(one, A, C) == 0.0;
    assert Adjacency(one, B, A) == 3.0 && Adjacency(one, B, B) == 0.0 && Adjacency(one, B, C) == 0.0;
    assert Adjacency(one, C, A) == 0.0 && Adjacency(one, C, B) == 0.0 && Adjacency(one, C, C) == 0.0;
    assert Degree(one, A) == 3.0 && Degree(one, B) == 3.0 && Degree(one, C) == 0.0;
  }

  lemma ChainMatches()
    ensures Matches(CHAIN, [A, B, C], CHAIN_ROWS, CHAIN_DEGREES) && HalfDegrees(CHAIN, [A, B, C]) == 4.0
  {
    ChainNumbers();
    SumOfThree(DegreeAt(CHAIN, [A, B, C]));
    assert CHAIN_ROWS[0][..0] == [] && CHAIN_ROWS[1][..1] == [Link(0, 3.0)] && [Link(0, 3.0)][..0] == []
        && CHAIN_ROWS[2][..0] == [];
    forall i | 0 <= i < 3 ensures RowMatches(CHAIN, [A, B, C], i, CHAIN_ROWS[i]) {
    }
  }

  lemma SumOfThree(f: int -> real)
    ensures Sum(3, f) == f(0) + f(1) + f(2)
  {
    assert Sum(3, f) == Sum(2, f) + f(2) && Sum(2, f) == Sum(1, f) + f(1) && Sum(1, f) == f(0);
  }

  lemma ChainGain(c: seq<nat>, x: nat, v: nat, ties: real, mass: real)
    requires |c| == 3 && x < 3
    requires ties == Toward(CHAIN_ROWS[x], c, v)
    requires mass == MemberMass(Degrees(CHAIN_DEGREES), c, x, v, 0) + MemberMass(Degrees(CHAIN_DEGREES), c, x, v, 1)
                     + MemberMass(Degrees(CHAIN_DEGREES), c, x, v, 2)
    ensures MoveGain(CHAIN_ROWS[x], c, CHAIN_DEGREES, x, 4.0, v) == ties / 4.0 - mass * CHAIN_DEGREES[x] / 32.0
  {
    SumOfThree(MassAt(Degrees(CHAIN_DEGREES), c, x, v));
  }

  /** First `a` joins `b`. */
  lemma FirstTurn()
    ensures Turn(CHAIN_ROWS, CHAIN_DEGREES, 4.0, 0, [0, 1, 2], [1, 1, 2])
  {
    var c: seq<nat>, c': seq<nat> := [0, 1, 2], [1, 1, 2];
    assert c[0 := 1] == c' && CHAIN_ROWS[0][..0] == [];
    assert forall v: nat :: Candidate(CHAIN_ROWS[0], c, 0, v) ==> v == 1;
    assert c[CHAIN_ROWS[0][0].to] == 1;
    ChainGain(c, 0, 1, 3.0, 4.0);
  }

  /** Then `b` leaves it for `c`, because its gain there is positive. */
  lemma SecondTurn()
    ensures Turn(CHAIN_ROWS, CHAIN_DEGREES, 4.0, 1, [1, 1, 2], [1, 2, 2])
    ensures MoveGain(CHAIN_ROWS[1], [1, 1, 2], CHAIN_DEGREES, 1, 4.0, 2) == 0.125
  {
    var c: seq<nat>, c': seq<nat> := [1, 1, 2], [1, 2, 2];
    assert c[1 := 2] == c' && CHAIN_ROWS[1][..1] == [Link(0, 3.0)] && [Link(0, 3.0)][..0] == [];
    assert forall v: nat :: Candidate(CHAIN_ROWS[1], c, 1, v) ==> v == 2;
    assert c[CHAIN_ROWS[1][1].to] == 2;
    ChainGain(c, 1, 2, 1.0, 1.0);
  }

  /** And `c` stays. */
  lemma ThirdTurn()
    ensures Turn(CHAIN_ROWS, CHAIN_DEGREES, 4.0, 2, [1, 2, 2], [1, 2, 2])
  {
    var c: seq<nat> := [1, 2, 2];
    assert c[2 := 2] == c;
    assert forall v: nat :: !Candidate(CHAIN_ROWS[2], c, 2, v);
  }

  lemma ThreeTurns(rows: Net, degree: seq<real>, m: real, s0: seq<nat>, s1: seq<nat>, s2: seq<nat>, s3: seq<nat>)
    requires |rows| == 3
    requires Turn(rows, degree, m, 0, s0, s1) && Turn(rows, degree, m, 1, s1, s2) && Turn(rows, degree, m, 2, s2, s3)
    ensures Passed(rows, degree, m, s0, s3)
  {
    var states := [s0, s1, s2, s3];
    assert TurnsTaken(rows, degree, m, states, 3);
    assert states[0] == s0 && states[3] == s3;
  }

  lemma ChainPasses()
    ensures Passed(CHAIN_ROWS, CHAIN_DEGREES, 4.0, [0, 1, 2], [1, 2, 2])
  {
    FirstTurn();
    SecondTurn();
    ThirdTurn();
    ThreeTurns(CHAIN_ROWS, CHAIN_DEGREES, 4.0, [0, 1, 2], [1, 1, 2], [1, 2, 2], [1, 2, 2]);
  }

  /** The first pass over a stored graph of three nodes: its second turn follows a positive gain and lowers
      modularity by a quarter. */
  lemma PassCanLowerModularity()
    ensures var ids, m := [A, B, C], 4.0;
            && Matches(CHAIN, ids, CHAIN_ROWS, CHAIN_DEGREES) && HalfDegrees(CHAIN, ids) == m
            && Passed(CHAIN_ROWS, CHAIN_DEGREES, m, [0, 1, 2], [1, 2, 2])
            && Turn(CHAIN_ROWS, CHAIN_DEGREES, m, 0, [0, 1, 2], [1, 1, 2])
            && Turn(CHAIN_ROWS, CHAIN_DEGREES, m, 1, [1, 1, 2], [1, 2, 2])
            && Modularity(CHAIN, ids, m, [1, 2, 2]) == Modularity(CHAIN, ids, m, [1, 1, 2]) - 0.25
  {
    ChainMatches();
    FirstTurn();
    SecondTurn();
    ChainPasses();
    ChainDrop();
  }

  lemma ChainDrop()
    ensures Modularity(CHAIN, [A, B, C], 4.0, [1, 2, 2]) == Modularity(CHAIN, [A, B, C], 4.0, [1, 1, 2]) - 0.25
  {
    var c: seq<nat>, ids := [1, 1, 2], [A, B, C];
    assert c[1 := 2] == [1, 2, 2] && c[1 := 1] == c;
    ChainNumbers();
    SumOfThree(TiesAt(CHAIN, ids, c, 1, 1));
    SumOfThree(TiesAt(CHAIN, ids, c, 1, 2));
    SumOfThree(MassAt(DegreeAt(CHAIN, ids), c, 1, 1));
    SumOfThree(MassAt(DegreeAt(CHAIN, ids), c, 1, 2));
    assert Gain(CHAIN, ids, 4.0, c, 1, 1) == 0.375 && Gain(CHAIN, ids, 4.0, c, 1, 2) == 0.125;
    MoveChangesModularity(CHAIN, ids, 4.0, c, 1, 2, 1);
  }
}
