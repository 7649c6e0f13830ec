/** Weighted modularity, and what one move of crates/sap-automate-graph/src/community.rs does to it. */
module Partition {
  import opened Sums
  import opened GraphStore

  type Matrix = (int, int) -> real

  // ----- how one move changes a partition score --------------------------------------------

  function Cell(b: Matrix, c: seq<nat>, i: int, j: int): real {
    if 0 <= i < |c| && 0 <= j < |c| && c[i] == c[j] then b(i, j) else 0.0
  }

  function Cells(b: Matrix, c: seq<nat>, i: int): int -> real {
    j => Cell(b, c, i, j)
  }

  function RowScore(b: Matrix, c: seq<nat>, i: int): real {
    Sum(|c|, Cells(b, c, i))
  }

  function Rows(b: Matrix, c: seq<nat>): int -> real {
    i => RowScore(b, c, i)
  }

  /** The matrix summed over all pairs in one community. */
  function Score(b: Matrix, c: seq<nat>): real {
    Sum(|c|, Rows(b, c))
  }

  function PullAt(b: Matrix, c: seq<nat>, x: int, v: nat, j: int): real {
    if 0 <= j < |c| && j != x && c[j] == v then b(x, j) else 0.0
  }

  function Pulls(b: Matrix, c: seq<nat>, x: int, v: nat): int -> real {
    j => PullAt(b, c, x, v, j)
  }

  /** How strongly the members of community `v`, other than `x` itself, are tied to `x`. */
  function Pull(b: Matrix, c: seq<nat>, x: int, v: nat): real {
    Sum(|c|, Pulls(b, c, x, v))
  }

  ghost predicate Symmetric(b: Matrix) {
    forall i, j :: b(i, j) == b(j, i)
  }

  lemma OwnRow(b: Matrix, c: seq<nat>, x: nat, v: nat)
    requires x < |c|
    ensures RowScore(b, c[x := v], x) == b(x, x) + Pull(b, c, x, v)
  {
    SumPoint(|c|, x, Pulls(b, c, x, v), Cells(b, c[x := v], x));
  }

  lemma OtherRow(b: Matrix, c: seq<nat>, x: nat, v: nat, w: nat, i: nat)
    requires x < |c| && i < |c| && i != x && Symmetric(b)
    ensures RowScore(b, c[x := v], i) == RowScore(b, c[x := w], i) + PullAt(b, c, x, v, i) - PullAt(b, c, x, w, i)
  {
    assert b(i, x) == b(x, i);
    SumPoint(|c|, x, Cells(b, c[x := w], i), Cells(b, c[x := v], i));
  }

  /** Moving `x` from community `w` to `v` changes the score by twice the difference of the pulls. */
  lemma MoveChangesScore(b: Matrix, c: seq<nat>, x: nat, v: nat, w: nat)
    requires x < |c| && Symmetric(b)
    ensures Score(b, c[x := v]) - Score(b, c[x := w]) == 2.0 * (Pull(b, c, x, v) - Pull(b, c, x, w))
  {
    var before, after := Rows(b, c[x := w]), Rows(b, c[x := v]);
    var plus := i => before(i) + PullAt(b, c, x, v, i);
    var mid := i => before(i) + PullAt(b, c, x, v, i) - PullAt(b, c, x, w, i);
    SumAdd(|c|, before, Pulls(b, c, x, v), plus);
    SumAdd(|c|, mid, Pulls(b, c, x, w), plus);
    forall i | 0 <= i < |c| && i != x ensures mid(i) == after(i) {
      OtherRow(b, c, x, v, w, i);
    }
    SumPoint(|c|, x, mid, after);
    OwnRow(b, c, x, v);
    OwnRow(b, c, x, w);
  }

  // ----- modularity ----------------------------------------------------------------------

  function DegreeOf(edges: seq<Edge>, ids: seq<NodeId>, i: int): real {
    DegreeAt(edges, ids)(i)
  }

  /** The weight expected between two nodes by their degrees: k_i k_j / 2m. */
  function ExpectedWeight(a: real, b: real, m: real): real
    requires m != 0.0
  {
    (a / (2.0 * m)) * b
  }

  /** Newman and Girvan's matrix for the undirected weighted graph. */
  function ModularityMatrix(edges: seq<Edge>, ids: seq<NodeId>, m: real): Matrix
    requires m != 0.0
  {
    (i, j) => GraphStore.At(edges, ids, i, j) - ExpectedWeight(DegreeOf(edges, ids, i), DegreeOf(edges, ids, j), m)
  }

  function Modularity(edges: seq<Edge>, ids: seq<NodeId>, m: real, c: seq<nat>): real
    requires m != 0.0
  {
    Score(ModularityMatrix(edges, ids, m), c) / (2.0 * m)
  }

  function TieAt(edges: seq<Edge>, ids: seq<NodeId>, c: seq<nat>, x: int, v: nat, j: int): real {
    if 0 <= j < |c| && j != x && c[j] == v then GraphStore.At(edges, ids, x, j) else 0.0
  }

  function TiesAt(edges: seq<Edge>, ids: seq<NodeId>, c: seq<nat>, x: int, v: nat): int -> real {
    j => TieAt(edges, ids, c, x, v, j)
  }

  /** The weight from `x` into community `v`. */
  function Ties(edges: seq<Edge>, ids: seq<NodeId>, c: seq<nat>, x: int, v: nat): real {
    Sum(|c|, TiesAt(edges, ids, c, x, v))
  }

  function MemberMass(degree: int -> real, c: seq<nat>, x: int, v: nat, j: int): real {
    if 0 <= j < |c| && j != x && c[j] == v then degree(j) else 0.0
  }

  function MassAt(degree: int -> real, c: seq<nat>, x: int, v: nat): int -> real {
    j => MemberMass(degree, c, x, v, j)
  }

  /** The total degree of community `v`, without `x`. */
  function Mass(degree: int -> real, c: seq<nat>, x: int, v: nat): real {
    Sum(|c|, MassAt(degree, c, x, v))
  }

  lemma SquarePositive(m: real, d: real)
    requires m != 0.0 && d == 2.0 * m * m
    ensures d > 0.0
  {
    if m > 0.0 {
      var e := 2.0 * m;
      ProductPositive(e, m);
      assert d == e * m;
    } else {
      var e, f := -2.0 * m, -m;
      ProductPositive(e, f);
      assert d == e * f;
    }
  }

  lemma ProductPositive(a: real, b: real)
    requires a > 0.0 && b > 0.0
    ensures a * b > 0.0
  {}

  /** The code's expression: k_i_to_c / m - sigma_c * k_i / (2 m^2). */
  function GainFormula(ties: real, mass: real, k: real, m: real): real
    requires m != 0.0
  {
    SquarePositive(m, 2.0 * m * m);
    ties / m - (mass * k) / (2.0 * m * m)
  }

  function Gain(edges: seq<Edge>, ids: seq<NodeId>, m: real, c: seq<nat>, x: int, v: nat): real
    requires m != 0.0
  {
    GainFormula(Ties(edges, ids, c, x, v), Mass(DegreeAt(edges, ids), c, x, v), DegreeOf(edges, ids, x), m)
  }

  lemma ExpectedSymmetric(a: real, b: real, m: real)
    requires m != 0.0
    ensures ExpectedWeight(a, b, m) == ExpectedWeight(b, a, m) == a * b / (2.0 * m)
  {
    var d := 2.0 * m;
    assert (a / d) * b == a * b / d && (b / d) * a == a * b / d;
  }

  lemma MatrixSymmetric(edges: seq<Edge>, ids: seq<NodeId>, m: real)
    requires m != 0.0
    ensures Symmetric(ModularityMatrix(edges, ids, m))
  {
    var b := ModularityMatrix(edges, ids, m);
    forall i, j ensures b(i, j) == b(j, i) {
      if 0 <= i < |ids| && 0 <= j < |ids| {
        AdjacencySymmetric(edges, ids[i], ids[j]);
      }
      ExpectedSymmetric(DegreeOf(edges, ids, i), DegreeOf(edges, ids, j), m);
    }
  }

  lemma SameQuotient(a: real, b: real, c: real, d: real)
    requires b != 0.0 && d != 0.0 && a * d == c * b
    ensures a / b == c / d
  {
    assert (a / b) * b == a && (c / d) * d == c;
    assert (a / b - c / d) * (b * d) == a * d - c * b;
  }

  lemma GainAlgebra(ties: real, mass: real, k: real, m: real)
    requires m != 0.0
    ensures (ties - (k / (2.0 * m)) * mass) / m == GainFormula(ties, mass, k, m)
  {
    var q := k / (2.0 * m);
    assert q * (2.0 * m) == k;
    var d := 2.0 * m * m;
    SquarePositive(m, d);
    assert (q * mass) * d == (mass * k) * m by {
      assert (q * mass) * d == (q * (2.0 * m)) * mass * m;
    }
    SameQuotient(q * mass, m, mass * k, d);
    Quotients(ties, q * mass, m);
  }

  lemma PullPoint(edges: seq<Edge>, ids: seq<NodeId>, m: real, c: seq<nat>, x: nat, v: nat, r: real, j: int)
    requires m != 0.0 && r == DegreeOf(edges, ids, x) / (2.0 * m)
    ensures TieAt(edges, ids, c, x, v, j)
            == PullAt(ModularityMatrix(edges, ids, m), c, x, v, j)
               + r * MemberMass(DegreeAt(edges, ids), c, x, v, j)
  {
    assert ModularityMatrix(edges, ids, m)(x, j) == GraphStore.At(edges, ids, x, j) - r * DegreeOf(edges, ids, j);
  }

  function Scaled(r: real, f: int -> real): int -> real {
    j => r * f(j)
  }

  /** Sums of a pointwise split with a constant factor. */
  lemma SumSplit(n: nat, whole: int -> real, part: int -> real, r: real, f: int -> real)
    requires forall j :: 0 <= j < n ==> whole(j) == part(j) + r * f(j)
    ensures Sum(n, whole) == Sum(n, part) + r * Sum(n, f)
  {
    SumScale(n, r, f, Scaled(r, f));
    SumAdd(n, part, Scaled(r, f), whole);
  }

  lemma PullSplits(edges: seq<Edge>, ids: seq<NodeId>, c: seq<nat>, x: nat, v: nat, b: Matrix, degree: int -> real,
                   r: real)
    requires forall j :: 0 <= j < |c| ==>
               TieAt(edges, ids, c, x, v, j) == PullAt(b, c, x, v, j) + r * MemberMass(degree, c, x, v, j)
    ensures Ties(edges, ids, c, x, v) == Pull(b, c, x, v) + r * Mass(degree, c, x, v)
  {
    SumSplit(|c|, TiesAt(edges, ids, c, x, v), Pulls(b, c, x, v), r, MassAt(degree, c, x, v));
  }

  lemma ModularityPullSplits(edges: seq<Edge>, ids: seq<NodeId>, m: real, c: seq<nat>, x: nat, v: nat, r: real)
    requires m != 0.0 && r == DegreeOf(edges, ids, x) / (2.0 * m)
    ensures Ties(edges, ids, c, x, v)
            == Pull(ModularityMatrix(edges, ids, m), c, x, v) + r * Mass(DegreeAt(edges, ids), c, x, v)
  {
    var b, degree := ModularityMatrix(edges, ids, m), DegreeAt(edges, ids);
    forall j | 0 <= j < |c|
      ensures TieAt(edges, ids, c, x, v, j) == PullAt(b, c, x, v, j) + r * MemberMass(degree, c, x, v, j)
    {
      PullPoint(edges, ids, m, c, x, v, r, j);
    }
    PullSplits(edges, ids, c, x, v, b, degree, r);
  }

  lemma PulledGain(ties: real, mass: real, k: real, m: real, pull: real, r: real)
    requires m != 0.0 && r == k / (2.0 * m) && ties == pull + r * mass
    ensures GainFormula(ties, mass, k, m) == pull / m
  {
    GainAlgebra(ties, mass, k, m);
    assert pull == ties - r * mass;
  }

  /** The computed gain is the pull of the modularity matrix, scaled. */
  lemma GainIsPull(edges: seq<Edge>, ids: seq<NodeId>, m: real, c: seq<nat>, x: nat, v: nat)
    requires m != 0.0
    ensures Gain(edges, ids, m, c, x, v) == Pull(ModularityMatrix(edges, ids, m), c, x, v) / m
  {
    var ties, mass, k := Ties(edges, ids, c, x, v), Mass(DegreeAt(edges, ids), c, x, v), DegreeOf(edges, ids, x);
    var pull, r := Pull(ModularityMatrix(edges, ids, m), c, x, v), k / (2.0 * m);
    ModularityPullSplits(edges, ids, m, c, x, v, r);
    PulledGain(ties, mass, k, m, pull, r);
  }

  lemma Halves(s: real, t: real, m: real)
    requires m != 0.0
    ensures (2.0 * (s - t)) / (2.0 * m) == s / m - t / m
  {}

  lemma Quotients(x: real, y: real, d: real)
    requires d != 0.0
    ensures x / d - y / d == (x - y) / d
  {}

  /** For every move: the change of modularity is the gain at the target less the gain of staying. */
  lemma MoveChangesModularity(edges: seq<Edge>, ids: seq<NodeId>, m: real, c: seq<nat>, x: nat, v: nat, w: nat)
    requires m != 0.0 && x < |c|
    ensures Modularity(edges, ids, m, c[x := v]) - Modularity(edges, ids, m, c[x := w])
            == Gain(edges, ids, m, c, x, v) - Gain(edges, ids, m, c, x, w)
  {
    var b := ModularityMatrix(edges, ids, m);
    MatrixSymmetric(edges, ids, m);
    MoveChangesScore(b, c, x, v, w);
    GainIsPull(edges, ids, m, c, x, v);
    GainIsPull(edges, ids, m, c, x, w);
    Quotients(Score(b, c[x := v]), Score(b, c[x := w]), 2.0 * m);
    Halves(Pull(b, c, x, v), Pull(b, c, x, w), m);
  }

  predicate Alone(c: seq<nat>, x: nat, v: nat) {
    forall j :: 0 <= j < |c| && j != x ==> c[j] != v
  }

  /** The computed gain is exactly Q(x in v) - Q(x alone). */
  lemma GainIsModularityDifference(edges: seq<Edge>, ids: seq<NodeId>, m: real, c: seq<nat>, x: nat, v: nat, w: nat)
    requires m != 0.0 && x < |c| && Alone(c, x, w)
    ensures Gain(edges, ids, m, c, x, v) == Modularity(edges, ids, m, c[x := v]) - Modularity(edges, ids, m, c[x := w])
  {
    MoveChangesModularity(edges, ids, m, c, x, v, w);
    GainIsPull(edges, ids, m, c, x, w);
    SumZero(|c|, Pulls(ModularityMatrix(edges, ids, m), c, x, w));
  }

  /** A move raises modularity exactly when its gain exceeds the gain of staying; out of a
      one-member community that is the code's own test, gain > 0. */
  lemma MoveRaisesModularity(edges: seq<Edge>, ids: seq<NodeId>, m: real, c: seq<nat>, x: nat, v: nat)
    requires m != 0.0 && x < |c|
    ensures Modularity(edges, ids, m, c[x := v]) > Modularity(edges, ids, m, c)
            <==> Gain(edges, ids, m, c, x, v) > Gain(edges, ids, m, c, x, c[x])
    ensures Alone(c, x, c[x]) ==>
              (Gain(edges, ids, m, c, x, v) > 0.0
               <==> Modularity(edges, ids, m, c[x := v]) > Modularity(edges, ids, m, c))
  {
    assert c[x := c[x]] == c;
    MoveChangesModularity(edges, ids, m, c, x, v, c[x]);
    if Alone(c, x, c[x]) {
      GainIsModularityDifference(edges, ids, m, c, x, v, c[x]);
    }
  }
}
