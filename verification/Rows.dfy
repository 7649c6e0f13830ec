/** Weighted neighbour lists by position, as the graph algorithms use them. */
module Rows {

  datatype Link = Link(to: nat, weight: real)

  type Row = seq<Link>

  type Net = seq<Row>

  /** The weight of a row to a position. */
  function WeightTo(row: Row, j: int): real {
    if row == [] then 0.0
    else WeightTo(row[..|row| - 1], j) + if row[|row| - 1].to == j then row[|row| - 1].weight else 0.0
  }

  lemma WeightNext(front: Row, l: Link, j: int)
    ensures WeightTo(front + [l], j) == WeightTo(front, j) + if l.to == j then l.weight else 0.0
  {
    assert (front + [l])[..|front|] == front;
  }

  /** Every link leads to a position below `n`. */
  predicate Inside(row: Row, n: nat) {
    forall k :: 0 <= k < |row| ==> row[k].to < n
  }

  predicate Leads(row: Row, j: nat) {
    exists k :: 0 <= k < |row| && row[k].to == j
  }

  lemma LeadsSnoc(front: Row, l: Link, j: nat)
    ensures Leads(front + [l], j) <==> Leads(front, j) || l.to == j
  {
    var row := front + [l];
    assert row[|front|] == l && forall k :: 0 <= k < |front| ==> row[k] == front[k];
  }
}
