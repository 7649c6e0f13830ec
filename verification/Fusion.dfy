/** Reciprocal rank fusion of crates/sap-automate-rag/src/lib.rs. A ranking is the list of its chunk ids. */
module Fusion {
  import opened Ranking

  datatype Hit = Hit(id: string, score: real)

  predicate Distinct(list: seq<string>) {
    forall i, j :: 0 <= i < j < |list| ==> list[i] != list[j]
  }

  function Denominator(k: real, rank: nat): real {
    k + rank as real + 1.0
  }

  /** No rank of a list of length `n` divides by zero. */
  ghost predicate Regular(k: real, n: nat) {
    forall rank: nat :: rank < n ==> Denominator(k, rank) != 0.0
  }

  ghost predicate RegularFor(k: real, dense: seq<string>, sparse: seq<string>) {
    Regular(k, |dense|) && Regular(k, |sparse|)
  }

  /** What the entry at a rank, counted from zero, adds to the score of its chunk. */
  function Contribution(k: real, rank: nat): real
    requires Denominator(k, rank) != 0.0
  {
    1.0 / Denominator(k, rank)
  }

  /** What one ranking adds up to for a chunk. */
  function Score(list: seq<string>, id: string, k: real): real
    requires Regular(k, |list|)
  {
    if list == [] then 0.0
    else
      var n := |list| - 1;
      Score(list[..n], id, k) + if list[n] == id then Contribution(k, n) else 0.0
  }

  function Fused(dense: seq<string>, sparse: seq<string>, id: string, k: real): real
    requires RegularFor(k, dense, sparse)
  {
    Score(dense, id, k) + Score(sparse, id, k)
  }

  // ----- the fusion ----------------------------------------------------------------------

  function Get(scores: map<string, real>, id: string): real {
    if id in scores then scores[id] else 0.0
  }

  method Accumulate(scores: map<string, real>, list: seq<string>, k: real) returns (r: map<string, real>)
    requires Regular(k, |list|)
    ensures forall id :: id in r <==> id in scores || id in list
    ensures forall id :: Get(r, id) == Get(scores, id) + Score(list, id, k)
  {
    r := scores;
    for rank := 0 to |list|
      invariant forall id :: id in r <==> id in scores || id in list[..rank]
      invariant forall id :: Get(r, id) == Get(scores, id) + Score(list[..rank], id, k)
    {
      assert list[..rank + 1][..rank] == list[..rank];
      var key, contrib := list[rank], Contribution(k, rank);
      if key in r {
        r := r[key := r[key] + contrib];
      } else {
        r := r[key := contrib];
      }
    }
    assert list[..|list|] == list;
  }

  function ScoreOf(h: Hit): real {
    h.score
  }

  /** The hits are one per id of `ids`, with its score. */
  ghost predicate OnePerId(hits: seq<Hit>, ids: set<string>, scores: map<string, real>) {
    forall h: Hit :: multiset(hits)[h] == if h.id in ids && h.score == Get(scores, h.id) then 1 else 0
  }

  /** Drains the table in whatever order it hands out its keys, best score first. */
  method Rank(scores: map<string, real>) returns (hits: seq<Hit>)
    ensures Descending(hits, ScoreOf) && OnePerId(hits, scores.Keys, scores)
  {
    hits := [];
    var left := scores.Keys;
    while left != {}
      invariant left <= scores.Keys
      invariant Descending(hits, ScoreOf) && OnePerId(hits, scores.Keys - left, scores)
    {
      var id :| id in left;
      InsertKeepsAll(hits, Hit(id, scores[id]), ScoreOf);
      hits := Insert(hits, Hit(id, scores[id]), ScoreOf);
      left := left - {id};
    }
    assert scores.Keys - left == scores.Keys;
  }

  /** Every chunk of either ranking exactly once, with its fused score, and nothing else. */
  ghost predicate FusesAll(hits: seq<Hit>, dense: seq<string>, sparse: seq<string>, k: real)
    requires RegularFor(k, dense, sparse)
  {
    forall h: Hit :: multiset(hits)[h]
                     == if (h.id in dense || h.id in sparse) && h.score == Fused(dense, sparse, h.id, k) then 1 else 0
  }

  method FuseAll(dense: seq<string>, sparse: seq<string>, k: real) returns (hits: seq<Hit>)
    requires RegularFor(k, dense, sparse)
    ensures Descending(hits, ScoreOf) && FusesAll(hits, dense, sparse, k)
  {
    var table := Accumulate(map[], dense, k);
    table := Accumulate(table, sparse, k);
    hits := Rank(table);
  }

  /** The kept hits are best: each is a chunk of a ranking with its fused score, no chunk comes twice, the
      order is descending, and a chunk is left out only when `cap` hits that score at least as much are kept. */
  ghost predicate Best(hits: seq<Hit>, dense: seq<string>, sparse: seq<string>, k: real, cap: nat)
    requires RegularFor(k, dense, sparse)
  {
    && |hits| <= cap && Descending(hits, ScoreOf)
    && (forall i :: 0 <= i < |hits| ==>
          && (hits[i].id in dense || hits[i].id in sparse)
          && hits[i].score == Fused(dense, sparse, hits[i].id, k))
    && (forall i, j :: 0 <= i < j < |hits| ==> hits[i].id != hits[j].id)
    && (forall id :: (id in dense || id in sparse) && !Keeps(hits, id) ==>
          |hits| == cap && forall i :: 0 <= i < |hits| ==> hits[i].score >= Fused(dense, sparse, id, k))
  }

  ghost predicate Keeps(hits: seq<Hit>, id: string) {
    exists i :: 0 <= i < |hits| && hits[i].id == id
  }

  lemma AllAreDistinct(all: seq<Hit>, dense: seq<string>, sparse: seq<string>, k: real, i: nat, j: nat)
    requires RegularFor(k, dense, sparse) && FusesAll(all, dense, sparse, k) && i < j < |all|
    ensures all[i].id != all[j].id
  {
    if all[i] == all[j] {
      TwiceCounts(all, i, j);
    }
  }

  lemma LeftOutIsWorse(all: seq<Hit>, dense: seq<string>, sparse: seq<string>, k: real, cap: nat, id: string)
    requires RegularFor(k, dense, sparse) && Descending(all, ScoreOf) && FusesAll(all, dense, sparse, k)
    requires id in dense || id in sparse
    requires var n := if cap < |all| then cap else |all|; !Keeps(all[..n], id)
    ensures cap < |all| && forall i :: 0 <= i < cap ==> all[i].score >= Fused(dense, sparse, id, k)
  {
    var n := if cap < |all| then cap else |all|;
    forall q | 0 <= q < n ensures all[q].id != id {
      assert all[..n][q] == all[q];
    }
    var h := Hit(id, Fused(dense, sparse, id, k));
    assert multiset(all)[h] == 1;
    assert h in all;
    var p :| 0 <= p < |all| && all[p] == h;
  }

  lemma TruncatedIsBest(all: seq<Hit>, dense: seq<string>, sparse: seq<string>, k: real, cap: nat)
    requires RegularFor(k, dense, sparse) && Descending(all, ScoreOf) && FusesAll(all, dense, sparse, k)
    ensures var n := if cap < |all| then cap else |all|; Best(all[..n], dense, sparse, k, cap)
  {
    var n := if cap < |all| then cap else |all|;
    var hits := all[..n];
    forall i, j | 0 <= i < j < |hits| ensures hits[i].id != hits[j].id {
      AllAreDistinct(all, dense, sparse, k, i, j);
    }
    forall id | (id in dense || id in sparse) && !Keeps(hits, id)
      ensures |hits| == cap && forall i :: 0 <= i < |hits| ==> hits[i].score >= Fused(dense, sparse, id, k)
    {
      LeftOutIsWorse(all, dense, sparse, k, cap, id);
    }
  }

  method ReciprocalRankFusion(dense: seq<string>, sparse: seq<string>, k: real, cap: nat) returns (hits: seq<Hit>)
    requires RegularFor(k, dense, sparse)
    ensures Best(hits, dense, sparse, k, cap)
  {
    var all := FuseAll(dense, sparse, k);
    TruncatedIsBest(all, dense, sparse, k, cap);
    hits := all[..if cap < |all| then cap else |all|];
  }

  // ----- what the scores mean ------------------------------------------------------------

  lemma ContributionPositive(k: real, rank: nat)
    requires k > -1.0
    ensures Contribution(k, rank) > 0.0
  {
    var d := Denominator(k, rank);
    assert (1.0 / d) * d == 1.0;
  }

  /** A chunk that is not ranked scores nothing, every other one something. */
  lemma {:induction false} ScorePositive(list: seq<string>, id: string, k: real)
    requires k > -1.0
    ensures Score(list, id, k) >= 0.0 && (Score(list, id, k) > 0.0 <==> id in list)
  {
    if list != [] {
      var n := |list| - 1;
      ScorePositive(list[..n], id, k);
      ContributionPositive(k, n);
      assert list == list[..n] + [list[n]];
    }
  }

  lemma LaterAddsLess(k: real, early: nat, late: nat)
    requires k > -1.0 && early <= late
    ensures Contribution(k, early) >= Contribution(k, late)
  {
    var a, b := k + early as real + 1.0, k + late as real + 1.0;
    assert 1.0 / a - 1.0 / b == (b - a) / (a * b);
  }

  lemma {:induction false} ScoreOfUnranked(list: seq<string>, id: string, k: real)
    requires Regular(k, |list|) && id !in list
    ensures Score(list, id, k) == 0.0
  {
    if list != [] {
      ScoreOfUnranked(list[..|list| - 1], id, k);
    }
  }

  /** In a ranking without duplicates a chunk scores by its rank alone. */
  lemma {:induction false} ScoreAtRank(list: seq<string>, k: real, rank: nat)
    requires Regular(k, |list|) && Distinct(list) && rank < |list|
    ensures Score(list, list[rank], k) == Contribution(k, rank)
  {
    var n := |list| - 1;
    if rank < n {
      ScoreAtRank(list[..n], k, rank);
    } else {
      ScoreOfUnranked(list[..n], list[n], k);
    }
  }

  /** `a` is ranked no worse than `b`: it comes no later, or `b` is not ranked. */
  predicate NoWorse(list: seq<string>, a: string, b: string) {
    forall j :: 0 <= j < |list| && list[j] == b ==> a in list[..j + 1]
  }

  lemma NoWorseScores(list: seq<string>, a: string, b: string, k: real)
    requires k > -1.0 && Distinct(list) && NoWorse(list, a, b)
    ensures Score(list, a, k) >= Score(list, b, k)
  {
    ScorePositive(list, a, k);
    ScorePositive(list, b, k);
    if b in list {
      var j :| 0 <= j < |list| && list[j] == b;
      var i :| 0 <= i < j + 1 && list[i] == a;
      ScoreAtRank(list, k, i);
      ScoreAtRank(list, k, j);
      LaterAddsLess(k, i, j);
    }
  }

  /** A chunk ranked no worse in both lists never scores lower. */
  lemma FusionIsMonotone(dense: seq<string>, sparse: seq<string>, a: string, b: string, k: real)
    requires k > -1.0 && Distinct(dense) && Distinct(sparse)
    requires NoWorse(dense, a, b) && NoWorse(sparse, a, b)
    ensures Fused(dense, sparse, a, k) >= Fused(dense, sparse, b, k)
  {
    NoWorseScores(dense, a, b, k);
    NoWorseScores(sparse, a, b, k);
  }

  lemma {:induction false} ScoreRange(list: seq<string>, id: string, k: real)
    requires k > -1.0 && Distinct(list) && id in list
    ensures Contribution(k, |list| - 1) <= Score(list, id, k) <= Contribution(k, 0)
  {
    var i :| 0 <= i < |list| && list[i] == id;
    ScoreAtRank(list, k, i);
    LaterAddsLess(k, 0, i);
    LaterAddsLess(k, i, |list| - 1);
  }

  /** Two last places of a short list outweigh one first place. */
  lemma TwoLastBeatFirst(k: real, n: nat)
    requires k > -1.0 && 0 < n && n as real <= k + 1.0
    ensures 2.0 * Contribution(k, n - 1) > Contribution(k, 0)
  {
    var a, b := k + 1.0, k + n as real;
    assert Contribution(k, n - 1) == 1.0 / b && Contribution(k, 0) == 1.0 / a;
    assert 2.0 * (1.0 / b) - 1.0 / a == (2.0 * a - b) / (a * b);
    assert 2.0 * a - b > 0.0;
    assert a * b > 0.0;
  }

  /** Consensus wins: with duplicate-free rankings of length at most k + 1, a chunk in both is fused strictly
      above a chunk in only one. */
  lemma ConsensusWins(dense: seq<string>, sparse: seq<string>, both: string, single: string, k: real)
    requires k > -1.0 && Distinct(dense) && Distinct(sparse)
    requires |dense| as real <= k + 1.0 && |sparse| as real <= k + 1.0
    requires both in dense && both in sparse && !(single in dense && single in sparse)
    ensures Fused(dense, sparse, both, k) > Fused(dense, sparse, single, k)
  {
    var n := if |dense| > |sparse| then |dense| else |sparse|;
    ScoreRange(dense, both, k);
    ScoreRange(sparse, both, k);
    LaterAddsLess(k, |dense| - 1, n - 1);
    LaterAddsLess(k, |sparse| - 1, n - 1);
    TwoLastBeatFirst(k, n);
    ContributionPositive(k, 0);
    ScorePositive(dense, single, k);
    ScorePositive(sparse, single, k);
    if single in dense {
      ScoreRange(dense, single, k);
    } else if single in sparse {
      ScoreRange(sparse, single, k);
    }
  }

  /** So the kept hits are first those of both rankings, then those of one, and none of both is dropped for
      one of a single ranking. */
  lemma ConsensusIsAPrefix(hits: seq<Hit>, dense: seq<string>, sparse: seq<string>, k: real, cap: nat, i: nat,
                           id: string)
    requires k > -1.0 && Distinct(dense) && Distinct(sparse)
    requires |dense| as real <= k + 1.0 && |sparse| as real <= k + 1.0
    requires Best(hits, dense, sparse, k, cap) && i < |hits| && id in dense && id in sparse
    requires !(hits[i].id in dense && hits[i].id in sparse)
    ensures exists j :: 0 <= j < i && hits[j].id == id
  {
    ConsensusWins(dense, sparse, id, hits[i].id, k);
    assert Keeps(hits, id);
    var j :| 0 <= j < |hits| && hits[j].id == id;
    assert hits[j].score > hits[i].score;
  }

  /** One place more and the win is lost: in rankings of length k + 2 that share their last chunk, that
      chunk ties with a first place of one ranking alone. */
  lemma LongerListsTie(dense: seq<string>, sparse: seq<string>, k: nat)
    requires Distinct(dense) && Distinct(sparse) && |dense| == |sparse| == k + 2
    requires dense[k + 1] == sparse[k + 1] && dense[0] !in sparse
    ensures Fused(dense, sparse, dense[k + 1], k as real) == Fused(dense, sparse, dense[0], k as real)
  {
    ScoreAtRank(dense, k as real, k + 1);
    ScoreAtRank(sparse, k as real, k + 1);
    ScoreAtRank(dense, k as real, 0);
    ScorePositive(sparse, dense[0], k as real);
    var a := k as real + 1.0;
    assert Contribution(k as real, k + 1) == 1.0 / (2.0 * a);
    assert 1.0 / (2.0 * a) + 1.0 / (2.0 * a) == 1.0 / a;
  }
}
