/** Lists kept in descending order of a score, as a stable sort leaves them. */
module Ranking {

  predicate Descending<T(!new)>(s: seq<T>, score: T -> real) {
    forall i, j :: 0 <= i < j < |s| ==> score(s[i]) >= score(s[j])
  }

  /** How many leading elements score at least as much as `x`. */
  function Place<T(!new)>(s: seq<T>, x: T, score: T -> real): (k: nat)
    ensures k <= |s| && (forall i :: 0 <= i < k ==> score(s[i]) >= score(x))
    ensures k < |s| ==> score(s[k]) < score(x)
  {
    if s == [] || score(s[0]) < score(x) then 0 else 1 + Place(s[1..], x, score)
  }

  /** Places an element behind every one that scores at least as much. */
  function Insert<T(!new)>(s: seq<T>, x: T, score: T -> real): (r: seq<T>)
    requires Descending(s, score)
    ensures Descending(r, score)
  {
    var k := Place(s, x, score);
    s[..k] + [x] + s[k..]
  }

  lemma InsertKeepsAll<T(!new)>(s: seq<T>, x: T, score: T -> real)
    requires Descending(s, score)
    ensures multiset(Insert(s, x, score)) == multiset(s) + multiset{x}
  {
    var k := Place(s, x, score);
    assert s == s[..k] + s[k..];
  }

  lemma TwiceCounts<T>(s: seq<T>, i: nat, j: nat)
    requires i < j < |s| && s[i] == s[j]
    ensures multiset(s)[s[i]] >= 2
  {
    assert s == s[..j] + s[j..];
    assert s[i] in s[..j] && s[j] in s[j..];
  }
}
