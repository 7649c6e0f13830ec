/** How many elements of a sequence satisfy a predicate, and how that number moves
    when the sequence is extended, shortened or updated in one place. */
module Counting {

  function Count<T>(s: seq<T>, p: T -> bool): nat
  {
    if s == [] then 0 else (if p(s[0]) then 1 else 0) + Count(s[1..], p)
  }

  function Without<T>(s: seq<T>, k: nat): (r: seq<T>)
    requires k < |s|
    ensures forall x :: x in r ==> x in s
  {
    s[..k] + s[k + 1..]
  }

  lemma {:induction false} CountConcat<T>(a: seq<T>, b: seq<T>, p: T -> bool)
    ensures Count(a + b, p) == Count(a, p) + Count(b, p)
  {
    if a == [] {
      assert a + b == b;
    } else {
      assert (a + b)[1..] == a[1..] + b;
      CountConcat(a[1..], b, p);
    }
  }

  lemma CountCons<T>(x: T, b: seq<T>, p: T -> bool)
    ensures Count([x] + b, p) == Count(b, p) + if p(x) then 1 else 0
  {
    assert ([x] + b)[1..] == b;
  }

  lemma CountInsert<T>(a: seq<T>, x: T, b: seq<T>, p: T -> bool)
    ensures Count(a + ([x] + b), p) == Count(a + b, p) + if p(x) then 1 else 0
  {
    CountConcat(a, [x] + b, p);
    CountCons(x, b, p);
    CountConcat(a, b, p);
  }

  lemma SplitAt<T>(s: seq<T>, k: nat)
    requires k < |s|
    ensures s == s[..k] + ([s[k]] + s[k + 1..])
  {
  }

  lemma CountWithout<T>(s: seq<T>, k: nat, p: T -> bool)
    requires k < |s|
    ensures Count(s, p) == Count(Without(s, k), p) + if p(s[k]) then 1 else 0
  {
    SplitAt(s, k);
    CountInsert(s[..k], s[k], s[k + 1..], p);
  }

  lemma CountUpdate<T>(s: seq<T>, k: nat, x: T, p: T -> bool)
    requires k < |s|
    ensures Count(s[k := x], p) + (if p(s[k]) then 1 else 0) == Count(s, p) + if p(x) then 1 else 0
  {
    CountWithout(s, k, p);
    CountWithout(s[k := x], k, p);
    assert Without(s, k) == Without(s[k := x], k);
  }

  lemma {:induction false} CountPositive<T>(s: seq<T>, p: T -> bool)
    ensures Count(s, p) > 0 <==> exists k :: 0 <= k < |s| && p(s[k])
  {
    if s != [] {
      CountPositive(s[1..], p);
      if Count(s[1..], p) > 0 {
        var k :| 0 <= k < |s[1..]| && p(s[1..][k]);
        assert p(s[k + 1]);
      }
      if k :| 0 < k < |s| && p(s[k]) {
        assert p(s[1..][k - 1]);
      }
    }
  }

  /** An element that occurs and is counted at most once sits at one index only. */
  lemma CountTwo<T>(s: seq<T>, a: nat, b: nat, p: T -> bool)
    requires a < b < |s| && p(s[a]) && p(s[b])
    ensures Count(s, p) >= 2
  {
    CountWithout(s, b, p);
    assert Without(s, b)[a] == s[a];
    CountPositive(Without(s, b), p);
  }

  lemma {:induction false} CountMono<T>(s: seq<T>, p: T -> bool, q: T -> bool)
    requires forall x :: x in s && p(x) ==> q(x)
    ensures Count(s, p) <= Count(s, q)
  {
    if s != [] {
      CountMono(s[1..], p, q);
    }
  }
}
