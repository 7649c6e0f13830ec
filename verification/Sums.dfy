/** Finite sums of reals, indexed from 0, with the handful of laws the graph proofs use. */
module Sums {

  function Sum(n: nat, f: int -> real): real {
    if n == 0 then 0.0 else Sum(n - 1, f) + f(n - 1)
  }

  function Abs(x: real): real {
    if x < 0.0 then -x else x
  }

  lemma {:induction false} SumSame(n: nat, f: int -> real, g: int -> real)
    requires forall i :: 0 <= i < n ==> f(i) == g(i)
    ensures Sum(n, f) == Sum(n, g)
  {
    if n > 0 { SumSame(n - 1, f, g); }
  }

  lemma {:induction false} SumAdd(n: nat, f: int -> real, g: int -> real, h: int -> real)
    requires forall i :: 0 <= i < n ==> h(i) == f(i) + g(i)
    ensures Sum(n, h) == Sum(n, f) + Sum(n, g)
  {
    if n > 0 { SumAdd(n - 1, f, g, h); }
  }

  lemma {:induction false} SumScale(n: nat, c: real, f: int -> real, g: int -> real)
    requires forall i :: 0 <= i < n ==> g(i) == c * f(i)
    ensures Sum(n, g) == c * Sum(n, f)
  {
    if n > 0 { SumScale(n - 1, c, f, g); }
  }

  lemma {:induction false} SumMono(n: nat, f: int -> real, g: int -> real)
    requires forall i :: 0 <= i < n ==> f(i) <= g(i)
    ensures Sum(n, f) <= Sum(n, g)
  {
    if n > 0 { SumMono(n - 1, f, g); }
  }

  lemma {:induction false} SumZero(n: nat, f: int -> real)
    requires forall i :: 0 <= i < n ==> f(i) == 0.0
    ensures Sum(n, f) == 0.0
  {
    if n > 0 { SumZero(n - 1, f); }
  }

  lemma {:induction false} SumAbs(n: nat, f: int -> real, g: int -> real)
    requires forall i :: 0 <= i < n ==> g(i) == Abs(f(i))
    ensures Abs(Sum(n, f)) <= Sum(n, g)
  {
    if n > 0 { SumAbs(n - 1, f, g); }
  }

  /** Only one term differs. */
  lemma {:induction false} SumPoint(n: nat, k: nat, f: int -> real, g: int -> real)
    requires k < n && forall i :: 0 <= i < n && i != k ==> f(i) == g(i)
    ensures Sum(n, g) == Sum(n, f) - f(k) + g(k)
  {
    if k == n - 1 {
      SumSame(n - 1, f, g);
    } else {
      SumPoint(n - 1, k, f, g);
    }
  }

  /** Rows first or columns first. */
  lemma {:induction false} SumSwap(n: nat, m: nat, f: (int, int) -> real)
    ensures Sum(n, i => Sum(m, j => f(i, j))) == Sum(m, j => Sum(n, i => f(i, j)))
  {
    if n == 0 {
      SumZero(m, j => Sum(n, i => f(i, j)));
    } else {
      SumSwap(n - 1, m, f);
      SumAdd(m, j => Sum(n - 1, i => f(i, j)), j => f(n - 1, j), j => Sum(n, i => f(i, j)));
    }
  }
}
