/** What several modules share. */
module Wrappers {

  datatype Option<+T> = None | Some(value: T)

  /** Time elapsed since `t`, saturating at zero as `Instant::elapsed` does. */
  function Elapsed(t: nat, now: nat): nat {
    if now >= t then now - t else 0
  }

  function Max(a: int, b: int): (m: int)
    ensures m >= a && m >= b && (m == a || m == b)
  {
    if a > b then a else b
  }

  lemma Associate<T>(a: seq<T>, b: seq<T>, c: seq<T>)
    ensures a + (b + c) == (a + b) + c
  {}

  lemma Regroup<T>(a: seq<T>, b: seq<T>, c: seq<T>, d: seq<T>)
    ensures (a + b + c) + d == a + (b + (c + d)) && a + (b + c + d) == ((a + b) + c) + d
  {}
}
