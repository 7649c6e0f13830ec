/** The per-host rate limiter of crates/sap-automate-ingest/src/rate_limit.rs. */
module RateLimiter {
  import opened Wrappers

  datatype Bucket = Bucket(nextReady: nat, interval: nat)

  datatype Limits = Limits(default: nat, buckets: map<string, Bucket>)

  function BucketOf(s: Limits, host: string, now: nat): Bucket {
    if host in s.buckets then s.buckets[host] else Bucket(now, s.default)
  }

  /** The time until which a caller that reads `now` is told to sleep. */
  function Granted(s: Limits, host: string, now: nat): nat {
    Max(BucketOf(s, host, now).nextReady, now)
  }

  function Acquired(s: Limits, host: string, now: nat): Limits {
    var b := BucketOf(s, host, now);
    s.(buckets := s.buckets[host := Bucket(Granted(s, host, now) + b.interval, b.interval)])
  }

  function WithInterval(s: Limits, host: string, interval: nat, now: nat): Limits {
    var ready := if host in s.buckets then s.buckets[host].nextReady else now;
    s.(buckets := s.buckets[host := Bucket(ready, interval)])
  }

  class RateLimiter {
    const default: nat
    var buckets: map<string, Bucket>

    function Value(): Limits
      reads this
    {
      Limits(default, buckets)
    }

    constructor (default: nat)
      ensures Value() == Limits(default, map[])
    {
      this.default := default;
      buckets := map[];
    }

    method SetInterval(host: string, interval: nat, now: nat)
      modifies this
      ensures Value() == WithInterval(old(Value()), host, interval, now)
    {
      if host !in buckets {
        buckets := buckets[host := Bucket(now, interval)];
      }
      buckets := buckets[host := buckets[host].(interval := interval)];
    }

    /** The returned wait ends at the granted time. */
    method AcquireWait(host: string, now: nat) returns (wait: nat)
      modifies this
      ensures now + wait == Granted(old(Value()), host, now)
      ensures Value() == Acquired(old(Value()), host, now)
    {
      if host !in buckets {
        buckets := buckets[host := Bucket(now, default)];
      }
      var entry := buckets[host];
      if now >= entry.nextReady {
        wait := 0;
      } else {
        wait := entry.nextReady - now;
      }
      var base := Max(entry.nextReady, now);
      buckets := buckets[host := entry.(nextReady := base + entry.interval)];
    }
  }

  // ----- runs in lock order --------------------------------------------------------------

  /** The clock is read before the lock is taken, so the readings may be out of order. */
  datatype Op = Acquire(host: string, now: nat) | Set(host: string, interval: nat, now: nat)

  datatype History = Start | Then(past: History, op: Op)

  function After(h: History, default: nat): Limits {
    match h
    case Start => Limits(default, map[])
    case Then(p, Acquire(host, now)) => Acquired(After(p, default), host, now)
    case Then(p, Set(host, interval, now)) => WithInterval(After(p, default), host, interval, now)
  }

  /** The times granted to `host`, in lock order. */
  function Grants(h: History, default: nat, host: string): seq<nat> {
    match h
    case Start => []
    case Then(p, Acquire(name, now)) =>
      Grants(p, default, host) + if name == host then [Granted(After(p, default), host, now)] else []
    case Then(p, _) => Grants(p, default, host)
  }

  /** The interval in force: the last one set, else the default. */
  function IntervalAfter(h: History, default: nat, host: string): nat {
    match h
    case Start => default
    case Then(p, Set(name, interval, _)) => if name == host then interval else IntervalAfter(p, default, host)
    case Then(p, _) => IntervalAfter(p, default, host)
  }

  /** When the host may first be granted: nothing binds it, the time of its first setting does, or the last
      grant plus the interval in force when it was given. */
  function Earliest(h: History, default: nat, host: string): nat {
    match h
    case Start => 0
    case Then(p, op) =>
      if op.host != host then Earliest(p, default, host)
      else if op.Acquire? then Max(Earliest(p, default, host), op.now) + IntervalAfter(p, default, host)
      else if Touched(p, host) then Earliest(p, default, host)
      else op.now
  }

  predicate Touched(h: History, host: string) {
    h.Then? && (h.op.host == host || Touched(h.past, host))
  }

  /** The bucket holds exactly that. */
  lemma {:induction false} BucketTells(h: History, default: nat, host: string)
    ensures var s := After(h, default);
            && s.default == default
            && (host in s.buckets <==> Touched(h, host))
            && (host in s.buckets ==>
                  s.buckets[host] == Bucket(Earliest(h, default, host), IntervalAfter(h, default, host)))
            && (host !in s.buckets ==> Earliest(h, default, host) == 0 && IntervalAfter(h, default, host) == default)
  {
    if h.Then? {
      BucketTells(h.past, default, host);
    }
  }

  /** The history at the last grant of `host`. */
  function LastGrant(h: History, host: string): History
    ensures var r := LastGrant(h, host); r.Then? ==> r.op.Acquire? && r.op.host == host
  {
    match h
    case Start => Start
    case Then(p, op) => if op.Acquire? && op.host == host then h else LastGrant(p, host)
  }

  lemma {:induction false} LastGrantIsLast(h: History, default: nat, host: string)
    ensures var last, grants := LastGrant(h, host), Grants(h, default, host);
            && grants == Grants(last, default, host)
            && (last.Start? <==> grants == [])
            && (last.Then? ==>
                  Earliest(h, default, host) == grants[|grants| - 1] + IntervalAfter(last, default, host))
  {
    if h.Then? {
      LastGrantIsLast(h.past, default, host);
      TouchedByGrant(h.past, host);
      if h.op.Acquire? && h.op.host == host {
        BucketTells(h.past, default, host);
      }
    }
  }

  lemma {:induction false} TouchedByGrant(h: History, host: string)
    ensures LastGrant(h, host).Then? ==> Touched(h, host)
  {
    if h.Then? {
      TouchedByGrant(h.past, host);
    }
  }

  /** Once the host has a grant, its next one is the maximum of the clock reading and that grant plus the
      interval in force when it was given, whatever was set or granted elsewhere in between. */
  lemma NextGrant(h: History, default: nat, host: string, now: nat)
    ensures var last, grants := LastGrant(h, host), Grants(h, default, host);
            grants != [] ==>
              && last.Then?
              && Granted(After(h, default), host, now)
                 == Max(grants[|grants| - 1] + IntervalAfter(last, default, host), now)
  {
    LastGrantIsLast(h, default, host);
    TouchedByGrant(h, host);
    BucketTells(h, default, host);
  }

  // ----- how many grants fit in a window -------------------------------------------------

  /** Whenever the host was granted, the interval then in force was at least `m`. */
  predicate AtLeast(h: History, default: nat, host: string, m: nat) {
    match h
    case Start => true
    case Then(p, op) =>
      AtLeast(p, default, host, m) && (op.Acquire? && op.host == host ==> IntervalAfter(p, default, host) >= m)
  }

  lemma {:induction false} IntervalAtLeast(h: History, default: nat, host: string, m: nat)
    requires AtLeast(h, default, host, m)
    ensures LastGrant(h, host).Then? ==> IntervalAfter(LastGrant(h, host), default, host) >= m
  {
    if h.Then? {
      IntervalAtLeast(h.past, default, host, m);
    }
  }

  /** Each time is at least `m` after the one before it. */
  predicate Spaced(times: seq<nat>, m: nat) {
    forall i :: 0 < i < |times| ==> times[i - 1] + m <= times[i]
  }

  lemma {:induction false} GrantsAreSpaced(h: History, default: nat, host: string, m: nat)
    requires AtLeast(h, default, host, m)
    ensures Spaced(Grants(h, default, host), m)
  {
    if h.Then? {
      GrantsAreSpaced(h.past, default, host, m);
      if h.op.Acquire? && h.op.host == host {
        NextGrant(h.past, default, host, h.op.now);
        IntervalAtLeast(h.past, default, host, m);
      }
    }
  }

  function Within(times: seq<nat>, from: int, to: int): nat {
    if times == [] then 0
    else
      var n := |times| - 1;
      Within(times[..n], from, to) + if from <= times[n] <= to then 1 else 0
  }

  lemma {:induction false} NoneBefore(times: seq<nat>, m: nat, from: int, to: int, bound: int)
    requires Spaced(times, m) && (times != [] ==> times[|times| - 1] <= bound)
    ensures bound <= to ==> Within(times, from, to) == Within(times, from, bound)
    ensures bound < from ==> Within(times, from, to) == 0
  {
    if times != [] {
      NoneBefore(times[..|times| - 1], m, from, to, bound);
    }
  }

  lemma OneMore(c: nat, m: nat)
    ensures (c + 1) * m == c * m + m
  {
  }

  lemma {:induction false} SpacedFit(times: seq<nat>, m: nat, from: int, to: int)
    requires Spaced(times, m) && from - m <= to
    ensures Within(times, from, to) * m <= to - from + m
  {
    if times != [] {
      var n := |times| - 1;
      var front, last := times[..n], times[n];
      if from <= last <= to {
        SpacedFit(front, m, from, last - m);
        NoneBefore(front, m, from, to, last - m);
        OneMore(Within(front, from, to), m);
      } else {
        SpacedFit(front, m, from, to);
      }
    }
  }

  lemma DivideBound(c: nat, m: nat, w: nat)
    requires m > 0 && c * m <= w + m
    ensures c <= w / m + 1
  {
    var q := w / m;
    assert w == q * m + w % m && w % m < m;
    var excess := c - (q + 2);
    assert excess * m == c * m - q * m - 2 * m < 0;
  }

  /** Any window of length `w` holds at most w / m + 1 grants of a host whose intervals in force at its grants
      are at least `m`. */
  lemma WindowHoldsFew(h: History, default: nat, host: string, m: nat, from: nat, w: nat)
    requires AtLeast(h, default, host, m) && m > 0
    ensures Within(Grants(h, default, host), from, from + w) <= w / m + 1
  {
    var grants := Grants(h, default, host);
    GrantsAreSpaced(h, default, host, m);
    SpacedFit(grants, m, from, from + w);
    DivideBound(Within(grants, from, from + w), m, w);
  }

  /** `n` acquisitions of one host at the same clock reading. */
  function Burst(host: string, now: nat, n: nat): History {
    if n == 0 then Start else Then(Burst(host, now, n - 1), Acquire(host, now))
  }

  /** The bound is attained: a burst is granted one slot every interval. */
  lemma {:induction false} BurstIsPaced(host: string, now: nat, n: nat, default: nat)
    ensures var h := Burst(host, now, n);
            && AtLeast(h, default, host, default) && IntervalAfter(h, default, host) == default
            && |Grants(h, default, host)| == n
            && (n > 0 ==> Earliest(h, default, host) == now + n * default)
            && forall k :: 0 <= k < n ==> Grants(h, default, host)[k] == now + k * default
  {
    if n > 0 {
      BurstIsPaced(host, now, n - 1, default);
      BucketTells(Burst(host, now, n - 1), default, host);
      assert n * default == (n - 1) * default + default;
    }
  }

  /** In particular, a host that is slowed down before its first fetch has the bound of its own interval,
      whatever the default. */
  lemma {:induction false} SlowedHostIsSlow(host: string, interval: nat, at: nat, now: nat, n: nat, default: nat)
    ensures AtLeast(SlowBurst(host, interval, at, now, n), default, host, interval)
    ensures IntervalAfter(SlowBurst(host, interval, at, now, n), default, host) == interval
  {
    if n > 0 {
      SlowedHostIsSlow(host, interval, at, now, n - 1, default);
    }
  }

  function SlowBurst(host: string, interval: nat, at: nat, now: nat, n: nat): History {
    if n == 0 then Then(Start, Set(host, interval, at))
    else Then(SlowBurst(host, interval, at, now, n - 1), Acquire(host, now))
  }

  // ----- hosts are independent -----------------------------------------------------------

  /** The operations on one host. */
  function Only(h: History, host: string): History {
    match h
    case Start => Start
    case Then(p, op) => if op.host == host then Then(Only(p, host), op) else Only(p, host)
  }

  /** What happens to other hosts changes neither the grants of a host nor its bucket. */
  lemma {:induction false} OtherHostsDoNotMatter(h: History, default: nat, host: string)
    ensures Grants(h, default, host) == Grants(Only(h, host), default, host)
    ensures var s, only := After(h, default), After(Only(h, host), default);
            && s.default == only.default
            && (host in s.buckets <==> host in only.buckets)
            && (host in s.buckets ==> s.buckets[host] == only.buckets[host])
  {
    if h.Then? {
      OtherHostsDoNotMatter(h.past, default, host);
    }
  }
}
