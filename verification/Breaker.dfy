/** Retry and circuit breaker of crates/sap-automate-rfc/src/retry.rs, over the error codes of
    crates/sap-automate-rfc/src/error.rs. */
module Breaker {
  import opened Wrappers

  // ----- errors --------------------------------------------------------------------------

  datatype Fault =
    | Timeout | DestinationDown | PoolExhausted | CircuitOpen
    | AuthFailed | NotFound | TableBufferOverflow | InvalidParameter | PermissionDenied | SchemaViolation
    | PartialBulk | Internal

  function Code(f: Fault): int {
    match f
    case Timeout => -32110
    case DestinationDown => -32120
    case PoolExhausted => -32130
    case CircuitOpen => -32140
    case AuthFailed => -32210
    case NotFound => -32220
    case TableBufferOverflow => -32230
    case InvalidParameter => -32240
    case PermissionDenied => -32250
    case SchemaViolation => -32260
    case PartialBulk => -32310
    case Internal => -32299
  }

  predicate Transient(f: Fault) {
    -32199 <= Code(f) <= -32100
  }

  /** Exactly four faults are worth a retry. */
  lemma TransientFaults(f: Fault)
    ensures Transient(f) <==> f in {Timeout, DestinationDown, PoolExhausted, CircuitOpen}
  {
  }

  datatype Outcome = Good | Bad(fault: Fault)

  predicate Retryable(o: Outcome) {
    o.Bad? && Transient(o.fault)
  }

  // ----- the breaker ---------------------------------------------------------------------

  datatype Circuit = Closed | Open | HalfOpen

  /** What the mutex guards. */
  datatype Core = Core(state: Circuit, failures: nat, openedAt: Option<nat>)

  datatype Config = Config(threshold: nat, period: nat)

  const INITIAL: Core := Core(Closed, 0, None)

  function Ticked(c: Core, config: Config, now: nat): Core {
    if c.state == Open && c.openedAt.Some? && Elapsed(c.openedAt.value, now) >= config.period
    then c.(state := HalfOpen)
    else c
  }

  /** Clock readings and periods are in nanoseconds. */
  const MILLISECOND: nat := 1_000_000

  /** What is left of the open period. */
  function Remaining(c: Core, config: Config, now: nat): nat {
    match c.openedAt
    case Some(t) => if Elapsed(t, now) >= config.period then 0 else config.period - Elapsed(t, now)
    case None => config.period
  }

  /** The advertised wait, in whole milliseconds: the rest is cut off. */
  function RetryAfterMs(c: Core, config: Config, now: nat): nat {
    Remaining(c, config, now) / MILLISECOND
  }

  function Settled(c: Core, config: Config, o: Outcome, now: nat): Core {
    if o.Good? then Core(Closed, 0, None)
    else if !Transient(o.fault) then c
    else if c.failures + 1 >= config.threshold then Core(Open, c.failures + 1, Some(now))
    else c.(failures := c.failures + 1)
  }

  class CircuitBreaker {
    const config: Config
    var state: Circuit
    var failures: nat
    var openedAt: Option<nat>

    function Value(): Core
      reads this
    {
      Core(state, failures, openedAt)
    }

    constructor (threshold: nat, period: nat)
      ensures config == Config(threshold, period) && Value() == INITIAL
    {
      config := Config(threshold, period);
      state, failures, openedAt := Closed, 0, None;
    }

    method Tick(now: nat) returns (snapshot: Core)
      modifies this
      ensures Value() == Ticked(old(Value()), config, now) && snapshot == Value()
    {
      if state == Open && openedAt.Some? {
        if Elapsed(openedAt.value, now) >= config.period {
          state := HalfOpen;
        }
      }
      snapshot := Core(state, failures, openedAt);
    }

    /** The first half of a call: `None` lets it start, `Some(ms)` refuses it. The wait is computed from
        the snapshot with a second, later clock reading. */
    method Enter(now: nat, read: nat) returns (refusal: Option<nat>)
      modifies this
      ensures Value() == Ticked(old(Value()), config, now)
      ensures refusal == if Value().state == Open then Some(RetryAfterMs(Value(), config, read)) else None
    {
      var snapshot := Tick(now);
      if snapshot.state == Open {
        refusal := Some(RetryAfterMs(snapshot, config, read));
      } else {
        refusal := None;
      }
    }

    /** The second half of a call. */
    method Settle(o: Outcome, now: nat)
      modifies this
      ensures Value() == Settled(old(Value()), config, o, now)
    {
      match o
      case Good =>
        failures := 0;
        state := Closed;
        openedAt := None;
      case Bad(f) =>
        if Transient(f) {
          failures := failures + 1;
          if failures >= config.threshold {
            state := Open;
            openedAt := Some(now);
          }
        }
    }
  }

  /** Exactly a timeout, an unreachable destination, an exhausted pool and an open circuit are counted, a success
      sets the count back, and everything else leaves the breaker as it is. */
  lemma CountedExactly(c: Core, config: Config, o: Outcome, now: nat)
    ensures var counted := o.Bad? && o.fault in {Timeout, DestinationDown, PoolExhausted, CircuitOpen};
            && (counted <==> Settled(c, config, o, now).failures == c.failures + 1)
            && (o.Bad? && !counted ==> Settled(c, config, o, now) == c)
            && (o.Good? ==> Settled(c, config, o, now) == INITIAL)
  {
    if o.Bad? {
      TransientFaults(o.fault);
    }
  }

  // ----- interleavings of concurrent calls -----------------------------------------------

  /** One critical section of one task: a state query, the first half of call `id`, or its second half. */
  datatype Event = Look(now: nat) | Enter(id: nat, now: nat) | Settle(id: nat, outcome: Outcome, now: nat)

  /** A run, latest event outermost. */
  datatype History = Start | Then(past: History, event: Event)

  datatype World = World(core: Core, inFlight: set<nat>)

  function After(h: History, config: Config): World {
    match h
    case Start => World(INITIAL, {})
    case Then(p, Look(now)) =>
      var w := After(p, config);
      w.(core := Ticked(w.core, config, now))
    case Then(p, Enter(id, now)) =>
      var w := After(p, config);
      var core := Ticked(w.core, config, now);
      World(core, if core.state == Open then w.inFlight else w.inFlight + {id})
    case Then(p, Settle(id, o, now)) =>
      var w := After(p, config);
      World(Settled(w.core, config, o, now), w.inFlight - {id})
  }

  /** Time of the latest event. */
  function Now(h: History): nat {
    match h
    case Start => 0
    case Then(_, e) => e.now
  }

  /** Critical sections see a clock that never goes back, and only a call in flight settles. */
  predicate Legal(h: History, config: Config) {
    match h
    case Start => true
    case Then(p, e) =>
      && Legal(p, config) && Now(p) <= e.now
      && (e.Enter? ==> e.id !in After(p, config).inFlight)
      && (e.Settle? ==> e.id in After(p, config).inFlight)
  }

  /** The transient failures settled since the last settled success. */
  function FailuresSince(h: History): nat {
    match h
    case Start => 0
    case Then(p, Settle(_, o, _)) =>
      if o.Good? then 0 else FailuresSince(p) + if Transient(o.fault) then 1 else 0
    case Then(p, _) => FailuresSince(p)
  }

  /** When the last of them settled. */
  function LastFailure(h: History): nat
    requires FailuresSince(h) > 0
  {
    if h.event.Settle? && Retryable(h.event.outcome) then h.event.now else LastFailure(h.past)
  }

  /** Whether the breaker was looked at or tried since then, and after the open period. */
  predicate Probed(h: History, config: Config)
    requires FailuresSince(h) > 0
  {
    if h.event.Settle? && Retryable(h.event.outcome) then false
    else
      || (!h.event.Settle? && h.event.now - LastFailure(h.past) >= config.period)
      || Probed(h.past, config)
  }

  /** The breaker's fields are a function of the history alone, which calls are still out included. */
  predicate Tells(h: History, config: Config) {
    var c, n := After(h, config).core, FailuresSince(h);
    && c.failures == n
    && (if n < config.threshold then c.state == Closed && c.openedAt == None
        else
          && n > 0
          && c.openedAt == Some(LastFailure(h))
          && LastFailure(h) <= Now(h)
          && c.state == if Probed(h, config) then HalfOpen else Open)
  }

  lemma {:induction false} HistoryDecides(h: History, config: Config)
    requires Legal(h, config) && config.threshold >= 1
    ensures Tells(h, config)
  {
    if h.Then? {
      HistoryDecides(h.past, config);
    }
  }

  /** Closed exactly when the count is below the threshold, and `openedAt` is set exactly otherwise. */
  lemma ClosedIffBelowThreshold(h: History, config: Config)
    requires Legal(h, config) && config.threshold >= 1
    ensures var c := After(h, config).core;
            && c.failures == FailuresSince(h)
            && (c.state == Closed <==> FailuresSince(h) < config.threshold)
            && (c.openedAt.Some? <==> c.state != Closed)
  {
    HistoryDecides(h, config);
  }

  /** Whether a call that enters now would start. */
  predicate Admits(h: History, config: Config, now: nat) {
    Ticked(After(h, config).core, config, now).state != Open
  }

  /** The success that closes the breaker has been seen, or the open period is over. */
  predicate MayStart(h: History, config: Config, now: nat) {
    FailuresSince(h) < config.threshold
    || (FailuresSince(h) > 0 && now - LastFailure(h) >= config.period)
  }

  lemma {:induction false} ProbedIsLate(h: History, config: Config)
    requires Legal(h, config) && FailuresSince(h) > 0 && Probed(h, config)
    ensures Now(h) - LastFailure(h) >= config.period
  {
    if !(h.event.Settle? && Retryable(h.event.outcome)) && Probed(h.past, config) {
      ProbedIsLate(h.past, config);
    }
  }

  /** A call starts exactly when the history lets it, however many others are in flight. */
  lemma AdmitsExactly(h: History, config: Config, now: nat)
    requires Legal(h, config) && config.threshold >= 1 && now >= Now(h)
    ensures Admits(h, config, now) <==> MayStart(h, config, now)
  {
    HistoryDecides(h, config);
    if FailuresSince(h) >= config.threshold && Probed(h, config) {
      ProbedIsLate(h, config);
    }
  }

  /** Every call that started in the run was let in by the history before it. */
  predicate StartsInOrder(h: History, config: Config) {
    match h
    case Start => true
    case Then(p, e) =>
      && StartsInOrder(p, config)
      && (e.Enter? ==> (e.id in After(h, config).inFlight <==> MayStart(p, config, e.now)))
  }

  lemma {:induction false} NoEarlyStart(h: History, config: Config)
    requires Legal(h, config) && config.threshold >= 1
    ensures StartsInOrder(h, config)
  {
    if h.Then? {
      NoEarlyStart(h.past, config);
      if h.event.Enter? {
        AdmitsExactly(h.past, config, h.event.now);
      }
    }
  }

  // ----- the advertised wait -------------------------------------------------------------

  /** `later` extends `h` by looks and attempts only. */
  predicate QuietSince(h: History, later: History) {
    later == h || (later.Then? && !later.event.Settle? && QuietSince(h, later.past))
  }

  lemma {:induction false} QuietKeepsFailures(h: History, later: History)
    requires QuietSince(h, later)
    ensures FailuresSince(later) == FailuresSince(h)
    ensures FailuresSince(h) > 0 ==> LastFailure(later) == LastFailure(h)
  {
    if later != h {
      QuietKeepsFailures(h, later.past);
    }
  }

  /** While nothing settles, a call starts as soon as the rest of the period is over, and none starts sooner
      unless it was over before the wait was even computed. */
  lemma RemainingIsExact(h: History, config: Config, now: nat, read: nat, later: History, time: nat)
    requires Legal(h, config) && config.threshold >= 1 && Now(h) <= now <= read && !Admits(h, config, now)
    requires QuietSince(h, later) && Legal(later, config) && time >= Now(later)
    ensures var left := Remaining(Ticked(After(h, config).core, config, now), config, read);
            && left <= config.period && (read == now ==> left > 0)
            && (time >= read + left ==> Admits(later, config, time))
            && (left > 0 && Admits(later, config, time) ==> time >= read + left)
  {
    HistoryDecides(h, config);
    AdmitsExactly(h, config, now);
    AdmitsExactly(later, config, time);
    QuietKeepsFailures(h, later);
  }

  /** A refused call that waits one millisecond longer than advertised always starts. One that waits exactly as
      long as advertised starts if and only if what was left of the period was a whole number of milliseconds. */
  lemma AdvertisedWaitIsCut(h: History, config: Config, now: nat, read: nat, later: History, time: nat)
    requires Legal(h, config) && config.threshold >= 1 && Now(h) <= now <= read && !Admits(h, config, now)
    requires QuietSince(h, later) && Legal(later, config) && time >= Now(later)
    ensures var c := Ticked(After(h, config).core, config, now);
            var ms := RetryAfterMs(c, config, read);
            && (time >= read + (ms + 1) * 1_000_000 ==> Admits(later, config, time))
            && (time == read + ms * 1_000_000 ==>
                  (Admits(later, config, time) <==> Remaining(c, config, read) % 1_000_000 == 0))
  {
    RemainingIsExact(h, config, now, read, later, time);
  }

  predicate CountDecides(h: History, config: Config) {
    After(h, config).core.state == Closed <==> FailuresSince(h) < config.threshold
  }

  /** With a threshold of zero the new breaker is closed although no count is below the threshold, so the
      count decides the state in every run exactly when the threshold is positive. */
  lemma ThresholdMustBePositive(config: Config)
    ensures (forall h :: Legal(h, config) ==> CountDecides(h, config)) <==> config.threshold >= 1
  {
    if config.threshold >= 1 {
      forall h | Legal(h, config) ensures CountDecides(h, config) {
        ClosedIffBelowThreshold(h, config);
      }
    } else {
      assert Legal(Start, config) && !CountDecides(Start, config);
    }
  }

  // ----- retry ---------------------------------------------------------------------------

  datatype Backoff = Backoff(maxAttempts: nat, initial: nat, maxDelay: nat)

  function Min(a: nat, b: nat): (m: nat)
    ensures m <= a && m <= b && (m == a || m == b)
  {
    if a < b then a else b
  }

  predicate BackedOff(policy: Backoff, scale: nat -> nat, sleeps: seq<nat>) {
    && (sleeps != [] ==> sleeps[0] == policy.initial)
    && (forall i :: 0 < i < |sleeps| ==> sleeps[i] == Min(scale(sleeps[i - 1]), policy.maxDelay))
  }

  /** Calls `f` until it answers with anything but a transient fault or the attempts are used up: `f` is
      the answer to the attempt with that number, `scale` the truncated multiplication of the delay. */
  method RetryWithBackoff(policy: Backoff, f: nat -> Outcome, scale: nat -> nat)
      returns (result: Outcome, attempts: nat, sleeps: seq<nat>)
    ensures attempts >= 1 && result == f(attempts)
    ensures forall i :: 1 <= i < attempts ==>
              f(i).Bad? && f(i).fault in {Timeout, DestinationDown, PoolExhausted, CircuitOpen}
    ensures attempts <= policy.maxAttempts || attempts == 1
    ensures result.Bad? && result.fault in {Timeout, DestinationDown, PoolExhausted, CircuitOpen} ==>
              attempts >= policy.maxAttempts
    ensures |sleeps| == attempts - 1 && BackedOff(policy, scale, sleeps)
  {
    var delay := policy.initial;
    attempts := 0;
    sleeps := [];
    while true
      invariant |sleeps| == attempts && BackedOff(policy, scale, sleeps)
      invariant delay == if sleeps == [] then policy.initial else Min(scale(sleeps[|sleeps| - 1]), policy.maxDelay)
      invariant forall i :: 1 <= i <= attempts ==> Retryable(f(i))
      invariant attempts < policy.maxAttempts || attempts == 0
      decreases policy.maxAttempts - attempts
    {
      attempts := attempts + 1;
      result := f(attempts);
      if !Retryable(result) {
        return;
      }
      if attempts >= policy.maxAttempts {
        return;
      }
      sleeps := sleeps + [delay];
      delay := Min(scale(delay), policy.maxDelay);
    }
  }

  function Total(s: seq<nat>): nat {
    if s == [] then 0 else Total(s[..|s| - 1]) + s[|s| - 1]
  }

  /** The whole wait is at most the first delay and the cap for each further one. */
  lemma {:induction false} WaitIsBounded(policy: Backoff, scale: nat -> nat, sleeps: seq<nat>)
    requires BackedOff(policy, scale, sleeps)
    ensures sleeps != [] ==> Total(sleeps) <= policy.initial + (|sleeps| - 1) * policy.maxDelay
  {
    if |sleeps| > 1 {
      var front := sleeps[..|sleeps| - 1];
      WaitIsBounded(policy, scale, front);
      var n, d := |front|, policy.maxDelay;
      assert n * d == (n - 1) * d + d;
    }
  }
}
