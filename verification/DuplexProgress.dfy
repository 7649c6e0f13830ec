/** Progress of the duplex protocol: no deadlock while the client's reader lives, bounded work per call, and
    what a dead reader leaves behind. */
module DuplexProgress {
  import opened Counting
  import opened Duplex

  // ----- no deadlock, and bounded work per call ------------------------------------------

  predicate Initiating(step: Step) {
    step.Allocate? || step.Notify? || step.Eof?
  }

  /** Some call of some peer has been allocated and not yet been answered. */
  ghost predicate Unanswered(p: Peer) {
    exists i :: i in p.requests && Delivered(p, i) == 0
  }

  /** A lane that holds anything can move: its most advanced message is never blocked. */
  lemma LaneMoves(s: State, x: Side) returns (step: Step)
    requires Valid(s) && At(s, Other(x)).up && Flat(At(s, x).lane) != []
    ensures Enabled(s, step) && !Initiating(step)
  {
    var lane := At(s, x).lane;
    if forall k :: 0 <= k < |lane| ==> lane[k] == [] {
      FlatEmpty(lane);
    }
    var k := |lane| - 1;
    while lane[k] == []
      invariant 0 <= k < |lane| && forall j :: k < j < |lane| ==> lane[j] == []
      decreases k
    {
      k := k - 1;
    }
    step := if k == |lane| - 1 then Receive(Other(x)) else Move(x, k);
  }

  /** With nothing queued or in flight, an unanswered call is carried by a task of the other peer. */
  lemma CarriedByTask(s: State, x: Side, i: int) returns (k: nat)
    requires Valid(s) && i in At(s, x).requests && Delivered(At(s, x), i) == 0
    requires Flat(s.client.lane) == [] && Flat(s.server.lane) == [] && At(s, x).callers == []
    ensures k < |At(s, Other(x)).tasks|
  {
    var p, q := At(s, x), At(s, Other(x));
    assert LawfulAt(s, x);
    assert Balanced(p, [], q, [], i);
    CountPositive(q.tasks, TaskFor(i));
    k :| 0 <= k < |q.tasks| && TaskFor(i)(q.tasks[k]);
  }

  lemma CallerMoves(s: State, x: Side) returns (step: Step)
    requires Valid(s) && At(s, x).callers != [] && Flat(At(s, x).lane) == []
    ensures Enabled(s, step) && !Initiating(step)
  {
    assert At(s, x).lane[0] == [];
    step := if At(s, x).callers[0].registered then Enqueue(x, 0) else Register(x, 0);
  }

  /** With every queue bounded, something can always move while a call is unanswered and the
      client's reader lives.  A server task that waits on an elicitation is never the last word:
      the elicitation itself has a carrier, and client tasks wait for nobody. */
  lemma NoDeadlock(s: State) returns (step: Step)
    requires Valid(s) && s.client.up && (Unanswered(s.client) || Unanswered(s.server))
    ensures Enabled(s, step) && !Initiating(step)
  {
    if Flat(s.client.lane) != [] {
      step := LaneMoves(s, Client);
    } else if Flat(s.server.lane) != [] {
      step := LaneMoves(s, Server);
    } else if s.client.callers != [] {
      step := CallerMoves(s, Client);
    } else if s.server.callers != [] {
      step := CallerMoves(s, Server);
    } else if Unanswered(s.server) {
      var i :| i in s.server.requests && Delivered(s.server, i) == 0;
      var k := CarriedByTask(s, Server, i);
      assert s.client.tasks[k] in s.client.tasks && s.client.lane[0] == [];
      var verb := s.client.tasks[k].req.verb;
      step := Finish(Client, k, if verb == ELICITATION_CREATE then Success("") else Failure(METHOD_NOT_FOUND, ""));
    } else {
      var i :| i in s.client.requests && Delivered(s.client, i) == 0;
      var k := CarriedByTask(s, Client, i);
      assert s.server.tasks[k] in s.server.tasks && s.server.lane[0] == [];
      step := Finish(Server, k, Success(""));
    }
  }

  /** Every waiter stands for an unanswered call with exactly one carrier, so a quiescent
      system has no waiters. */
  lemma PendingIsUnanswered(s: State, x: Side, i: int)
    requires Valid(s) && At(s, x).up && i in At(s, x).pending
    ensures var p, q := At(s, x), At(s, Other(x));
            Unanswered(p) && Carriers(p, Flat(p.lane), q, Flat(q.lane), i) == 1
  {
    var p, q := At(s, x), At(s, Other(x));
    assert LawfulAt(s, x);
    assert Balanced(p, Flat(p.lane), q, Flat(q.lane), i);
  }

  // Steps still owed: a reply needs at most five moves, a task one more than a reply, a
  // request its own moves and a task, a caller two steps and a request.
  function CallerWork(cs: seq<Caller>): nat {
    if cs == [] then 0 else (if cs[0].registered then 12 else 13) + CallerWork(cs[1..])
  }

  function StageWork(ms: seq<Message>, moves: nat): nat {
    if ms == [] then 0 else moves + (if ms[0].Req? then 6 else 0) + StageWork(ms[1..], moves)
  }

  function LaneWork(lane: Lane): nat {
    if lane == [] then 0 else StageWork(lane[0], |lane|) + LaneWork(lane[1..])
  }

  function PeerWork(p: Peer): nat {
    CallerWork(p.callers) + 6 * |p.tasks| + LaneWork(p.lane)
  }

  function Work(s: State): nat {
    PeerWork(s.client) + PeerWork(s.server)
  }

  lemma {:induction false} CallerWorkConcat(a: seq<Caller>, b: seq<Caller>)
    ensures CallerWork(a + b) == CallerWork(a) + CallerWork(b)
  {
    if a == [] {
      assert a + b == b;
    } else {
      assert (a + b)[1..] == a[1..] + b;
      CallerWorkConcat(a[1..], b);
    }
  }

  lemma CallerWorkUpdate(cs: seq<Caller>, k: nat, c: Caller)
    requires k < |cs|
    ensures CallerWork(cs) == CallerWork(Without(cs, k)) + CallerWork([cs[k]])
    ensures CallerWork(cs[k := c]) == CallerWork(Without(cs, k)) + CallerWork([c])
  {
    CallerWorkConcat(cs[..k], cs[k + 1..]);
    assert cs == cs[..k] + ([cs[k]] + cs[k + 1..]);
    CallerWorkConcat(cs[..k], [cs[k]] + cs[k + 1..]);
    CallerWorkConcat([cs[k]], cs[k + 1..]);
    assert cs[k := c] == cs[..k] + ([c] + cs[k + 1..]);
    CallerWorkConcat(cs[..k], [c] + cs[k + 1..]);
    CallerWorkConcat([c], cs[k + 1..]);
  }

  lemma {:induction false} StageWorkConcat(a: seq<Message>, b: seq<Message>, moves: nat)
    ensures StageWork(a + b, moves) == StageWork(a, moves) + StageWork(b, moves)
  {
    if a == [] {
      assert a + b == b;
    } else {
      assert (a + b)[1..] == a[1..] + b;
      StageWorkConcat(a[1..], b, moves);
    }
  }

  lemma LaneWorkPush(lane: Lane, m: Message)
    requires lane != []
    ensures LaneWork(Push(lane, m)) == LaneWork(lane) + |lane| + if m.Req? then 6 else 0
  {
    StageWorkConcat(lane[0], [m], |lane|);
    assert Push(lane, m)[1..] == lane[1..];
  }

  lemma {:induction false} LaneWorkShift(lane: Lane, k: nat)
    requires k + 1 < |lane| && lane[k] != []
    ensures LaneWork(Shift(lane, k)) == LaneWork(lane) - 1
  {
    if k == 0 {
      var m := lane[0][0];
      assert Shift(lane, 0)[1..] == lane[1..][0 := lane[1..][0] + [m]];
      StageWorkConcat(lane[1], [m], |lane| - 1);
      assert lane[1..][0 := lane[1..][0] + [m]][1..] == lane[1..][1..];
    } else {
      LaneWorkShift(lane[1..], k - 1);
      assert Shift(lane, k)[1..] == Shift(lane[1..], k - 1);
    }
  }

  lemma {:induction false} LaneWorkPop(lane: Lane)
    requires lane != [] && lane[|lane| - 1] != []
    ensures LaneWork(Pop(lane)) == LaneWork(lane) - 1 - if lane[|lane| - 1][0].Req? then 6 else 0
  {
    if |lane| > 1 {
      LaneWorkPop(lane[1..]);
      assert Pop(lane)[1..] == Pop(lane[1..]);
    }
  }

  lemma PeerWorkChange(s: State, x: Side, p: Peer)
    ensures Work(With(s, x, p)) - Work(s) == PeerWork(p) - PeerWork(At(s, x))
  {}

  /** A new call, notification or shutdown owes at most thirteen further steps. */
  lemma NewWorkIsBounded(s: State, step: Step)
    requires Shaped(s.client) && Shaped(s.server) && Enabled(s, step) && Initiating(step)
    ensures Work(Apply(s, step)) <= Work(s) + 13
  {
    match step
    case Allocate(x, verb, params, t) =>
      CallerWorkConcat(At(s, x).callers, [Caller(Request(At(s, x).next, verb, params), false)]);
      PeerWorkChange(s, x, At(Apply(s, step), x));
    case Notify(verb) =>
      LaneWorkPush(s.client.lane, Note(verb));
    case Eof =>
  }

  lemma RegisterUsesWork(p: Peer, k: nat)
    requires k < |p.callers| && !p.callers[k].registered
    ensures CallerWork(p.callers[k := p.callers[k].(registered := true)]) < CallerWork(p.callers)
  {
    CallerWorkUpdate(p.callers, k, p.callers[k].(registered := true));
  }

  lemma EnqueueUsesWork(p: Peer, k: nat)
    requires Shaped(p) && k < |p.callers| && p.callers[k].registered
    ensures CallerWork(Without(p.callers, k)) + LaneWork(Push(p.lane, Req(p.callers[k].req)))
            < CallerWork(p.callers) + LaneWork(p.lane)
  {
    CallerWorkUpdate(p.callers, k, p.callers[k]);
    LaneWorkPush(p.lane, Req(p.callers[k].req));
  }

  /** Every other step uses up a unit of the work owed. */
  lemma StepUsesWork(s: State, step: Step)
    requires Shaped(s.client) && Shaped(s.server) && Enabled(s, step) && !Initiating(step)
    ensures Work(Apply(s, step)) < Work(s)
  {
    match step
    case Move(x, k) =>
      LaneWorkShift(At(s, x).lane, k);
    case Receive(x) =>
      LaneWorkPop(At(s, Other(x)).lane);
    case Register(x, k) =>
      RegisterUsesWork(At(s, x), k);
    case Enqueue(x, k) =>
      EnqueueUsesWork(At(s, x), k);
    case Finish(x, k, reply) =>
      LaneWorkPush(At(s, x).lane, Resp(At(s, x).tasks[k].req.id, reply));
  }

  function Initiations(steps: seq<Step>): nat {
    Count(steps, Initiating)
  }

  lemma {:induction false} RunUsesWork(s: State, steps: seq<Step>)
    requires Valid(s) && Runs(s, steps)
    ensures |steps| + Work(After(s, steps)) <= Work(s) + 14 * Initiations(steps)
    decreases |steps|
  {
    if steps != [] {
      if Initiating(steps[0]) {
        NewWorkIsBounded(s, steps[0]);
      } else {
        StepUsesWork(s, steps[0]);
      }
      StepKeepsValid(s, steps[0]);
      RunUsesWork(Apply(s, steps[0]), steps[1..]);
    }
  }

  lemma {:induction false} LaneWorkEmpty(lane: Lane)
    requires forall k :: 0 <= k < |lane| ==> lane[k] == []
    ensures LaneWork(lane) == 0
  {
    if lane != [] {
      LaneWorkEmpty(lane[1..]);
    }
  }

  ghost predicate Quiescent(s: State) {
    forall step :: Enabled(s, step) ==> Initiating(step)
  }

  lemma QuiescentMeansAnswered(s: State)
    requires Valid(s) && s.client.up && Quiescent(s)
    ensures !Unanswered(s.client) && !Unanswered(s.server)
    ensures s.client.pending == {} && s.server.pending == {}
  {
    if Unanswered(s.client) || Unanswered(s.server) {
      var step := NoDeadlock(s);
    }
    forall i | i in s.client.pending ensures false {
      PendingIsUnanswered(s, Client, i);
    }
    forall i | i in s.server.pending ensures false {
      PendingIsUnanswered(s, Server, i);
    }
  }

  lemma InitOwesNothing(cb: int, sb: int, wire: nat)
    requires wire > 0
    ensures Work(Init(cb, sb, wire)) == 0
  {
    LaneWorkEmpty(Init(cb, sb, wire).client.lane);
    LaneWorkEmpty(Init(cb, sb, wire).server.lane);
  }

  /** Every call is answered: whatever the interleaving, a run makes at most fourteen steps per
      call, notification or shutdown it starts; and when, with the reader alive, only new work
      could be started, every call of both peers has been answered and no waiter is left. */
  lemma EveryCallIsAnswered(cb: int, sb: int, wire: nat, steps: seq<Step>)
    requires wire > 0 && Runs(Init(cb, sb, wire), steps)
    ensures |steps| <= 14 * Initiations(steps)
    ensures var s := After(Init(cb, sb, wire), steps);
            s.client.up && Quiescent(s)
            ==> s.client.pending == {} && s.server.pending == {}
                && !Unanswered(s.client) && !Unanswered(s.server)
  {
    var s0 := Init(cb, sb, wire);
    InitValid(cb, sb, wire);
    InitOwesNothing(cb, sb, wire);
    RunUsesWork(s0, steps);
    RunKeepsValid(s0, steps);
    var s := After(s0, steps);
    if s.client.up && Quiescent(s) {
      QuiescentMeansAnswered(s);
    }
  }

  // ----- the condition is exact: a dead reader strands later calls ------------------------

  /** Once the client's reader has ended, a registered call is never resolved. */
  lemma {:induction false} DeadReaderStrands(s: State, steps: seq<Step>, i: int)
    requires Runs(s, steps) && !s.client.up && i in s.client.pending
    ensures i in After(s, steps).client.pending && After(s, steps).client.delivered == s.client.delivered
    decreases |steps|
  {
    if steps != [] {
      DeadReaderStrands(Apply(s, steps[0]), steps[1..], i);
    }
  }

  /** And such calls exist: shut down, then call. */
  lemma StrandedCallIsReachable()
    ensures var steps := [Eof, Allocate(Client, "ping", "", 0), Register(Client, 0)];
            Runs(Init(1, 1_000_000, 1), steps) && 1 in After(Init(1, 1_000_000, 1), steps).client.pending
  {
    var s0 := Init(1, 1_000_000, 1);
    var s1 := Apply(s0, Eof);
    var a := Allocate(Client, "ping", "", 0);
    var s2 := Apply(s1, a);
    var s3 := Apply(s2, Register(Client, 0));
    assert [Eof, a, Register(Client, 0)][1..] == [a, Register(Client, 0)];
    assert [a, Register(Client, 0)][1..] == [Register(Client, 0)];
    assert Runs(s2, [Register(Client, 0)]);
    assert After(s2, [Register(Client, 0)]) == s3;
  }
}
