/** What whole runs of the duplex protocol keep besides the replies: the calls as they were asked, bounded queues,
    order of arrival, callbacks that hold their tool, and exactly which calls a dead reader strands. */
module DuplexRuns {
  import opened Wrappers
  import opened Counting
  import opened Duplex

  // ----- runs in two parts ---------------------------------------------------------------

  lemma {:induction false} RunInParts(s: State, a: seq<Step>, b: seq<Step>)
    ensures Runs(s, a + b) <==> Runs(s, a) && Runs(After(s, a), b)
    ensures Runs(s, a + b) ==> After(s, a + b) == After(After(s, a), b)
    decreases |a|
  {
    if a == [] {
      assert a + b == b;
    } else {
      assert (a + b)[0] == a[0] && (a + b)[1..] == a[1..] + b;
      if Enabled(s, a[0]) {
        RunInParts(Apply(s, a[0]), a[1..], b);
      }
    }
  }

  lemma RunAround(s: State, a: seq<Step>, step: Step, b: seq<Step>)
    requires Runs(s, a + [step] + b)
    ensures Runs(s, a) && Enabled(After(s, a), step) && Runs(Apply(After(s, a), step), b)
    ensures After(s, a + [step] + b) == After(Apply(After(s, a), step), b)
  {
    assert a + [step] + b == a + ([step] + b);
    RunInParts(s, a, [step] + b);
    assert ([step] + b)[0] == step && ([step] + b)[1..] == b;
  }

  // ----- what a dead reader releases, and what it strands --------------------------------

  /** The call has been registered, and its waiter is gone. */
  predicate Released(p: Peer, i: int) {
    i < p.next && i !in p.pending && forall c :: c in p.callers && c.req.id == i ==> c.registered
  }

  lemma StepKeepsReleased(s: State, step: Step, i: int)
    requires Enabled(s, step) && Released(s.client, i)
    ensures Released(Apply(s, step).client, i)
  {
  }

  lemma {:induction false} StaysReleased(s: State, steps: seq<Step>, i: int)
    requires Runs(s, steps) && Released(s.client, i)
    ensures Released(After(s, steps).client, i)
    decreases |steps|
  {
    if steps != [] {
      StepKeepsReleased(s, steps[0], i);
      StaysReleased(Apply(s, steps[0]), steps[1..], i);
    }
  }

  /** A waiter of a living reader is released when the reader ends. */
  lemma EofReleases(s: State, i: int)
    requires Valid(s) && s.client.up && i in s.client.pending
    ensures Released(Apply(s, Eof).client, i)
  {
    var p, q := s.client, s.server;
    var out, back := Flat(p.lane), Flat(q.lane);
    assert LawfulAt(s, Client) && Balanced(p, out, q, back, i);
    forall c | c in p.callers && c.req.id == i ensures c.registered {
      if !c.registered {
        assert UnregisteredFor(i)(c);
        CountPositive(p.callers, UnregisteredFor(i));
      }
    }
  }

  /** The ids the client registers in a run. */
  function RegisteredIds(s: State, steps: seq<Step>): set<int>
    requires Runs(s, steps)
    decreases |steps|
  {
    if steps == [] then {}
    else
      var step := steps[0];
      (if step.Register? && step.side == Client then {s.client.callers[step.k].req.id} else {})
      + RegisteredIds(Apply(s, step), steps[1..])
  }

  lemma {:induction false} DeadReaderKeeps(s: State, steps: seq<Step>)
    requires Runs(s, steps) && !s.client.up
    ensures var p := After(s, steps).client;
            && !p.up && p.pending == s.client.pending + RegisteredIds(s, steps)
            && p.delivered == s.client.delivered
    decreases |steps|
  {
    if steps != [] {
      DeadReaderKeeps(Apply(s, steps[0]), steps[1..]);
    }
  }

  /** The reader's end releases every waiter there is, for good, and strands exactly the calls registered
      behind it: in no continuation is any of these resolved or released. */
  lemma StrandedExactly(cb: int, sb: int, wire: nat, a: seq<Step>, b: seq<Step>)
    requires wire > 0 && Runs(Init(cb, sb, wire), a + [Eof] + b)
    ensures Runs(Init(cb, sb, wire), a) && After(Init(cb, sb, wire), a).client.up
            && Runs(Apply(After(Init(cb, sb, wire), a), Eof), b)
    ensures var before, end := After(Init(cb, sb, wire), a), After(Init(cb, sb, wire), a + [Eof] + b);
            && end.client.pending == RegisteredIds(Apply(before, Eof), b)
            && before.client.pending !! end.client.pending
            && end.client.delivered == before.client.delivered
  {
    var s := Init(cb, sb, wire);
    RunAround(s, a, Eof, b);
    InitValid(cb, sb, wire);
    RunKeepsValid(s, a);
    var before := After(s, a);
    DeadReaderKeeps(Apply(before, Eof), b);
    forall i | i in before.client.pending ensures i !in After(Apply(before, Eof), b).client.pending {
      EofReleases(before, i);
      StaysReleased(Apply(before, Eof), b, i);
    }
  }

  // ----- calls stay as they were asked ---------------------------------------------------

  /** The ids handed out so far are those from the base up to the next one. */
  ghost predicate Numbered(p: Peer, base: int) {
    base <= p.next && forall i :: i in p.requests <==> base <= i < p.next
  }

  lemma StepKeepsNumbered(s: State, step: Step, x: Side, base: int)
    requires Enabled(s, step) && Numbered(At(s, x), base)
    ensures Numbered(At(Apply(s, step), x), base)
  {
  }

  lemma {:induction false} RunKeepsNumbered(s: State, steps: seq<Step>, x: Side, base: int)
    requires Runs(s, steps) && Numbered(At(s, x), base)
    ensures Numbered(At(After(s, steps), x), base)
    decreases |steps|
  {
    if steps != [] {
      StepKeepsNumbered(s, steps[0], x, base);
      RunKeepsNumbered(Apply(s, steps[0]), steps[1..], x, base);
    }
  }

  /** In every run both sides hand out their ids one by one, without a gap, from their base. */
  lemma IdsCountUp(cb: int, sb: int, wire: nat, steps: seq<Step>, i: int)
    requires wire > 0 && Runs(Init(cb, sb, wire), steps)
    ensures var s := After(Init(cb, sb, wire), steps);
            && (i in s.client.requests <==> cb <= i < s.client.next)
            && (i in s.server.requests <==> sb <= i < s.server.next)
  {
    RunKeepsNumbered(Init(cb, sb, wire), steps, Client, cb);
    RunKeepsNumbered(Init(cb, sb, wire), steps, Server, sb);
  }

  lemma {:induction false} RequestsStay(s: State, steps: seq<Step>, x: Side, i: int)
    requires Runs(s, steps) && i in At(s, x).requests && i < At(s, x).next
    ensures i in At(After(s, steps), x).requests && At(After(s, steps), x).requests[i] == At(s, x).requests[i]
    decreases |steps|
  {
    if steps != [] {
      RequestsStay(Apply(s, steps[0]), steps[1..], x, i);
    }
  }

  /** The request on record for a call is, for the rest of the run, the one the caller asked for. */
  lemma CallIsKeptAsAsked(s: State, a: seq<Step>, b: seq<Step>, x: Side, verb: string, params: string, t: nat)
    requires Runs(s, a + [Allocate(x, verb, params, t)] + b)
    ensures Runs(s, a)
    ensures var i, end := At(After(s, a), x).next, After(s, a + [Allocate(x, verb, params, t)] + b);
            i in At(end, x).requests && At(end, x).requests[i] == Request(i, verb, params)
  {
    var step := Allocate(x, verb, params, t);
    RunAround(s, a, step, b);
    RequestsStay(Apply(After(s, a), step), b, x, At(After(s, a), x).next);
  }

  // ----- bounded queues ------------------------------------------------------------------

  predicate Held(lane: Lane, room: seq<nat>) {
    |lane| == |room| && forall k :: 0 <= k < |room| ==> |lane[k]| <= room[k]
  }

  /** Each buffer of the lane holds at most what it has room for. */
  predicate Roomy(p: Peer, room: seq<nat>) {
    p.room == room && Held(p.lane, room)
  }

  lemma PushKeepsHeld(lane: Lane, room: seq<nat>, m: Message)
    requires Held(lane, room) && lane != [] && |lane[0]| < room[0]
    ensures Held(Push(lane, m), room)
  {
  }

  lemma ShiftKeepsHeld(lane: Lane, room: seq<nat>, k: nat)
    requires Held(lane, room) && k + 1 < |lane| && lane[k] != [] && |lane[k + 1]| < room[k + 1]
    ensures Held(Shift(lane, k), room)
  {
  }

  lemma PopKeepsHeld(lane: Lane, room: seq<nat>)
    requires Held(lane, room) && lane != [] && lane[|lane| - 1] != []
    ensures Held(Pop(lane), room)
  {
  }

  lemma StepKeepsRoomy(s: State, step: Step, x: Side, room: seq<nat>)
    requires Enabled(s, step) && Roomy(At(s, x), room)
    ensures Roomy(At(Apply(s, step), x), room)
  {
    var lane := At(s, x).lane;
    match step
    case Enqueue(y, k) =>
      if y == x { PushKeepsHeld(lane, room, Req(At(s, x).callers[k].req)); }
    case Notify(verb) =>
      if x == Client { PushKeepsHeld(lane, room, Note(verb)); }
    case Finish(y, k, reply) =>
      if y == x { PushKeepsHeld(lane, room, Resp(At(s, x).tasks[k].req.id, reply)); }
    case Move(y, k) =>
      if y == x { ShiftKeepsHeld(lane, room, k); }
    case Receive(y) =>
      if y == Other(x) { PopKeepsHeld(lane, room); }
    case _ =>
  }

  lemma {:induction false} RunKeepsRoomy(s: State, steps: seq<Step>, x: Side, room: seq<nat>)
    requires Runs(s, steps) && Roomy(At(s, x), room)
    ensures Roomy(At(After(s, steps), x), room)
    decreases |steps|
  {
    if steps != [] {
      StepKeepsRoomy(s, steps[0], x, room);
      RunKeepsRoomy(Apply(s, steps[0]), steps[1..], x, room);
    }
  }

  /** In every run both outboxes and the server's inbox hold at most 64 messages, each reader and writer one. */
  lemma QueuesStayBounded(cb: int, sb: int, wire: nat, steps: seq<Step>)
    requires wire > 0 && Runs(Init(cb, sb, wire), steps)
    ensures var s := After(Init(cb, sb, wire), steps);
            Roomy(s.client, [64, 1, wire, 1, 64]) && Roomy(s.server, [64, 1, wire, 1])
  {
    RunKeepsRoomy(Init(cb, sb, wire), steps, Client, [64, 1, wire, 1, 64]);
    RunKeepsRoomy(Init(cb, sb, wire), steps, Server, [64, 1, wire, 1]);
  }

  // ----- order of arrival ----------------------------------------------------------------

  /** What side `x` queues in a step. */
  function SentIn(s: State, step: Step, x: Side): seq<Message>
    requires Enabled(s, step)
  {
    match step
    case Enqueue(y, k) => if y == x then [Req(At(s, x).callers[k].req)] else []
    case Notify(verb) => if x == Client then [Note(verb)] else []
    case Finish(y, k, reply) => if y == x then [Resp(At(s, x).tasks[k].req.id, reply)] else []
    case _ => []
  }

  /** What the other side's reader takes from `x`'s lane in a step. */
  function TakenIn(s: State, step: Step, x: Side): seq<Message>
    requires Enabled(s, step)
  {
    if step == Receive(Other(x)) then var lane := At(s, x).lane; [lane[|lane| - 1][0]] else []
  }

  function Sent(s: State, steps: seq<Step>, x: Side): seq<Message>
    requires Runs(s, steps)
    decreases |steps|
  {
    if steps == [] then [] else SentIn(s, steps[0], x) + Sent(Apply(s, steps[0]), steps[1..], x)
  }

  function Taken(s: State, steps: seq<Step>, x: Side): seq<Message>
    requires Runs(s, steps)
    decreases |steps|
  {
    if steps == [] then [] else TakenIn(s, steps[0], x) + Taken(Apply(s, steps[0]), steps[1..], x)
  }

  /** The messages of `x`'s lane before and after a step, with what the step sends and takes. */
  predicate Conserves(s: State, step: Step, x: Side)
    requires Enabled(s, step)
  {
    Flat(At(s, x).lane) + SentIn(s, step, x) == TakenIn(s, step, x) + Flat(At(Apply(s, step), x).lane)
  }

  lemma OtherLaneKeepsOrder(s: State, step: Step, x: Side)
    requires Enabled(s, step) && At(Apply(s, step), x).lane == At(s, x).lane
    requires SentIn(s, step, x) == [] && TakenIn(s, step, x) == []
    ensures Conserves(s, step, x)
  {
  }

  lemma PushKeepsOrder(s: State, step: Step, x: Side, m: Message)
    requires Enabled(s, step) && At(s, x).lane != [] && At(Apply(s, step), x).lane == Push(At(s, x).lane, m)
    requires SentIn(s, step, x) == [m] && TakenIn(s, step, x) == []
    ensures Conserves(s, step, x)
  {
    FlatPush(At(s, x).lane, m);
  }

  lemma SendKeepsOrder(s: State, step: Step, x: Side)
    requires Enabled(s, step) && At(s, x).lane != [] && (step.Enqueue? || step.Notify? || step.Finish?)
    ensures Conserves(s, step, x)
  {
    if Actor(step) != x {
      OtherLaneKeepsOrder(s, step, x);
    } else {
      PushKeepsOrder(s, step, x, SentIn(s, step, x)[0]);
    }
  }

  lemma MoveKeepsOrder(s: State, step: Step, x: Side)
    requires Enabled(s, step) && step.Move?
    ensures Conserves(s, step, x)
  {
    if step.side == x {
      FlatShift(At(s, x).lane, step.k);
    } else {
      OtherLaneKeepsOrder(s, step, x);
    }
  }

  lemma ReceiveKeepsOrder(s: State, step: Step, x: Side)
    requires Enabled(s, step) && step.Receive?
    ensures Conserves(s, step, x)
  {
    if step.side == x {
      OtherLaneKeepsOrder(s, step, x);
    } else {
      FlatPop(At(s, x).lane);
      assert At(Apply(s, step), x).lane == Pop(At(s, x).lane);
    }
  }

  lemma StepKeepsOrder(s: State, step: Step, x: Side)
    requires Enabled(s, step) && At(s, x).lane != []
    ensures Conserves(s, step, x)
  {
    match step
    case Move(_, _) => MoveKeepsOrder(s, step, x);
    case Receive(_) => ReceiveKeepsOrder(s, step, x);
    case Enqueue(_, _) => SendKeepsOrder(s, step, x);
    case Notify(_) => SendKeepsOrder(s, step, x);
    case Finish(_, _, _) => SendKeepsOrder(s, step, x);
    case _ => OtherLaneKeepsOrder(s, step, x);
  }

  lemma StepKeepsLane(s: State, step: Step, x: Side)
    requires Enabled(s, step) && At(s, x).lane != []
    ensures At(Apply(s, step), x).lane != []
  {
  }

  lemma OrderInParts(f: seq<Message>, s1: seq<Message>, s2: seq<Message>, t1: seq<Message>, t2: seq<Message>,
                     f1: seq<Message>, f2: seq<Message>)
    requires f + s1 == t1 + f1 && f1 + s2 == t2 + f2
    ensures f + (s1 + s2) == (t1 + t2) + f2
  {
    assert f + (s1 + s2) == (f + s1) + s2 == t1 + (f1 + s2);
  }

  lemma {:induction false} RunKeepsOrder(s: State, steps: seq<Step>, x: Side)
    requires Runs(s, steps) && At(s, x).lane != []
    ensures Flat(At(s, x).lane) + Sent(s, steps, x) == Taken(s, steps, x) + Flat(At(After(s, steps), x).lane)
    decreases |steps|
  {
    if steps != [] {
      var s', rest := Apply(s, steps[0]), steps[1..];
      StepKeepsOrder(s, steps[0], x);
      StepKeepsLane(s, steps[0], x);
      RunKeepsOrder(s', rest, x);
      OrderInParts(Flat(At(s, x).lane), SentIn(s, steps[0], x), Sent(s', rest, x), TakenIn(s, steps[0], x),
                   Taken(s', rest, x), Flat(At(s', x).lane), Flat(At(After(s', rest), x).lane));
    }
  }

  /** In every run, what one side has read and what is still on its way are together exactly what the other side
      sent, in the order it was sent: nothing is lost, doubled or overtaken. */
  lemma ArrivesInOrder(cb: int, sb: int, wire: nat, steps: seq<Step>, x: Side)
    requires wire > 0 && Runs(Init(cb, sb, wire), steps)
    ensures var s := Init(cb, sb, wire);
            Sent(s, steps, x) == Taken(s, steps, x) + Flat(At(After(s, steps), x).lane)
  {
    var s := Init(cb, sb, wire);
    FlatEmpty(At(s, x).lane);
    RunKeepsOrder(s, steps, x);
    assert [] + Sent(s, steps, x) == Sent(s, steps, x);
  }

  // ----- a tool waits for its elicitation ------------------------------------------------

  predicate AwaitedAt(tasks: seq<Task>, k: int, i: int) {
    0 <= k < |tasks| && tasks[k].awaiting == Some(i)
  }

  /** Every unanswered elicitation is awaited by a running tool. */
  ghost predicate Awaited(p: Peer) {
    forall i :: i in p.requests && Delivered(p, i) == 0 ==> exists k :: AwaitedAt(p.tasks, k, i)
  }

  lemma AllocateKeepsAwaited(s: State, verb: string, params: string, t: nat)
    requires Awaited(s.server) && Enabled(s, Allocate(Server, verb, params, t))
    ensures Awaited(Apply(s, Allocate(Server, verb, params, t)).server)
  {
    var p, p' := s.server, Apply(s, Allocate(Server, verb, params, t)).server;
    forall i | i in p'.requests && Delivered(p', i) == 0 ensures exists k :: AwaitedAt(p'.tasks, k, i) {
      if i == p.next {
        assert AwaitedAt(p'.tasks, t, i);
      } else {
        assert i in p.requests && Delivered(p, i) == 0;
        var k :| AwaitedAt(p.tasks, k, i);
        assert AwaitedAt(p'.tasks, k, i);
      }
    }
  }

  lemma FinishKeepsAwaited(s: State, n: nat, reply: Reply)
    requires Awaited(s.server) && Enabled(s, Finish(Server, n, reply))
    ensures Awaited(Apply(s, Finish(Server, n, reply)).server)
  {
    var p, p' := s.server, Apply(s, Finish(Server, n, reply)).server;
    forall i | i in p'.requests && Delivered(p', i) == 0 ensures exists k :: AwaitedAt(p'.tasks, k, i) {
      assert i in p.requests && Delivered(p, i) == 0;
      var k :| AwaitedAt(p.tasks, k, i);
      assert Blocked(p, p.tasks[k]) && k != n;
      assert AwaitedAt(p'.tasks, if k < n then k else k - 1, i);
    }
  }

  lemma ConsumeKeepsAwaited(p: Peer, m: Message)
    requires Awaited(p)
    ensures Awaited(Consume(p, m))
  {
    var p' := Consume(p, m);
    forall i | i in p'.requests && Delivered(p', i) == 0 ensures exists k :: AwaitedAt(p'.tasks, k, i) {
      if p'.delivered != p.delivered {
        CountConcat(p.delivered, [Delivery(m.id, m.reply)], DeliveryFor(i));
      }
      assert i in p.requests && Delivered(p, i) == 0;
      var k :| AwaitedAt(p.tasks, k, i);
      assert AwaitedAt(p'.tasks, k, i);
    }
  }

  lemma StepKeepsAwaited(s: State, step: Step)
    requires Awaited(s.server) && Enabled(s, step)
    ensures Awaited(Apply(s, step).server)
  {
    match step
    case Allocate(Server, verb, params, t) => AllocateKeepsAwaited(s, verb, params, t);
    case Finish(Server, k, reply) => FinishKeepsAwaited(s, k, reply);
    case Receive(Server) =>
      var lane := s.client.lane;
      ConsumeKeepsAwaited(s.server, lane[|lane| - 1][0]);
    case _ => AwaitedIsLocal(s.server, Apply(s, step).server);
  }

  lemma AwaitedIsLocal(p: Peer, p': Peer)
    requires Awaited(p) && p'.requests == p.requests && p'.delivered == p.delivered && p'.tasks == p.tasks
    ensures Awaited(p')
  {
    forall i | i in p'.requests && Delivered(p', i) == 0 ensures exists k :: AwaitedAt(p'.tasks, k, i) {
      assert Delivered(p, i) == 0;
    }
  }

  lemma {:induction false} RunKeepsAwaited(s: State, steps: seq<Step>)
    requires Awaited(s.server) && Runs(s, steps)
    ensures Awaited(After(s, steps).server)
    decreases |steps|
  {
    if steps != [] {
      StepKeepsAwaited(s, steps[0]);
      RunKeepsAwaited(Apply(s, steps[0]), steps[1..]);
    }
  }

  /** In every run a tool that has called back neither answers nor calls back again before its elicitation has
      been answered: while one is unanswered, the tool that asked it is still running and waits for it. */
  lemma ToolsAwaitTheirAnswer(cb: int, sb: int, wire: nat, steps: seq<Step>, i: int)
    requires wire > 0 && Runs(Init(cb, sb, wire), steps)
    requires var p := After(Init(cb, sb, wire), steps).server; i in p.requests && Delivered(p, i) == 0
    ensures var p := After(Init(cb, sb, wire), steps).server;
            exists k :: 0 <= k < |p.tasks| && p.tasks[k].awaiting == Some(i)
  {
    RunKeepsAwaited(Init(cb, sb, wire), steps);
    var p := After(Init(cb, sb, wire), steps).server;
    var k :| AwaitedAt(p.tasks, k, i);
    assert 0 <= k < |p.tasks| && p.tasks[k].awaiting == Some(i);
  }
}
