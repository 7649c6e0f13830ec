/** The duplex MCP request/response protocol between `mcp-client` and the stdio loop of
    `mcp-server`, as a step system over every interleaving of the callers, spawned handler
    tasks, writer tasks, reader tasks and the server's dispatch loop.

    Each peer allocates ids from its own counter, registers a waiter, and queues its request.
    The other peer answers from a spawned task, in any order.  A task on the server may
    itself call back to the client (elicitation) before it answers. */
module Duplex {
  import opened Wrappers
  import opened Counting

  // ----- messages ---------------------------------------------------------------------

  datatype Side = Client | Server

  function Other(x: Side): Side {
    if x == Client then Server else Client
  }

  datatype Request = Request(id: int, verb: string, params: string)

  datatype Reply = Success(value: string) | Failure(code: int, message: string)

  datatype Message = Req(req: Request) | Resp(id: int, reply: Reply) | Note(verb: string)

  const ELICITATION_CREATE := "elicitation/create"
  const METHOD_NOT_FOUND := -32601
  const INVALID_PARAMS := -32602
  const INTERNAL_ERROR := -32603

  /** What a handler on side `x` may answer.  The server's handlers are arbitrary.  The
      client serves `elicitation/create` only: the delegate's answer, or one of two errors. */
  predicate MayAnswer(x: Side, r: Request, reply: Reply) {
    x == Server
    || (if r.verb == ELICITATION_CREATE
        then reply.Success? || reply.code in {INVALID_PARAMS, INTERNAL_ERROR}
        else reply.Failure? && reply.code == METHOD_NOT_FOUND)
  }

  // ----- lanes: a pipeline of bounded FIFO buffers -----------------------------------

  /** Everything on its way from one peer to the other: stage 0 is the sender's queue, then
      the message in the writer's hands, the wire, the message in the reader's hands, and on
      the server the inbound queue. */
  type Lane = seq<seq<Message>>

  /** The lane as one FIFO queue, oldest message first. */
  function Flat(lane: Lane): seq<Message> {
    if lane == [] then [] else Flat(lane[1..]) + lane[0]
  }

  function Push(lane: Lane, m: Message): Lane
    requires lane != []
  {
    lane[0 := lane[0] + [m]]
  }

  function Shift(lane: Lane, k: nat): Lane
    requires k + 1 < |lane| && lane[k] != []
  {
    lane[k := lane[k][1..]][k + 1 := lane[k + 1] + [lane[k][0]]]
  }

  function Pop(lane: Lane): Lane
    requires lane != [] && lane[|lane| - 1] != []
  {
    lane[|lane| - 1 := lane[|lane| - 1][1..]]
  }

  lemma FlatPush(lane: Lane, m: Message)
    requires lane != []
    ensures Flat(Push(lane, m)) == Flat(lane) + [m]
  {
    assert Push(lane, m)[1..] == lane[1..];
  }

  /** Moving a message one stage on never changes the order of the lane's messages. */
  lemma {:induction false} FlatShift(lane: Lane, k: nat)
    requires k + 1 < |lane| && lane[k] != []
    ensures Flat(Shift(lane, k)) == Flat(lane)
  {
    if k == 0 {
      assert lane[1..][1..] == Shift(lane, 0)[1..][1..];
      assert Shift(lane, 0)[1..][0] == lane[1..][0] + [lane[0][0]];
      assert [lane[0][0]] + lane[0][1..] == lane[0];
    } else {
      FlatShift(lane[1..], k - 1);
      assert Shift(lane, k)[1..] == Shift(lane[1..], k - 1);
    }
  }

  lemma {:induction false} FlatPop(lane: Lane)
    requires lane != [] && lane[|lane| - 1] != []
    ensures Flat(lane) == [lane[|lane| - 1][0]] + Flat(Pop(lane))
  {
    if |lane| == 1 {
      assert lane[1..] == [] && Pop(lane)[1..] == [];
    } else {
      var tail := lane[1..];
      FlatPop(tail);
      assert Pop(lane)[1..] == Pop(tail);
      assert Flat(lane) == ([tail[|tail| - 1][0]] + Flat(Pop(tail))) + lane[0];
    }
  }

  // ----- peers and the composed system -------------------------------------------------

  /** A call that has an id but has not yet queued its request. */
  datatype Caller = Caller(req: Request, registered: bool)

  /** A spawned handler, and the elicitation it last started. */
  datatype Task = Task(req: Request, awaiting: Option<int>)

  datatype Answer = Answer(req: Request, reply: Reply)

  datatype Delivery = Delivery(id: int, reply: Reply)

  /** `requests`, `answers` and `delivered` record the past: every request the peer allocated,
      every reply its tasks built, every reply it handed to a waiter. */
  datatype Peer = Peer(
    next: int,
    callers: seq<Caller>,
    pending: set<int>,
    tasks: seq<Task>,
    room: seq<nat>,
    lane: Lane,
    up: bool,
    requests: map<int, Request>,
    answers: seq<Answer>,
    delivered: seq<Delivery>)

  datatype State = State(client: Peer, server: Peer)

  function At(s: State, x: Side): Peer {
    if x == Client then s.client else s.server
  }

  function With(s: State, x: Side, p: Peer): State {
    if x == Client then s.(client := p) else s.(server := p)
  }

  function Fresh(base: int, room: seq<nat>): Peer {
    Peer(base, [], {}, [], room, seq(|room|, i => []), true, map[], [], [])
  }

  /** Ids start at 1 on the client and 1_000_000 on the server.  Nothing below relies on the
      two ranges staying apart: the bases and the wires' capacities are parameters. */
  function Init(clientBase: int, serverBase: int, wire: nat): State
    requires wire > 0
  {
    State(Fresh(clientBase, [64, 1, wire, 1, 64]), Fresh(serverBase, [64, 1, wire, 1]))
  }

  datatype Step =
    | Allocate(side: Side, verb: string, params: string, task: nat)
    | Register(side: Side, k: nat)
    | Enqueue(side: Side, k: nat)
    | Notify(verb: string)
    | Move(side: Side, k: nat)
    | Receive(side: Side)
    | Finish(side: Side, k: nat, reply: Reply)
    | Eof

  function Delivered(p: Peer, i: int): nat {
    Count(p.delivered, DeliveryFor(i))
  }

  predicate Blocked(p: Peer, t: Task) {
    t.awaiting.Some? && Delivered(p, t.awaiting.value) == 0
  }

  predicate HasRoom(p: Peer, k: nat) {
    k < |p.lane| && k < |p.room| && |p.lane[k]| < p.room[k]
  }

  predicate Enabled(s: State, step: Step) {
    match step
    case Allocate(x, verb, _, t) =>
      // A request id is taken by an outside caller on the client, by a running task on the server.
      x == Server ==>
        verb == ELICITATION_CREATE && t < |s.server.tasks| && !Blocked(s.server, s.server.tasks[t])
    case Register(x, k) => k < |At(s, x).callers| && !At(s, x).callers[k].registered
    case Enqueue(x, k) => k < |At(s, x).callers| && At(s, x).callers[k].registered && HasRoom(At(s, x), 0)
    case Notify(_) => HasRoom(s.client, 0)
    case Move(x, k) => k + 1 < |At(s, x).lane| && At(s, x).lane[k] != [] && HasRoom(At(s, x), k + 1)
    case Receive(x) => var lane := At(s, Other(x)).lane;
      At(s, x).up && lane != [] && lane[|lane| - 1] != []
    case Finish(x, k, reply) =>
      k < |At(s, x).tasks| && !Blocked(At(s, x), At(s, x).tasks[k]) && HasRoom(At(s, x), 0)
      && MayAnswer(x, At(s, x).tasks[k].req, reply)
    case Eof => s.client.up
  }

  /** The reader hands a response to its waiter, spawns a task for a request, drops the rest. */
  function Consume(p: Peer, m: Message): Peer {
    match m
    case Req(r) => p.(tasks := p.tasks + [Task(r, None)])
    case Resp(i, reply) =>
      if i in p.pending
      then p.(pending := p.pending - {i}, delivered := p.delivered + [Delivery(i, reply)])
      else p
    case Note(_) => p
  }

  function Apply(s: State, step: Step): State
    requires Enabled(s, step)
  {
    match step
    case Allocate(x, verb, params, t) =>
      var p := At(s, x);
      var r := Request(p.next, verb, params);
      var p1 := p.(next := p.next + 1, callers := p.callers + [Caller(r, false)],
                   requests := p.requests[p.next := r]);
      With(s, x, if x == Server then p1.(tasks := p.tasks[t := p.tasks[t].(awaiting := Some(p.next))]) else p1)
    case Register(x, k) =>
      var p := At(s, x);
      With(s, x, p.(callers := p.callers[k := p.callers[k].(registered := true)],
                    pending := p.pending + {p.callers[k].req.id}))
    case Enqueue(x, k) =>
      var p := At(s, x);
      With(s, x, p.(callers := Without(p.callers, k), lane := Push(p.lane, Req(p.callers[k].req))))
    case Notify(verb) =>
      s.(client := s.client.(lane := Push(s.client.lane, Note(verb))))
    case Move(x, k) =>
      var p := At(s, x);
      With(s, x, p.(lane := Shift(p.lane, k)))
    case Receive(x) =>
      var q := At(s, Other(x));
      var last := q.lane[|q.lane| - 1];
      With(With(s, Other(x), q.(lane := Pop(q.lane))), x, Consume(At(s, x), last[0]))
    case Finish(x, k, reply) =>
      var p := At(s, x);
      var r := p.tasks[k].req;
      With(s, x, p.(tasks := Without(p.tasks, k), lane := Push(p.lane, Resp(r.id, reply)),
                    answers := p.answers + [Answer(r, reply)]))
    case Eof => s.(client := s.client.(up := false, pending := {}))
  }

  predicate Runs(s: State, steps: seq<Step>)
    decreases |steps|
  {
    steps == [] || (Enabled(s, steps[0]) && Runs(Apply(s, steps[0]), steps[1..]))
  }

  function After(s: State, steps: seq<Step>): State
    requires Runs(s, steps)
    decreases |steps|
  {
    if steps == [] then s else After(Apply(s, steps[0]), steps[1..])
  }

  // ----- the inductive invariant ---------------------------------------------------------

  function CallerFor(i: int): Caller -> bool { (c: Caller) => c.req.id == i }
  function UnregisteredFor(i: int): Caller -> bool { (c: Caller) => c.req.id == i && !c.registered }
  function ReqFor(i: int): Message -> bool { (m: Message) => m.Req? && m.req.id == i }
  function TaskFor(i: int): Task -> bool { (t: Task) => t.req.id == i }
  function RespFor(i: int): Message -> bool { (m: Message) => m.Resp? && m.id == i }
  function AnswerFor(i: int): Answer -> bool { (a: Answer) => a.req.id == i }
  function DeliveryFor(i: int): Delivery -> bool { (d: Delivery) => d.id == i }

  // The traffic `out` from caller `p` to callee `q`, and `back` from `q` to `p`, are passed
  // as plain sequences: the invariant looks at the lanes only through `Flat`.

  /** Who carries call `i` of `p` at the moment: its caller, `p`'s lane, a task of `q`, `q`'s lane. */
  function Carriers(p: Peer, out: seq<Message>, q: Peer, back: seq<Message>, i: int): nat {
    Count(p.callers, CallerFor(i)) + Count(out, ReqFor(i)) + Count(q.tasks, TaskFor(i)) + Count(back, RespFor(i))
  }

  /** A call has exactly one carrier until it is delivered, and then none; replies are built
      once; while the reader lives, the waiters are exactly the registered undelivered calls. */
  ghost predicate Balanced(p: Peer, out: seq<Message>, q: Peer, back: seq<Message>, i: int) {
    && Carriers(p, out, q, back, i) + Delivered(p, i) == (if i in p.requests then 1 else 0)
    && Count(q.answers, AnswerFor(i)) == Count(back, RespFor(i)) + Delivered(p, i)
    && (p.up ==> (i in p.pending <==> Carriers(p, out, q, back, i) > Count(p.callers, UnregisteredFor(i))))
  }

  predicate Own(p: Peer, r: Request) {
    r.id in p.requests && p.requests[r.id] == r
  }

  predicate Genuine(p: Peer, q: Peer, i: int, reply: Reply) {
    i in p.requests && Answer(p.requests[i], reply) in q.answers
  }

  /** Every request on its way is the one its caller allocated, and every reply on its way
      or delivered was built by a task of the other peer for exactly that request. */
  ghost predicate Authentic(p: Peer, out: seq<Message>, q: Peer, back: seq<Message>) {
    && (forall i :: i in p.requests ==> i < p.next && p.requests[i].id == i)
    && (forall c :: c in p.callers ==> Own(p, c.req))
    && (forall m :: m in out && m.Req? ==> Own(p, m.req))
    && (forall t :: t in q.tasks ==> Own(p, t.req))
    && (forall m :: m in back && m.Resp? ==> Genuine(p, q, m.id, m.reply))
    && (forall d :: d in p.delivered ==> Genuine(p, q, d.id, d.reply))
  }

  ghost predicate Lawful(p: Peer, out: seq<Message>, q: Peer, back: seq<Message>) {
    Authentic(p, out, q, back) && forall i :: Balanced(p, out, q, back, i)
  }

  /** The law of the calls that side `x` makes. */
  ghost predicate LawfulAt(s: State, x: Side) {
    var p, q := At(s, x), At(s, Other(x));
    Lawful(p, Flat(p.lane), q, Flat(q.lane))
  }

  predicate Shaped(p: Peer) {
    |p.lane| == |p.room| && 0 < |p.room| <= 5 && forall k :: 0 <= k < |p.room| ==> p.room[k] > 0
  }

  ghost predicate Orderly(s: State) {
    && Shaped(s.client) && Shaped(s.server) && s.server.up
    && (forall t :: t in s.client.tasks ==> t.awaiting.None?)
    && (forall t :: t in s.server.tasks && t.awaiting.Some? ==> t.awaiting.value in s.server.requests)
    && (forall i :: i in s.server.requests ==> s.server.requests[i].verb == ELICITATION_CREATE)
    && (forall a :: a in s.client.answers ==> MayAnswer(Client, a.req, a.reply))
  }

  ghost predicate Valid(s: State) {
    Orderly(s) && LawfulAt(s, Client) && LawfulAt(s, Server)
  }

  // ----- every step keeps the invariant --------------------------------------------------

  lemma KeepAllocate(p: Peer, out: seq<Message>, q: Peer, back: seq<Message>, r: Request, p': Peer)
    requires Lawful(p, out, q, back) && r.id == p.next
    requires p' == p.(next := p.next + 1, callers := p.callers + [Caller(r, false)],
                      requests := p.requests[p.next := r], tasks := p'.tasks)
    ensures Lawful(p', out, q, back)
  {
    forall i ensures Balanced(p', out, q, back, i) {
      assert Balanced(p, out, q, back, i);
      CountConcat(p.callers, [Caller(r, false)], CallerFor(i));
      CountConcat(p.callers, [Caller(r, false)], UnregisteredFor(i));
    }
    assert Authentic(p', out, q, back) by {
      assert forall r0 :: Own(p, r0) ==> Own(p', r0);
      assert forall j, y :: Genuine(p, q, j, y) ==> Genuine(p', q, j, y);
    }
  }

  lemma KeepRegister(p: Peer, out: seq<Message>, q: Peer, back: seq<Message>, k: nat, p': Peer)
    requires Lawful(p, out, q, back) && k < |p.callers| && !p.callers[k].registered
    requires p' == p.(callers := p.callers[k := p.callers[k].(registered := true)],
                      pending := p.pending + {p.callers[k].req.id})
    ensures Lawful(p', out, q, back)
  {
    var c := p.callers[k].(registered := true);
    forall i ensures Balanced(p', out, q, back, i) {
      assert Balanced(p, out, q, back, i);
      CountUpdate(p.callers, k, c, CallerFor(i));
      CountUpdate(p.callers, k, c, UnregisteredFor(i));
      CountMono(p.callers, UnregisteredFor(i), CallerFor(i));
    }
    assert forall d :: d in p'.callers ==> d in p.callers || d.req == p.callers[k].req;
  }

  lemma KeepEnqueue(p: Peer, out: seq<Message>, q: Peer, back: seq<Message>, k: nat, p': Peer)
    requires Lawful(p, out, q, back) && k < |p.callers| && p.callers[k].registered
    requires p' == p.(callers := Without(p.callers, k), lane := p'.lane)
    ensures Lawful(p', out + [Req(p.callers[k].req)], q, back)
  {
    var m := Req(p.callers[k].req);
    forall i ensures Balanced(p', out + [m], q, back, i) {
      assert Balanced(p, out, q, back, i);
      CountWithout(p.callers, k, CallerFor(i));
      CountWithout(p.callers, k, UnregisteredFor(i));
      CountConcat(out, [m], ReqFor(i));
    }
  }

  /** Traffic of no concern to a direction: what `p` sends besides requests. */
  lemma KeepOtherOut(p: Peer, out: seq<Message>, q: Peer, back: seq<Message>, m: Message, p': Peer)
    requires Lawful(p, out, q, back) && !m.Req?
    requires p' == p.(tasks := p'.tasks, answers := p'.answers, lane := p'.lane)
    ensures Lawful(p', out + [m], q, back)
  {
    forall i ensures Balanced(p', out + [m], q, back, i) {
      assert Balanced(p, out, q, back, i);
      CountConcat(out, [m], ReqFor(i));
    }
  }

  /** Traffic of no concern to a direction: what `q` sends besides responses. */
  lemma KeepOtherBack(p: Peer, out: seq<Message>, q: Peer, back: seq<Message>, m: Message, q': Peer)
    requires Lawful(p, out, q, back) && !m.Resp? && q'.tasks == q.tasks && q'.answers == q.answers
    ensures Lawful(p, out, q', back + [m])
  {
    forall i ensures Balanced(p, out, q', back + [m], i) {
      assert Balanced(p, out, q, back, i);
      CountConcat(back, [m], RespFor(i));
    }
    assert forall j, x :: Genuine(p, q, j, x) ==> Genuine(p, q', j, x);
  }

  lemma KeepFinish(p: Peer, out: seq<Message>, q: Peer, back: seq<Message>, k: nat, reply: Reply, q': Peer)
    requires Lawful(p, out, q, back) && k < |q.tasks|
    requires q'.tasks == Without(q.tasks, k) && q'.answers == q.answers + [Answer(q.tasks[k].req, reply)]
    ensures Lawful(p, out, q', back + [Resp(q.tasks[k].req.id, reply)])
  {
    var r := q.tasks[k].req;
    var m := Resp(r.id, reply);
    assert Own(p, r);
    assert Genuine(p, q', r.id, reply);
    forall i ensures Balanced(p, out, q', back + [m], i) {
      assert Balanced(p, out, q, back, i);
      CountWithout(q.tasks, k, TaskFor(i));
      CountConcat(back, [m], RespFor(i));
      CountConcat(q.answers, [Answer(r, reply)], AnswerFor(i));
    }
    assert forall j, x :: Genuine(p, q, j, x) ==> Genuine(p, q', j, x);
  }

  /** While the reader lives, no response is dropped for want of a waiter. */
  lemma ResponseFindsWaiter(p: Peer, out: seq<Message>, q: Peer, back: seq<Message>, k: nat)
    requires Lawful(p, out, q, back) && p.up && k < |back| && back[k].Resp?
    ensures back[k].id in p.pending && Delivered(p, back[k].id) == 0
  {
    var i := back[k].id;
    assert Balanced(p, out, q, back, i);
    assert RespFor(i)(back[k]);
    CountPositive(back, RespFor(i));
    CountMono(p.callers, UnregisteredFor(i), CallerFor(i));
  }

  /** `p` consumes the oldest message `m` of `q`: the direction in which `p` is the caller. */
  lemma BalanceReceive(p: Peer, out: seq<Message>, q: Peer, back: seq<Message>, m: Message, q': Peer, i: int)
    requires Balanced(p, out, q, [m] + back, i) && p.up && (m.Resp? ==> m.id in p.pending)
    requires q'.tasks == q.tasks && q'.answers == q.answers
    ensures Balanced(Consume(p, m), out, q', back, i)
  {
    CountConcat([m], back, RespFor(i));
    CountMono(p.callers, UnregisteredFor(i), CallerFor(i));
    if m.Resp? {
      CountConcat(p.delivered, [Delivery(m.id, m.reply)], DeliveryFor(i));
    }
  }

  lemma KeepReceiveAsCaller(p: Peer, out: seq<Message>, q: Peer, back: seq<Message>, m: Message, q': Peer)
    requires Lawful(p, out, q, [m] + back) && p.up && q'.tasks == q.tasks && q'.answers == q.answers
    ensures Lawful(Consume(p, m), out, q', back)
  {
    var p' := Consume(p, m);
    assert ([m] + back)[0] == m;
    if m.Resp? {
      ResponseFindsWaiter(p, out, q, [m] + back, 0);
      assert Genuine(p, q, m.id, m.reply);
    }
    forall i ensures Balanced(p', out, q', back, i) {
      assert Balanced(p, out, q, [m] + back, i);
      BalanceReceive(p, out, q, back, m, q', i);
    }
    assert forall j, x :: Genuine(p, q, j, x) ==> Genuine(p', q', j, x);
  }

  /** The same step in the direction in which `p` is the caller and `q` spawns the task. */
  lemma KeepReceiveAsCallee(p: Peer, out: seq<Message>, q: Peer, back: seq<Message>, m: Message, p': Peer)
    requires Lawful(p, [m] + out, q, back) && p' == p.(lane := p'.lane)
    ensures Lawful(p', out, Consume(q, m), back)
  {
    var q' := Consume(q, m);
    assert ([m] + out)[0] == m;
    forall i ensures Balanced(p', out, q', back, i) {
      assert Balanced(p, [m] + out, q, back, i);
      CountConcat([m], out, ReqFor(i));
      if m.Req? {
        CountConcat(q.tasks, [Task(m.req, None)], TaskFor(i));
      }
    }
    AuthenticAsCallee(p, out, q, back, m, p');
  }

  lemma AuthenticAsCallee(p: Peer, out: seq<Message>, q: Peer, back: seq<Message>, m: Message, p': Peer)
    requires Authentic(p, [m] + out, q, back) && p' == p.(lane := p'.lane)
    ensures Authentic(p', out, Consume(q, m), back)
  {
    assert ([m] + out)[0] == m;
    assert forall j, x :: Genuine(p, q, j, x) ==> Genuine(p', Consume(q, m), j, x);
  }

  /** Fields that a direction does not look at may change freely. */
  lemma KeepFrame(p: Peer, out: seq<Message>, q: Peer, back: seq<Message>, p': Peer, q': Peer)
    requires Lawful(p, out, q, back) && q'.answers == q.answers && p' == p.(lane := p'.lane)
    requires |q'.tasks| == |q.tasks| && forall k :: 0 <= k < |q.tasks| ==> q'.tasks[k].req == q.tasks[k].req
    ensures Lawful(p', out, q', back)
  {
    forall i ensures Balanced(p', out, q', back, i) {
      assert Balanced(p, out, q, back, i);
      CountTasks(q.tasks, q'.tasks, i);
    }
    forall t | t in q'.tasks ensures Own(p', t.req) {
      var k :| 0 <= k < |q'.tasks| && q'.tasks[k] == t;
      assert q.tasks[k] in q.tasks;
    }
    assert forall j, x :: Genuine(p, q, j, x) ==> Genuine(p', q', j, x);
  }

  lemma {:induction false} CountTasks(a: seq<Task>, b: seq<Task>, i: int)
    requires |a| == |b| && forall k :: 0 <= k < |a| ==> a[k].req == b[k].req
    ensures Count(a, TaskFor(i)) == Count(b, TaskFor(i))
  {
    if a != [] {
      CountTasks(a[1..], b[1..], i);
    }
  }

  lemma KeepEof(p: Peer, out: seq<Message>, q: Peer, back: seq<Message>)
    requires Lawful(p, out, q, back)
    ensures Lawful(p.(up := false, pending := {}), out, q, back)
  {
    forall i ensures Balanced(p.(up := false, pending := {}), out, q, back, i) {
      assert Balanced(p, out, q, back, i);
    }
  }

  /** The side a step belongs to. */
  function Actor(step: Step): Side {
    if step.Notify? || step.Eof? then Client else step.side
  }

  ghost predicate LawfulBothWays(s: State, x: Side) {
    LawfulAt(s, x) && LawfulAt(s, Other(x))
  }

  lemma LocalStepKeepsLawful(s: State, step: Step)
    requires Valid(s) && Enabled(s, step) && (step.Allocate? || step.Register? || step.Eof?)
    ensures LawfulBothWays(Apply(s, step), Actor(step))
  {
    var x := Actor(step);
    var p, q, p' := At(s, x), At(s, Other(x)), At(Apply(s, step), x);
    var out, back := Flat(p.lane), Flat(q.lane);
    match step {
      case Allocate(_, verb, params, _) => KeepAllocate(p, out, q, back, Request(p.next, verb, params), p');
      case Register(_, k) => KeepRegister(p, out, q, back, k, p');
      case Eof => KeepEof(p, out, q, back);
    }
    KeepFrame(q, back, p, out, q, p');
  }

  lemma QueueStepKeepsLawful(s: State, step: Step)
    requires Valid(s) && Enabled(s, step) && (step.Enqueue? || step.Notify? || step.Finish?)
    ensures LawfulBothWays(Apply(s, step), Actor(step))
  {
    var x := Actor(step);
    var p, q, p' := At(s, x), At(s, Other(x)), At(Apply(s, step), x);
    var out, back := Flat(p.lane), Flat(q.lane);
    match step
    case Enqueue(_, k) =>
      FlatPush(p.lane, Req(p.callers[k].req));
      KeepEnqueue(p, out, q, back, k, p');
      KeepOtherBack(q, back, p, out, Req(p.callers[k].req), p');
    case Notify(verb) =>
      FlatPush(p.lane, Note(verb));
      KeepOtherOut(p, out, q, back, Note(verb), p');
      KeepOtherBack(q, back, p, out, Note(verb), p');
    case Finish(_, k, reply) =>
      FlatPush(p.lane, Resp(p.tasks[k].req.id, reply));
      KeepFinish(q, back, p, out, k, reply, p');
      KeepOtherOut(p, out, q, back, Resp(p.tasks[k].req.id, reply), p');
  }

  lemma MoveKeepsLawful(s: State, x: Side, k: nat)
    requires Valid(s) && Enabled(s, Move(x, k))
    ensures LawfulBothWays(Apply(s, Move(x, k)), x)
  {
    var p, q, p' := At(s, x), At(s, Other(x)), At(Apply(s, Move(x, k)), x);
    FlatShift(p.lane, k);
    KeepFrame(p, Flat(p.lane), q, Flat(q.lane), p', q);
    KeepFrame(q, Flat(q.lane), p, Flat(p.lane), q, p');
  }

  lemma ReceiveKeepsLawful(s: State, x: Side)
    requires Valid(s) && Enabled(s, Receive(x))
    ensures LawfulBothWays(Apply(s, Receive(x)), x)
  {
    var s' := Apply(s, Receive(x));
    var p, q, q' := At(s, x), At(s, Other(x)), At(s', Other(x));
    var out, back, m := Flat(p.lane), Flat(q'.lane), q.lane[|q.lane| - 1][0];
    FlatPop(q.lane);
    KeepReceiveAsCaller(p, out, q, back, m, q');
    KeepReceiveAsCallee(q, back, p, out, m, q');
    assert At(s', x) == Consume(p, m) && At(s', x).lane == p.lane;
  }

  lemma LocalStepKeepsOrderly(s: State, step: Step)
    requires Orderly(s) && Enabled(s, step) && (step.Allocate? || step.Register? || step.Eof?)
    ensures Orderly(Apply(s, step))
  {}

  lemma OtherStepKeepsOrderly(s: State, step: Step)
    requires Orderly(s) && Enabled(s, step) && !(step.Allocate? || step.Register? || step.Eof?)
    ensures Orderly(Apply(s, step))
  {}

  lemma StepKeepsValid(s: State, step: Step)
    requires Valid(s) && Enabled(s, step)
    ensures Valid(Apply(s, step))
  {
    if step.Allocate? || step.Register? || step.Eof? {
      LocalStepKeepsLawful(s, step);
      LocalStepKeepsOrderly(s, step);
    } else {
      match step {
        case Move(x, k) => MoveKeepsLawful(s, x, k);
        case Receive(x) => ReceiveKeepsLawful(s, x);
        case _ => QueueStepKeepsLawful(s, step);
      }
      OtherStepKeepsOrderly(s, step);
    }
  }

  lemma {:induction false} FlatEmpty(lane: Lane)
    requires forall k :: 0 <= k < |lane| ==> lane[k] == []
    ensures Flat(lane) == []
  {
    if lane != [] {
      FlatEmpty(lane[1..]);
    }
  }

  lemma SilenceIsLawful(p: Peer, q: Peer)
    requires p.callers == [] && p.pending == {} && p.requests == map[] && p.delivered == [] && q.tasks == []
             && q.answers == []
    ensures Lawful(p, [], q, [])
  {
    forall i ensures Balanced(p, [], q, [], i) {
    }
  }

  lemma InitValid(clientBase: int, serverBase: int, wire: nat)
    requires wire > 0
    ensures Valid(Init(clientBase, serverBase, wire))
  {
    var s := Init(clientBase, serverBase, wire);
    FlatEmpty(s.client.lane);
    FlatEmpty(s.server.lane);
    SilenceIsLawful(s.client, s.server);
    SilenceIsLawful(s.server, s.client);
  }

  lemma {:induction false} RunKeepsValid(s: State, steps: seq<Step>)
    requires Valid(s) && Runs(s, steps)
    ensures Valid(After(s, steps))
    decreases |steps|
  {
    if steps != [] {
      StepKeepsValid(s, steps[0]);
      RunKeepsValid(Apply(s, steps[0]), steps[1..]);
    }
  }

  // ----- safety over every run -----------------------------------------------------------

  /** In every interleaving, from any pair of id bases: no waiter is resolved twice, and the
      reply it gets was built, once, by a task of the other peer for exactly the request it
      sent.  An elicitation is answered by the delegate or by one of its two errors. */
  lemma DeliveredOnceWithOwnReply(cb: int, sb: int, wire: nat, steps: seq<Step>, x: Side, a: nat)
    requires wire > 0 && Runs(Init(cb, sb, wire), steps)
    requires a < |At(After(Init(cb, sb, wire), steps), x).delivered|
    ensures var s := After(Init(cb, sb, wire), steps);
            var p, q := At(s, x), At(s, Other(x));
            var d := p.delivered[a];
            && d.id in p.requests && p.requests[d.id].id == d.id
            && Answer(p.requests[d.id], d.reply) in q.answers
            && Count(q.answers, AnswerFor(d.id)) == 1
            && (forall b :: 0 <= b < |p.delivered| && p.delivered[b].id == d.id ==> b == a)
            && (x == Server ==> d.reply.Success? || d.reply.code in {-32602, -32603})
  {
    InitValid(cb, sb, wire);
    RunKeepsValid(Init(cb, sb, wire), steps);
    var s := After(Init(cb, sb, wire), steps);
    var p, q := At(s, x), At(s, Other(x));
    var d := p.delivered[a];
    assert Balanced(p, Flat(p.lane), q, Flat(q.lane), d.id);
    assert Genuine(p, q, d.id, d.reply);
    CountPositive(p.delivered, DeliveryFor(d.id));
    assert DeliveryFor(d.id)(p.delivered[a]);
    forall b | 0 <= b < |p.delivered| && p.delivered[b].id == d.id
      ensures b == a
    {
      if a < b {
        CountTwo(p.delivered, a, b, DeliveryFor(d.id));
      } else if b < a {
        CountTwo(p.delivered, b, a, DeliveryFor(d.id));
      }
    }
  }
}
