/**
 * The in-process message bus as interleaved atomic steps of `publish`, `subscribe`, `start`, `stop`
 * and the dispatch loop. A step is at most what runs between two awaits, and any enabled step may
 * come next, so what is proved of all runs is proved of more interleavings than asyncio has: an
 * await that need not wait does not suspend. Where some run is claimed to exist, it is a
 * `Cooperative` one, in which nobody moves while another holds the thread.
 *
 * `BusState` carries four histories beside the program's own state: every message accepted by the
 * queue, every message the loop has logged, how many had been logged when each handler subscribed, and
 * what each handler was called with.
 */
module MessageBus {
  import opened Sequences

  const BROADCAST := "__broadcast__"

  datatype Message = Message(sender: string, target: string, query: string)

  datatype Item = Sentinel | Item(message: Message)

  /** A subscription: the `index`-th handler registered for `agent`. */
  datatype Handler = Handler(agent: string, index: nat)

  datatype Loop =
    | NoTask
    | AtTop
    | Waiting
    | Dispatching(message: Message, rest: seq<Handler>)
    | Ended

  datatype Stop = Idle | Putting | Joining

  datatype BusState = BusState(
    maxsize: int, cap: nat,
    queue: seq<Item>, handlers: map<string, seq<Handler>>, log: seq<Message>,
    running: bool, loop: Loop, stop: Stop,
    enqueued: seq<Message>, logged: seq<Message>,
    births: map<Handler, nat>, inbox: map<Handler, seq<Message>>)

  datatype Step =
    | Subscribe(agent: string)
    | Put(message: Message)
    | Start
    | StopBegin
    | StopPut
    | StopJoin
    | LoopTop
    | LoopTake
    | Deliver(raises: bool)

  function Init(maxsize: int, cap: nat): BusState {
    BusState(maxsize, cap, [], map[], [], false, NoTask, Idle, [], [], map[], map[])
  }

  /** asyncio.Queue: a size of zero or less is unbounded. */
  predicate Full(maxsize: int, queue: seq<Item>) {
    0 < maxsize <= |queue|
  }

  function HandlersOf(hs: map<string, seq<Handler>>, agent: string): seq<Handler> {
    if agent in hs then hs[agent] else []
  }

  /** The handlers a message goes to, in call order, as they are when its dispatch begins. */
  function Recipients(hs: map<string, seq<Handler>>, target: string): seq<Handler> {
    HandlersOf(hs, target) + (if target != BROADCAST then HandlersOf(hs, BROADCAST) else [])
  }

  function Received(inbox: map<Handler, seq<Message>>, h: Handler): seq<Message> {
    if h in inbox then inbox[h] else []
  }

  function BirthOf(births: map<Handler, nat>, h: Handler): nat {
    if h in births then births[h] else 0
  }

  /** One atomic step; `None` when the step is not enabled. */
  function Next(s: BusState, step: Step): Option<BusState> {
    match step
    case Subscribe(agent) =>
      var mine := HandlersOf(s.handlers, agent);
      var h := Handler(agent, |mine|);
      Some(s.(handlers := s.handlers[agent := mine + [h]], births := s.births[h := |s.logged|]))
    case Put(m) =>
      if Full(s.maxsize, s.queue) then None
      else Some(s.(queue := s.queue + [Item(m)], enqueued := s.enqueued + [m]))
    case Start =>
      if s.running then Some(s)
      else if s.loop.NoTask? && s.stop.Idle? then Some(s.(running := true, loop := AtTop))
      else None
    case StopBegin =>
      if !s.stop.Idle? then None
      else if s.loop.NoTask? then Some(s.(running := false))
      else Some(s.(running := false, stop := Putting))
    case StopPut =>
      if !s.stop.Putting? || Full(s.maxsize, s.queue) then None
      else Some(s.(queue := s.queue + [Sentinel], stop := Joining))
    case StopJoin =>
      if !s.stop.Joining? || !s.loop.Ended? then None
      else Some(s.(loop := NoTask, stop := Idle))
    case LoopTop =>
      if !s.loop.AtTop? then None
      else Some(s.(loop := if s.running then Waiting else Ended))
    case LoopTake =>
      if !s.loop.Waiting? || s.queue == [] then None
      else if s.queue[0].Sentinel? then Some(s.(queue := s.queue[1..], loop := Ended))
      else
        var m := s.queue[0].message;
        Some(s.(queue := s.queue[1..], logged := s.logged + [m], log := LastN(s.log + [m], s.cap),
                loop := Dispatching(m, Recipients(s.handlers, m.target))))
    case Deliver(_) =>
      if !s.loop.Dispatching? then None
      else if s.loop.rest == [] then Some(s.(loop := AtTop))
      else
        var h := s.loop.rest[0];
        Some(s.(inbox := s.inbox[h := Received(s.inbox, h) + [s.loop.message]],
                loop := Dispatching(s.loop.message, s.loop.rest[1..])))
  }

  function Run(s: BusState, steps: seq<Step>): Option<BusState>
    decreases |steps|
  {
    if steps == [] then Some(s)
    else
      var t := Next(s, steps[0]);
      if t.None? then None else Run(t.value, steps[1..])
  }

  lemma {:induction false} RunAppend(s: BusState, a: seq<Step>, b: seq<Step>)
    requires Run(s, a).Some?
    ensures Run(s, a + b) == Run(Run(s, a).value, b)
    decreases |a|
  {
    if a == [] {
      assert a + b == b;
    } else {
      assert (a + b)[1..] == a[1..] + b;
      RunAppend(Next(s, a[0]).value, a[1..], b);
    }
  }

  // ---- Runs that asyncio has -----------------------------------------------------------------

  /** Who goes on without being suspended: nobody, the dispatch loop, or the call of `stop`. */
  datatype Holder = Nobody | LoopTask | Stopper

  predicate LoopStep(step: Step) {
    step.LoopTop? || step.LoopTake? || step.Deliver?
  }

  predicate MayMove(h: Holder, step: Step) {
    match h
    case Nobody => true
    case LoopTask => LoopStep(step)
    case Stopper => step.StopPut? || step.StopJoin?
  }

  /**
   * After `step` has led to `t`. The loop is suspended in a handler and at an empty queue, nowhere
   * else; a stop is suspended at a full queue and at a task that has not ended.
   */
  function HolderAfter(t: BusState, step: Step): Holder {
    match step
    case Deliver(_) => if t.loop.Dispatching? && t.loop.rest != [] then Nobody else LoopTask
    case LoopTop => if t.loop.Waiting? && t.queue != [] then LoopTask else Nobody
    case LoopTake => if t.loop.Dispatching? && t.loop.rest == [] then LoopTask else Nobody
    case StopBegin => if t.stop.Putting? && !Full(t.maxsize, t.queue) then Stopper else Nobody
    case StopPut => if t.loop.Ended? then Stopper else Nobody
    case _ => Nobody
  }

  ghost predicate Cooperative(s: BusState, steps: seq<Step>, h: Holder)
    decreases |steps|
  {
    steps == [] ||
    (MayMove(h, steps[0]) && (Next(s, steps[0]).Some? ==>
       var t := Next(s, steps[0]).value; Cooperative(t, steps[1..], HolderAfter(t, steps[0]))))
  }

  ghost function HolderAt(s: BusState, steps: seq<Step>, h: Holder): Holder
    requires Run(s, steps).Some?
    decreases |steps|
  {
    if steps == [] then h
    else
      var t := Next(s, steps[0]).value;
      HolderAt(t, steps[1..], HolderAfter(t, steps[0]))
  }

  lemma {:induction false} CooperativeAppend(s: BusState, a: seq<Step>, b: seq<Step>, h: Holder)
    requires Run(s, a).Some? && Cooperative(s, a, h) && Cooperative(Run(s, a).value, b, HolderAt(s, a, h))
    ensures Cooperative(s, a + b, h)
    decreases |a|
  {
    if a == [] {
      assert a + b == b;
    } else {
      assert (a + b)[1..] == a[1..] + b;
      var t := Next(s, a[0]).value;
      CooperativeAppend(t, a[1..], b, HolderAfter(t, a[0]));
    }
  }

  /** One more step in front of a run. */
  lemma Follow(s: BusState, step: Step, rest: seq<Step>, h: Holder)
    requires MayMove(h, step) && Next(s, step).Some?
    requires var t := Next(s, step).value; Cooperative(t, rest, HolderAfter(t, step))
    ensures Cooperative(s, [step] + rest, h) && Run(s, [step] + rest) == Run(Next(s, step).value, rest)
  {
    assert ([step] + rest)[1..] == rest;
  }

  predicate OnlyLoop(steps: seq<Step>) {
    forall i :: 0 <= i < |steps| ==> LoopStep(steps[i])
  }

  /** The loop by itself can always go on. */
  lemma {:induction false} LoopCooperates(s: BusState, steps: seq<Step>, h: Holder)
    requires OnlyLoop(steps) && !h.Stopper?
    ensures Cooperative(s, steps, h)
    decreases |steps|
  {
    if steps != [] && Next(s, steps[0]).Some? {
      var t := Next(s, steps[0]).value;
      LoopCooperates(t, steps[1..], HolderAfter(t, steps[0]));
    }
  }

  /** The messages in a queue, sentinels skipped. */
  function Messages(q: seq<Item>): seq<Message> {
    if q == [] then []
    else (if q[0].Sentinel? then [] else [q[0].message]) + Messages(q[1..])
  }

  lemma {:induction false} MessagesAppend(q: seq<Item>, r: seq<Item>)
    ensures Messages(q + r) == Messages(q) + Messages(r)
  {
    if q == [] {
      assert q + r == r;
    } else {
      assert (q + r)[1..] == q[1..] + r;
      MessagesAppend(q[1..], r);
    }
  }

  predicate Wants(agent: string, m: Message) {
    agent == BROADCAST || m.target == agent
  }

  /** What a handler is owed: the messages for its agent logged since it subscribed. */
  function Owed(agent: string, birth: nat, logged: seq<Message>): seq<Message> {
    if birth <= |logged| then Filter(logged[birth..], m => Wants(agent, m)) else []
  }

  /** The message being dispatched, when `h` has not been called with it yet. */
  function Pending(loop: Loop, h: Handler): seq<Message> {
    if loop.Dispatching? && h in loop.rest then [loop.message] else []
  }

  predicate Known(hs: map<string, seq<Handler>>, h: Handler) {
    h.agent in hs && h.index < |hs[h.agent]| && hs[h.agent][h.index] == h
  }

  predicate Indexed(hs: map<string, seq<Handler>>) {
    forall a, i :: a in hs && 0 <= i < |hs[a]| ==> hs[a][i].agent == a && hs[a][i].index == i
  }

  predicate Subscriptions(s: BusState) {
    && Indexed(s.handlers)
    && (forall h :: h in s.births ==> s.births[h] <= |s.logged|)
    && (forall h :: h in s.inbox ==> Known(s.handlers, h))
  }

  predicate Deliveries(s: BusState) {
    forall a, i :: a in s.handlers && 0 <= i < |s.handlers[a]| ==>
      Served(s, s.handlers[a][i])
  }

  predicate Served(s: BusState, h: Handler) {
    Received(s.inbox, h) + Pending(s.loop, h) == Owed(h.agent, BirthOf(s.births, h), s.logged)
  }

  predicate Dispatch(s: BusState) {
    s.loop.Dispatching? ==>
      && NoDuplicates(s.loop.rest)
      && forall i :: 0 <= i < |s.loop.rest| ==> Known(s.handlers, s.loop.rest[i])
  }

  predicate Lifecycle(s: BusState) {
    && (s.running ==> !s.loop.NoTask? && s.stop.Idle?)
    && (!s.stop.Idle? ==> !s.running && !s.loop.NoTask?)
    && (!s.running && s.stop.Idle? ==> s.loop.NoTask?)
    && (s.stop.Joining? && s.loop.Waiting? ==> Sentinel in s.queue)
  }

  predicate Inv(s: BusState) {
    && s.logged + Messages(s.queue) == s.enqueued
    && s.log == LastN(s.logged, s.cap)
    && (s.maxsize > 0 ==> |s.queue| <= s.maxsize)
    && Subscriptions(s) && Deliveries(s) && Dispatch(s) && Lifecycle(s)
  }

  lemma OwedGrows(agent: string, birth: nat, logged: seq<Message>, m: Message)
    requires birth <= |logged|
    ensures Owed(agent, birth, logged + [m]) == Owed(agent, birth, logged) + (if Wants(agent, m) then [m] else [])
  {
    assert (logged + [m])[birth..] == logged[birth..] + [m];
    FilterSnoc(logged[birth..], m, x => Wants(agent, x));
  }

  lemma RecipientsAreKnown(hs: map<string, seq<Handler>>, target: string)
    requires Indexed(hs)
    ensures forall i :: 0 <= i < |Recipients(hs, target)| ==> Known(hs, Recipients(hs, target)[i])
  {
    var direct := HandlersOf(hs, target);
    forall i | 0 <= i < |Recipients(hs, target)|
      ensures Known(hs, Recipients(hs, target)[i])
    {
      if i >= |direct| {
        assert Recipients(hs, target)[i] == HandlersOf(hs, BROADCAST)[i - |direct|];
      }
    }
  }

  lemma RecipientsAreDistinct(hs: map<string, seq<Handler>>, target: string)
    requires Indexed(hs)
    ensures NoDuplicates(Recipients(hs, target))
  {
    var direct, r := HandlersOf(hs, target), Recipients(hs, target);
    forall i, j | 0 <= i < j < |r|
      ensures r[i] != r[j]
    {
      if j < |direct| {
        assert r[i].index == i && r[j].index == j;
      } else if i < |direct| {
        assert r[i].agent == target && r[j].agent == BROADCAST;
      } else {
        assert r[i].index == i - |direct| && r[j].index == j - |direct|;
      }
    }
  }

  /** A message goes to exactly the handlers that want it. */
  lemma RecipientsAreThoseWhoWant(hs: map<string, seq<Handler>>, m: Message, h: Handler)
    requires Indexed(hs) && Known(hs, h)
    ensures h in Recipients(hs, m.target) <==> Wants(h.agent, m)
  {
    var direct, r := HandlersOf(hs, m.target), Recipients(hs, m.target);
    if h.agent == m.target {
      assert r[h.index] == h;
    } else if h.agent == BROADCAST {
      assert r[|direct| + h.index] == h;
    }
  }

  lemma SubscribeKeeps(s: BusState, agent: string)
    requires Inv(s)
    ensures Inv(Next(s, Subscribe(agent)).value)
  {
    var t := Next(s, Subscribe(agent)).value;
    var mine := HandlersOf(s.handlers, agent);
    var added := Handler(agent, |mine|);
    forall h | Known(s.handlers, h)
      ensures Known(t.handlers, h)
    {
    }
    assert !Known(s.handlers, added);
    SubscribeServesAll(s, agent);
  }

  /** A new handler is owed nothing yet. */
  lemma SubscribeServesAll(s: BusState, agent: string)
    requires Subscriptions(s) && Deliveries(s) && Dispatch(s)
    ensures Deliveries(Next(s, Subscribe(agent)).value)
  {
    var t := Next(s, Subscribe(agent)).value;
    var mine := HandlersOf(s.handlers, agent);
    var added := Handler(agent, |mine|);
    assert !Known(s.handlers, added) && s.logged[|s.logged|..] == [];
    forall a, i | a in t.handlers && 0 <= i < |t.handlers[a]|
      ensures Served(t, t.handlers[a][i])
    {
      if a != agent || i < |mine| {
        assert t.handlers[a][i] == s.handlers[a][i];
        assert Served(s, s.handlers[a][i]);
      } else {
        assert t.handlers[a][i] == added;
        assert added !in s.inbox;
      }
    }
  }

  lemma PutKeeps(s: BusState, item: Item)
    requires Inv(s) && !Full(s.maxsize, s.queue)
    ensures item.Item? ==> Inv(Next(s, Put(item.message)).value)
    ensures item.Sentinel? && s.stop.Putting? ==> Inv(Next(s, StopPut).value)
  {
    MessagesAppend(s.queue, [item]);
    assert [item][1..] == [];
    assert Messages([item]) == if item.Item? then [item.message] else [];
    if item.Item? {
      var t := Next(s, Put(item.message)).value;
      assert t.logged + Messages(t.queue) == (s.logged + Messages(s.queue)) + [item.message];
      assert forall h :: Served(s, h) ==> Served(t, h);
    } else if s.stop.Putting? {
      var t := Next(s, StopPut).value;
      assert t.logged + Messages(t.queue) == s.logged + Messages(s.queue);
      assert forall h :: Served(s, h) ==> Served(t, h);
    }
  }

  /** Logging a message makes it pending for exactly the handlers that want it. */
  lemma TakeServes(s: BusState, t: BusState, m: Message, h: Handler)
    requires Known(s.handlers, h) && Served(s, h) && !s.loop.Dispatching? && BirthOf(s.births, h) <= |s.logged|
    requires t.inbox == s.inbox && t.births == s.births && t.logged == s.logged + [m] && t.loop.Dispatching? && t.loop.message == m
    requires h in t.loop.rest <==> Wants(h.agent, m)
    ensures Served(t, h)
  {
    OwedGrows(h.agent, BirthOf(s.births, h), s.logged, m);
  }

  lemma TakeServesAll(s: BusState, t: BusState, m: Message)
    requires Subscriptions(s) && Deliveries(s) && !s.loop.Dispatching?
    requires t == s.(queue := t.queue, log := t.log, logged := s.logged + [m],
                     loop := Dispatching(m, Recipients(s.handlers, m.target)))
    ensures Subscriptions(t) && Deliveries(t)
  {
    forall a, i | a in t.handlers && 0 <= i < |t.handlers[a]|
      ensures Served(t, t.handlers[a][i])
    {
      assert Served(s, s.handlers[a][i]) && Known(s.handlers, s.handlers[a][i]);
      RecipientsAreThoseWhoWant(s.handlers, m, s.handlers[a][i]);
      TakeServes(s, t, m, s.handlers[a][i]);
    }
  }

  lemma TakeConserves(s: BusState, m: Message)
    requires s.logged + Messages(s.queue) == s.enqueued && s.log == LastN(s.logged, s.cap)
    requires s.queue != [] && s.queue[0] == Item(m)
    ensures (s.logged + [m]) + Messages(s.queue[1..]) == s.enqueued
    ensures LastN(s.log + [m], s.cap) == LastN(s.logged + [m], s.cap)
  {
    assert s.logged + ([m] + Messages(s.queue[1..])) == (s.logged + [m]) + Messages(s.queue[1..]);
    LastNAppend(s.logged, [m], s.cap);
  }

  lemma TakeKeeps(s: BusState)
    requires Inv(s) && s.loop.Waiting? && s.queue != []
    ensures Inv(Next(s, LoopTake).value)
  {
    var t := Next(s, LoopTake).value;
    if s.queue[0].Sentinel? {
      assert forall h :: Served(s, h) ==> Served(t, h);
    } else {
      var m := s.queue[0].message;
      RecipientsAreKnown(s.handlers, m.target);
      RecipientsAreDistinct(s.handlers, m.target);
      TakeConserves(s, m);
      TakeServesAll(s, t, m);
    }
  }

  /** A handler call, whether it returns or raises, settles exactly that handler. */
  lemma DeliverKeeps(s: BusState, raises: bool)
    requires Inv(s) && s.loop.Dispatching?
    ensures Inv(Next(s, Deliver(raises)).value)
  {
    if s.loop.rest == [] {
      AllCalledKeeps(s);
    } else {
      var t := Next(s, Deliver(false)).value;
      DeliverServesAll(s, t);
      DeliverKeepsRest(s, t);
    }
  }

  /** With every handler called, the loop goes back to its top. */
  lemma AllCalledKeeps(s: BusState)
    requires Inv(s) && s.loop.Dispatching? && s.loop.rest == []
    ensures Inv(s.(loop := AtTop))
  {
    assert forall h :: Served(s, h) ==> Served(s.(loop := AtTop), h);
  }

  lemma DeliverServesAll(s: BusState, t: BusState)
    requires Deliveries(s) && s.loop.Dispatching? && s.loop.rest != [] && NoDuplicates(s.loop.rest)
    requires t == Next(s, Deliver(false)).value
    ensures Deliveries(t)
  {
    forall a, i | a in t.handlers && 0 <= i < |t.handlers[a]|
      ensures Served(t, t.handlers[a][i])
    {
      assert Served(s, s.handlers[a][i]);
      DeliverServes(s, t, s.handlers[a][i]);
    }
  }

  lemma DeliverKeepsRest(s: BusState, t: BusState)
    requires Subscriptions(s) && Dispatch(s) && s.loop.Dispatching? && s.loop.rest != []
    requires t == Next(s, Deliver(false)).value
    ensures Subscriptions(t) && Dispatch(t)
  {
    var rest := s.loop.rest;
    assert Known(s.handlers, rest[0]);
    assert forall i :: 0 <= i < |rest[1..]| ==> rest[1..][i] == rest[i + 1];
  }

  lemma DeliverServes(s: BusState, t: BusState, h: Handler)
    requires s.loop.Dispatching? && s.loop.rest != [] && NoDuplicates(s.loop.rest)
    requires Served(s, h) && t == Next(s, Deliver(false)).value
    ensures Served(t, h)
  {
    var rest := s.loop.rest;
    assert rest == [rest[0]] + rest[1..];
    assert h in rest <==> h == rest[0] || h in rest[1..];
  }

  /** Every step keeps the invariant. */
  lemma StepKeeps(s: BusState, step: Step)
    requires Inv(s) && Next(s, step).Some?
    ensures Inv(Next(s, step).value)
  {
    var t := Next(s, step).value;
    match step
    case Subscribe(agent) => SubscribeKeeps(s, agent);
    case Put(m) => PutKeeps(s, Item(m));
    case StopPut => PutKeeps(s, Sentinel);
    case LoopTake => TakeKeeps(s);
    case Deliver(raises) => DeliverKeeps(s, raises);
    case Start => assert forall h :: Served(s, h) ==> Served(t, h);
    case StopBegin => assert forall h :: Served(s, h) ==> Served(t, h);
    case StopJoin => assert forall h :: Served(s, h) ==> Served(t, h);
    case LoopTop => assert forall h :: Served(s, h) ==> Served(t, h);
  }

  lemma {:induction false} RunKeeps(s: BusState, steps: seq<Step>)
    requires Inv(s) && Run(s, steps).Some?
    ensures Inv(Run(s, steps).value)
    decreases |steps|
  {
    if steps != [] {
      StepKeeps(s, steps[0]);
      RunKeeps(Next(s, steps[0]).value, steps[1..]);
    }
  }

  lemma InitIsSound(maxsize: int, cap: nat)
    ensures Inv(Init(maxsize, cap))
  {
  }

  /**
   * Conservation, order and delivery, for every interleaving from a new bus: what was logged,
   * followed by what is queued, is what was accepted; the bounded log is the end of it; and a
   * handler subscribed before any message was logged has been called with exactly the logged
   * messages for its agent, once each and in order, except the one being dispatched now.
   */
  lemma BusDelivers(maxsize: int, cap: nat, steps: seq<Step>)
    requires Run(Init(maxsize, cap), steps).Some?
    ensures var s := Run(Init(maxsize, cap), steps).value;
            && s.logged + Messages(s.queue) == s.enqueued
            && s.log == LastN(s.logged, s.cap)
            && (forall h :: Known(s.handlers, h) && BirthOf(s.births, h) == 0 ==>
                  Received(s.inbox, h) + Pending(s.loop, h) == Filter(s.logged, m => Wants(h.agent, m)))
            && (forall h :: Known(s.handlers, h) && !s.loop.Dispatching? ==>
                  Received(s.inbox, h) == Owed(h.agent, BirthOf(s.births, h), s.logged))
  {
    InitIsSound(maxsize, cap);
    RunKeeps(Init(maxsize, cap), steps);
    var s := Run(Init(maxsize, cap), steps).value;
    assert s.logged[0..] == s.logged;
    forall h | Known(s.handlers, h)
      ensures Received(s.inbox, h) + Pending(s.loop, h) == Owed(h.agent, BirthOf(s.births, h), s.logged)
    {
      assert Served(s, s.handlers[h.agent][h.index]);
    }
  }

  // ---- What the bus does, read off the steps taken ---------------------------------------------

  /** The messages published, in order. */
  function Published(steps: seq<Step>): seq<Message> {
    if steps == [] then []
    else (if steps[0].Put? then [steps[0].message] else []) + Published(steps[1..])
  }

  /** How often the agent subscribed. */
  function Subscribed(steps: seq<Step>, agent: string): nat {
    if steps == [] then 0
    else (if steps[0] == Subscribe(agent) then 1 else 0) + Subscribed(steps[1..], agent)
  }

  /** How many steps come before the agent's `i`-th subscription. */
  function Place(steps: seq<Step>, agent: string, i: nat): (n: nat)
    requires i < Subscribed(steps, agent)
    ensures n < |steps|
  {
    if steps[0] != Subscribe(agent) then 1 + Place(steps[1..], agent, i)
    else if i > 0 then 1 + Place(steps[1..], agent, i - 1)
    else 0
  }

  /** What had been logged when the agent subscribed for the `i`-th time. */
  ghost function LoggedBefore(s: BusState, steps: seq<Step>, agent: string, i: nat): nat
    requires i < Subscribed(steps, agent)
  {
    var before := Run(s, steps[..Place(steps, agent, i)]);
    if before.Some? then |before.value.logged| else 0
  }

  lemma StepAccepts(s: BusState, step: Step)
    requires Next(s, step).Some?
    ensures var t := Next(s, step).value;
            && t.enqueued == s.enqueued + (if step.Put? then [step.message] else [])
            && t.maxsize == s.maxsize && t.cap == s.cap
  {
    assert s.enqueued + [] == s.enqueued;
  }

  /** Every message published is accepted. */
  lemma {:induction false} RunAccepts(s: BusState, steps: seq<Step>)
    requires Run(s, steps).Some?
    ensures var t := Run(s, steps).value;
            t.enqueued == s.enqueued + Published(steps) && t.maxsize == s.maxsize && t.cap == s.cap
    decreases |steps|
  {
    if steps == [] {
      assert s.enqueued + [] == s.enqueued;
    } else {
      var t := Next(s, steps[0]).value;
      StepAccepts(s, steps[0]);
      RunAccepts(t, steps[1..]);
      Assoc(s.enqueued, if steps[0].Put? then [steps[0].message] else [], Published(steps[1..]));
      assert Run(s, steps) == Run(t, steps[1..]);
    }
  }

  lemma StepSubscribes(s: BusState, step: Step, agent: string)
    requires Next(s, step).Some?
    ensures |HandlersOf(Next(s, step).value.handlers, agent)| ==
      |HandlersOf(s.handlers, agent)| + (if step == Subscribe(agent) then 1 else 0)
  {
  }

  /** Every subscription adds a handler. */
  lemma {:induction false} RunSubscribes(s: BusState, steps: seq<Step>, agent: string)
    requires Run(s, steps).Some?
    ensures |HandlersOf(Run(s, steps).value.handlers, agent)| == |HandlersOf(s.handlers, agent)| + Subscribed(steps, agent)
    decreases |steps|
  {
    if steps != [] {
      var t := Next(s, steps[0]).value;
      StepSubscribes(s, steps[0], agent);
      RunSubscribes(t, steps[1..], agent);
      assert Run(s, steps) == Run(t, steps[1..]);
    }
  }

  lemma StepKeepsBirth(s: BusState, step: Step, agent: string, i: nat)
    requires Next(s, step).Some? && i < |HandlersOf(s.handlers, agent)|
    ensures BirthOf(Next(s, step).value.births, Handler(agent, i)) == BirthOf(s.births, Handler(agent, i))
  {
  }

  lemma {:induction false} BirthStays(s: BusState, steps: seq<Step>, agent: string, i: nat)
    requires Run(s, steps).Some? && i < |HandlersOf(s.handlers, agent)|
    ensures BirthOf(Run(s, steps).value.births, Handler(agent, i)) == BirthOf(s.births, Handler(agent, i))
    decreases |steps|
  {
    if steps != [] {
      var t := Next(s, steps[0]).value;
      StepSubscribes(s, steps[0], agent);
      StepKeepsBirth(s, steps[0], agent, i);
      BirthStays(t, steps[1..], agent, i);
      assert Run(s, steps) == Run(t, steps[1..]);
    }
  }

  lemma LoggedBeforeNext(s: BusState, steps: seq<Step>, agent: string, i: nat)
    requires steps != [] && Next(s, steps[0]).Some? && i < Subscribed(steps, agent)
    ensures steps[0] == Subscribe(agent) && i == 0 ==> LoggedBefore(s, steps, agent, i) == |s.logged|
    ensures !(steps[0] == Subscribe(agent) && i == 0) ==>
      var j := if steps[0] == Subscribe(agent) then i - 1 else i;
      LoggedBefore(s, steps, agent, i) == LoggedBefore(Next(s, steps[0]).value, steps[1..], agent, j)
  {
    if steps[0] == Subscribe(agent) && i == 0 {
      assert steps[..0] == [];
    } else {
      var j := if steps[0] == Subscribe(agent) then i - 1 else i;
      var n := Place(steps[1..], agent, j);
      assert steps[..n + 1][1..] == steps[1..][..n];
    }
  }

  /** A handler's history begins where the log stood when it subscribed. */
  lemma {:induction false} BirthIsPlace(s: BusState, steps: seq<Step>, agent: string, i: nat)
    requires Run(s, steps).Some? && i < Subscribed(steps, agent)
    ensures BirthOf(Run(s, steps).value.births, Handler(agent, |HandlersOf(s.handlers, agent)| + i)) ==
      LoggedBefore(s, steps, agent, i)
    decreases |steps|
  {
    var t := Next(s, steps[0]).value;
    var n := |HandlersOf(s.handlers, agent)|;
    assert Run(s, steps) == Run(t, steps[1..]);
    StepSubscribes(s, steps[0], agent);
    LoggedBeforeNext(s, steps, agent, i);
    if steps[0] != Subscribe(agent) {
      BirthIsPlace(t, steps[1..], agent, i);
    } else if i > 0 {
      BirthIsPlace(t, steps[1..], agent, i - 1);
    } else {
      assert BirthOf(t.births, Handler(agent, n)) == |s.logged|;
      BirthStays(t, steps[1..], agent, n);
    }
  }

  predicate OnlyDelivers(steps: seq<Step>) {
    forall i :: 0 <= i < |steps| ==> steps[i].Deliver?
  }

  /** The first handlers of the list have been called with the message once more, and no others. */
  ghost predicate Called(s: BusState, t: BusState, first: seq<Handler>, m: Message) {
    forall h :: Received(t.inbox, h) == Received(s.inbox, h) + (if h in first then [m] else [])
  }

  lemma CallsFirst(s: BusState, raises: bool)
    requires s.loop.Dispatching? && s.loop.rest != []
    ensures var t := Next(s, Deliver(raises)).value;
            t.loop == Dispatching(s.loop.message, s.loop.rest[1..]) && Called(s, t, [s.loop.rest[0]], s.loop.message)
  {
    assert forall h :: Received(s.inbox, h) + [] == Received(s.inbox, h);
  }

  lemma CallsMore(s: BusState, t: BusState, u: BusState, h: Handler, more: seq<Handler>, m: Message)
    requires Called(s, t, [h], m) && Called(t, u, more, m) && h !in more
    ensures Called(s, u, [h] + more, m)
  {
    forall x
      ensures Received(u.inbox, x) == Received(s.inbox, x) + (if x in [h] + more then [m] else [])
    {
      assert x in [h] + more <==> x == h || x in more;
      Assoc(Received(s.inbox, x), if x in [h] then [m] else [], if x in more then [m] else []);
      assert [] + (if x in more then [m] else []) == (if x in more then [m] else []);
      assert [m] + [] == [m];
    }
  }

  /** A dispatch calls its handlers in the order of the list, whether or not one before has raised. */
  lemma {:induction false} DeliversInOrder(s: BusState, steps: seq<Step>)
    requires s.loop.Dispatching? && NoDuplicates(s.loop.rest) && |steps| <= |s.loop.rest| && OnlyDelivers(steps)
    ensures Run(s, steps).Some?
    ensures var t := Run(s, steps).value;
            && t.loop == Dispatching(s.loop.message, s.loop.rest[|steps|..])
            && Called(s, t, s.loop.rest[..|steps|], s.loop.message)
    decreases |steps|
  {
    if steps == [] {
      assert forall h :: Received(s.inbox, h) + [] == Received(s.inbox, h);
    } else {
      var rest, n := s.loop.rest, |steps|;
      var t := Next(s, steps[0]).value;
      CallsFirst(s, steps[0].raises);
      TailDelivers(steps);
      FirstApart(rest, n);
      DeliversInOrder(t, steps[1..]);
      assert Run(s, steps) == Run(t, steps[1..]);
      CallsMore(s, t, Run(s, steps).value, rest[0], rest[1..][..n - 1], s.loop.message);
    }
  }

  lemma TailDelivers(steps: seq<Step>)
    requires steps != [] && OnlyDelivers(steps)
    ensures steps[0].Deliver? && OnlyDelivers(steps[1..])
  {
  }

  lemma FirstApart(rest: seq<Handler>, n: nat)
    requires NoDuplicates(rest) && 0 < n <= |rest|
    ensures NoDuplicates(rest[1..]) && rest[0] !in rest[1..][..n - 1]
    ensures rest[1..][n - 1..] == rest[n..] && [rest[0]] + rest[1..][..n - 1] == rest[..n]
  {
  }

  lemma KnownIff(hs: map<string, seq<Handler>>, agent: string, i: nat)
    requires Indexed(hs)
    ensures Known(hs, Handler(agent, i)) <==> i < |HandlersOf(hs, agent)|
  {
  }

  /**
   * The same of the steps alone, for every interleaving from a new bus. What was logged, followed by
   * what is queued, is what was published, whether or not the bus was running. An agent has as many
   * handlers as it subscribed, and the `i`-th has been called with exactly the messages logged since
   * that are for the agent, or with all if it subscribed to everything: once each, in order, except
   * the one being dispatched now.
   */
  lemma PublishedIsDelivered(maxsize: int, cap: nat, steps: seq<Step>, agent: string, i: nat)
    requires Run(Init(maxsize, cap), steps).Some?
    ensures var s := Run(Init(maxsize, cap), steps).value;
            && s.logged + Messages(s.queue) == Published(steps)
            && s.log == LastN(s.logged, cap)
            && (maxsize > 0 ==> |s.queue| <= maxsize)
            && (Known(s.handlers, Handler(agent, i)) <==> i < Subscribed(steps, agent))
            && (i < Subscribed(steps, agent) ==>
                  var since := LoggedBefore(Init(maxsize, cap), steps, agent, i);
                  && since <= |s.logged|
                  && Received(s.inbox, Handler(agent, i)) + Pending(s.loop, Handler(agent, i)) ==
                     Filter(s.logged[since..], (m: Message) => agent == "__broadcast__" || m.target == agent))
  {
    var s0 := Init(maxsize, cap);
    var s := Run(s0, steps).value;
    var h := Handler(agent, i);
    RunKeeps(s0, steps);
    RunAccepts(s0, steps);
    RunSubscribes(s0, steps, agent);
    assert [] + Published(steps) == Published(steps);
    KnownIff(s.handlers, agent, i);
    if i < Subscribed(steps, agent) {
      BirthIsPlace(s0, steps, agent, i);
      IsServed(s, h);
      SameFilter(s.logged[BirthOf(s.births, h)..], agent);
    }
  }

  lemma IsServed(s: BusState, h: Handler)
    requires Inv(s) && Known(s.handlers, h)
    ensures BirthOf(s.births, h) <= |s.logged|
    ensures Received(s.inbox, h) + Pending(s.loop, h) == Filter(s.logged[BirthOf(s.births, h)..], m => Wants(h.agent, m))
  {
    assert Served(s, s.handlers[h.agent][h.index]);
  }

  lemma {:induction false} SameFilter(ms: seq<Message>, agent: string)
    ensures Filter(ms, m => Wants(agent, m)) == Filter(ms, (m: Message) => agent == "__broadcast__" || m.target == agent)
  {
    if ms != [] {
      SameFilter(ms[1..], agent);
    }
  }

  /** A message is refused only while the queue is full. */
  lemma PutRefusedIff(s: BusState, m: Message)
    ensures Next(s, Put(m)).None? <==> s.maxsize > 0 && |s.queue| >= s.maxsize
  {
  }

  /**
   * The order of the calls for one message: the handlers of its target as they subscribed, and then
   * those that subscribed to everything.
   */
  lemma RecipientsInOrder(hs: map<string, seq<Handler>>, target: string, i: nat, j: nat)
    requires Indexed(hs) && i < j < |Recipients(hs, target)|
    ensures var a, b := Recipients(hs, target)[i], Recipients(hs, target)[j];
            (a.agent == b.agent && a.index < b.index) || (a.agent == target != "__broadcast__" && b.agent == "__broadcast__")
  {
    var direct := HandlersOf(hs, target);
    if j >= |direct| {
      assert Recipients(hs, target)[j] == HandlersOf(hs, BROADCAST)[j - |direct|];
      if i >= |direct| {
        assert Recipients(hs, target)[i] == HandlersOf(hs, BROADCAST)[i - |direct|];
      }
    }
  }

  /** After a stop has begun, and until the next start, at most one more message is taken. */
  lemma {:induction false} StopTakesAtMostOne(s: BusState, steps: seq<Step>)
    requires !s.running && Start !in steps && Run(s, steps).Some?
    ensures var t := Run(s, steps).value;
            !t.running && |t.logged| <= |s.logged| + (if s.loop.Waiting? then 1 else 0)
    decreases |steps|
  {
    if steps != [] {
      assert steps == [steps[0]] + steps[1..];
      StopTakesAtMostOne(Next(s, steps[0]).value, steps[1..]);
    }
  }

  /** The loop waits at the queue, is about to, or will be once the handlers of a message are done. */
  predicate Alive(s: BusState) {
    s.running && (s.loop.AtTop? || s.loop.Waiting? || s.loop.Dispatching?)
  }

  /** The loop has ended but `_running` still says otherwise: `start` is then a no-op. */
  predicate Dead(s: BusState) {
    s.running && s.loop.Ended?
  }

  /** A bus without a stale sentinel never dies as long as nobody stops it. */
  lemma {:induction false} CleanBusLives(s: BusState, steps: seq<Step>)
    requires Alive(s) && Sentinel !in s.queue && s.stop.Idle?
    requires StopBegin !in steps && Run(s, steps).Some?
    ensures Alive(Run(s, steps).value)
    decreases |steps|
  {
    if steps != [] {
      assert steps == [steps[0]] + steps[1..];
      var t := Next(s, steps[0]).value;
      assert s.queue != [] ==> s.queue == [s.queue[0]] + s.queue[1..];
      CleanBusLives(t, steps[1..]);
    }
  }

  /** A dead bus logs nothing more, whatever is published or started, until it is stopped. */
  lemma {:induction false} DeadBusStaysDead(s: BusState, steps: seq<Step>)
    requires Dead(s) && s.stop.Idle? && StopBegin !in steps && Run(s, steps).Some?
    ensures Dead(Run(s, steps).value) && Run(s, steps).value.logged == s.logged
    decreases |steps|
  {
    if steps != [] {
      assert steps == [steps[0]] + steps[1..];
      DeadBusStaysDead(Next(s, steps[0]).value, steps[1..]);
    }
  }

  /** Steps that bring a live loop out of a dispatch and to the top. */
  lemma {:induction false} FinishDispatch(s: BusState) returns (steps: seq<Step>)
    requires s.loop.Dispatching?
    ensures OnlyLoop(steps) && Run(s, steps).Some?
    ensures var t := Run(s, steps).value;
            t == s.(loop := AtTop, inbox := t.inbox)
    decreases |s.loop.rest|
  {
    var t := Next(s, Deliver(false)).value;
    if s.loop.rest == [] {
      steps := [Deliver(false)];
      assert steps[1..] == [] && Run(t, []) == Some(t);
    } else {
      var more := FinishDispatch(t);
      steps := [Deliver(false)] + more;
      assert steps[1..] == more;
    }
  }

  /** Steps that bring a live loop to its wait. */
  lemma ReachWait(s: BusState) returns (steps: seq<Step>)
    requires Alive(s)
    ensures OnlyLoop(steps) && Run(s, steps).Some?
    ensures var t := Run(s, steps).value;
            t == s.(loop := Waiting, inbox := t.inbox)
  {
    steps := [];
    if s.loop.Dispatching? {
      steps := FinishDispatch(s);
    }
    var t := Run(s, steps).value;
    if t.loop.AtTop? {
      RunAppend(s, steps, [LoopTop]);
      assert [LoopTop][1..] == [];
      assert Run(t, [LoopTop]) == Some(t.(loop := Waiting));
      steps := steps + [LoopTop];
    }
  }

  /** With a stale sentinel queued, the loop ends by itself. */
  lemma {:induction false} StaleSentinelKills(s: BusState) returns (steps: seq<Step>)
    requires Alive(s) && Sentinel in s.queue
    ensures OnlyLoop(steps) && Run(s, steps).Some? && Dead(Run(s, steps).value)
    decreases |s.queue|
  {
    var toWait := ReachWait(s);
    var w := Run(s, toWait).value;
    var taken := Next(w, LoopTake).value;
    assert w.queue == [w.queue[0]] + w.queue[1..];
    RunAppend(s, toWait, [LoopTake]);
    assert [LoopTake][1..] == [];
    assert Run(w, [LoopTake]) == Some(taken);
    steps := toWait + [LoopTake];
    if !w.queue[0].Sentinel? {
      var more := StaleSentinelKills(taken);
      RunAppend(s, steps, more);
      steps := steps + more;
    }
  }

  /**
   * A restart is safe exactly when the queue holds no sentinel left over from an earlier stop. One
   * is left over whenever the loop of that stop saw the cleared flag before it saw the sentinel.
   * With one queued the loop needs nobody's help to die.
   */
  lemma RestartIsSafeIffNoSentinel(s: BusState)
    requires Alive(s) && s.stop.Idle?
    ensures Sentinel !in s.queue <==>
      (forall steps :: StopBegin !in steps && Run(s, steps).Some? ==> !Dead(Run(s, steps).value))
    ensures Sentinel !in s.queue <==>
      (forall steps :: OnlyLoop(steps) && Run(s, steps).Some? ==> !Dead(Run(s, steps).value))
  {
    forall steps | OnlyLoop(steps)
      ensures StopBegin !in steps
    {
    }
    if Sentinel in s.queue {
      var steps := StaleSentinelKills(s);
    } else {
      forall steps | StopBegin !in steps && Run(s, steps).Some?
        ensures !Dead(Run(s, steps).value)
      {
        CleanBusLives(s, steps);
      }
    }
  }

  /** `stop` waits for room in a full queue that the loop will not read again. */
  predicate Stuck(s: BusState) {
    s.stop.Putting? && Full(s.maxsize, s.queue) && !s.loop.Waiting? && !s.loop.NoTask? && !s.running
  }

  lemma {:induction false} StuckForever(s: BusState, steps: seq<Step>)
    requires Stuck(s) && Run(s, steps).Some?
    ensures Stuck(Run(s, steps).value)
    decreases |steps|
  {
    if steps != [] {
      StuckForever(Next(s, steps[0]).value, steps[1..]);
    }
  }

  /** Once the flag is down, a loop that has something to do ends by itself. */
  lemma LoopEnds(s: BusState) returns (steps: seq<Step>)
    requires !s.running && !s.loop.NoTask? && (s.loop.Waiting? ==> s.queue != [])
    ensures OnlyLoop(steps) && Run(s, steps).Some?
    ensures var t := Run(s, steps).value;
            && t.loop.Ended? && t.stop == s.stop && !t.running && t.maxsize == s.maxsize
            && t.queue == if s.loop.Waiting? then s.queue[1..] else s.queue
    ensures HolderAt(s, steps, Nobody) == Nobody
  {
    if s.loop.Ended? {
      steps := [];
    } else if s.loop.AtTop? {
      steps := OneStep(s, LoopTop);
    } else if s.loop.Dispatching? {
      steps := DispatchEnds(s);
    } else {
      var t := Next(s, LoopTake).value;
      steps := OneStep(s, LoopTake);
      if t.loop.Dispatching? {
        var more := DispatchEnds(t);
        RunAppend(s, steps, more);
        HolderAppend(s, steps, more, Nobody);
        steps := steps + more;
      }
    }
  }

  lemma OneStep(s: BusState, step: Step) returns (steps: seq<Step>)
    requires Next(s, step).Some?
    ensures steps == [step] && Run(s, steps) == Next(s, step)
    ensures forall h :: HolderAt(s, steps, h) == HolderAfter(Next(s, step).value, step)
  {
    steps := [step];
    assert steps[1..] == [];
    assert Run(Next(s, step).value, []) == Next(s, step);
  }

  lemma DispatchEnds(s: BusState) returns (steps: seq<Step>)
    requires !s.running && s.loop.Dispatching?
    ensures OnlyLoop(steps) && Run(s, steps).Some?
    ensures var t := Run(s, steps).value;
            t.loop.Ended? && t.stop == s.stop && !t.running && t.maxsize == s.maxsize && t.queue == s.queue
    ensures forall h :: HolderAt(s, steps, h) == Nobody
  {
    var first := FinishDispatch(s);
    var t := Run(s, first).value;
    var last := OneStep(t, LoopTop);
    RunAppend(s, first, last);
    steps := first + last;
    forall h
      ensures HolderAt(s, steps, h) == Nobody
    {
      HolderAppend(s, first, last, h);
    }
  }

  lemma {:induction false} HolderAppend(s: BusState, a: seq<Step>, b: seq<Step>, h: Holder)
    requires Run(s, a).Some? && Run(Run(s, a).value, b).Some?
    ensures Run(s, a + b).Some? && HolderAt(s, a + b, h) == HolderAt(Run(s, a).value, b, HolderAt(s, a, h))
    decreases |a|
  {
    RunAppend(s, a, b);
    if a == [] {
      assert a + b == b;
    } else {
      assert (a + b)[1..] == a[1..] + b;
      var t := Next(s, a[0]).value;
      HolderAppend(t, a[1..], b, HolderAfter(t, a[0]));
    }
  }

  /** Runs put together, with the thread free between them. */
  lemma Together(s: BusState, a: seq<Step>, b: seq<Step>)
    requires Run(s, a).Some? && Cooperative(s, a, Nobody) && HolderAt(s, a, Nobody) == Nobody
    requires Run(Run(s, a).value, b).Some? && Cooperative(Run(s, a).value, b, Nobody)
    ensures Cooperative(s, a + b, Nobody) && Run(s, a + b) == Run(Run(s, a).value, b)
  {
    CooperativeAppend(s, a, b, Nobody);
    RunAppend(s, a, b);
  }

  /** Once its sentinel is queued, a stop can complete. */
  lemma JoinCompletes(s: BusState) returns (steps: seq<Step>)
    requires Inv(s) && s.stop.Joining?
    ensures Cooperative(s, steps, Nobody) && Run(s, steps).Some? && Run(s, steps).value.stop.Idle?
  {
    var ends := LoopEnds(s);
    LoopCooperates(s, ends, Nobody);
    var t := Run(s, ends).value;
    var join := OneStep(t, StopJoin);
    Together(s, ends, join);
    steps := ends + join;
  }

  /** A stop that finds room queues its sentinel and completes. */
  lemma PutCompletes(s: BusState) returns (steps: seq<Step>)
    requires Inv(s) && s.stop.Putting? && !Full(s.maxsize, s.queue)
    ensures Cooperative(s, steps, Nobody) && Run(s, steps).Some? && Run(s, steps).value.stop.Idle?
  {
    var t := Next(s, StopPut).value;
    StepKeeps(s, StopPut);
    if t.loop.Ended? {
      var join := OneStep(t, StopJoin);
      Follow(s, StopPut, join, Nobody);
      steps := [StopPut] + join;
    } else {
      var more := JoinCompletes(t);
      Follow(s, StopPut, more, Nobody);
      steps := [StopPut] + more;
    }
  }

  /**
   * A suspended stop can still complete exactly when it is not waiting for room in a queue the loop
   * has finished with; in that case no schedule completes it.
   */
  lemma StopCompletesIffNotStuck(s: BusState)
    requires Inv(s) && s.stop.Putting?
    ensures (exists steps :: Cooperative(s, steps, Nobody) && Run(s, steps).Some? && Run(s, steps).value.stop.Idle?)
      <==> !Stuck(s)
    ensures Stuck(s) ==> forall steps :: Run(s, steps).Some? ==> !Run(s, steps).value.stop.Idle?
  {
    if Stuck(s) {
      forall steps | Run(s, steps).Some?
        ensures !Run(s, steps).value.stop.Idle?
      {
        StuckForever(s, steps);
      }
    } else if !Full(s.maxsize, s.queue) {
      var steps := PutCompletes(s);
    } else {
      var ends := LoopEnds(s);
      LoopCooperates(s, ends, Nobody);
      RunKeeps(s, ends);
      var more := PutCompletes(Run(s, ends).value);
      Together(s, ends, more);
      assert Cooperative(s, ends + more, Nobody);
    }
  }

  // ---- What a stop leaves behind -------------------------------------------------------------

  lemma StepLogs(s: BusState, step: Step)
    requires Next(s, step).Some?
    ensures s.logged <= Next(s, step).value.logged
  {
  }

  lemma {:induction false} LoggedGrows(s: BusState, steps: seq<Step>)
    requires Run(s, steps).Some?
    ensures s.logged <= Run(s, steps).value.logged
    decreases |steps|
  {
    if steps != [] {
      var t := Next(s, steps[0]).value;
      StepLogs(s, steps[0]);
      LoggedGrows(t, steps[1..]);
      assert Run(s, steps) == Run(t, steps[1..]);
    }
  }

  /** A loop that waits when the flag is down takes the front item of its queue, and nothing else. */
  lemma {:induction false} WaitingTakesFront(s: BusState, steps: seq<Step>)
    requires !s.running && s.loop.Waiting? && s.queue != [] && Start !in steps && Run(s, steps).Some?
    requires !Run(s, steps).value.loop.Waiting?
    ensures Run(s, steps).value.logged == s.logged + (if s.queue[0].Item? then [s.queue[0].message] else [])
    decreases |steps|
  {
    assert steps == [steps[0]] + steps[1..];
    var t := Next(s, steps[0]).value;
    if steps[0].LoopTake? {
      StopTakesAtMostOne(t, steps[1..]);
      LoggedGrows(t, steps[1..]);
    } else {
      WaitingTakesFront(t, steps[1..]);
    }
  }

  /**
   * When a stop drains: the messages queued as it begins are all logged when it has completed if and
   * only if there are none, or there is one, in front, and the loop is already waiting for it.
   */
  lemma StopDrainsIff(s: BusState, steps: seq<Step>)
    requires Inv(s) && s.stop.Putting? && Start !in steps
    requires Run(s, steps).Some? && Run(s, steps).value.stop.Idle?
    ensures s.logged + Messages(s.queue) <= Run(s, steps).value.logged <==>
      Messages(s.queue) == [] || (s.loop.Waiting? && s.queue[0].Item? && |Messages(s.queue)| == 1)
  {
    var t := Run(s, steps).value;
    RunKeeps(s, steps);
    LoggedGrows(s, steps);
    StopTakesAtMostOne(s, steps);
    if Messages(s.queue) != [] && s.loop.Waiting? {
      WaitingTakesFront(s, steps);
      if s.queue[0].Item? {
        assert Messages(s.queue) == [s.queue[0].message] + Messages(s.queue[1..]);
      }
    }
  }

  /** A bus whose only handler has been called with the first message and has not returned. */
  function InHandler(maxsize: int, cap: nat, m: Message): BusState {
    var h := Handler(m.target, 0);
    BusState(maxsize, cap, [], map[m.target := [h]], LastN([m], cap), true, Dispatching(m, [h]), Idle,
             [m], [m], map[h := 0], map[])
  }

  /** A new bus gets there in five steps. */
  lemma ReachHandler(maxsize: int, cap: nat, m: Message, rest: seq<Step>)
    requires Cooperative(InHandler(maxsize, cap, m), rest, Nobody)
    ensures Cooperative(Init(maxsize, cap), FromInit(m, rest), Nobody)
    ensures Run(Init(maxsize, cap), FromInit(m, rest)) == Run(InHandler(maxsize, cap, m), rest)
  {
    var h := Handler(m.target, 0);
    var s0 := Init(maxsize, cap);
    var s1 := s0.(handlers := map[m.target := [h]], births := map[h := 0]);
    var s3 := s1.(running := true, loop := Waiting);
    var s4 := s3.(queue := [Item(m)], enqueued := [m]);
    assert [] + [h] == [h] && [] + [m] == [m] && [] + [Item(m)] == [Item(m)] && [Item(m)][1..] == [];
    assert Next(s0, Subscribe(m.target)) == Some(s1);
    assert Recipients(s1.handlers, m.target) == [h];
    assert Next(s4, LoopTake) == Some(InHandler(maxsize, cap, m));
    Follow(s4, LoopTake, rest, Nobody);
    Follow(s3, Put(m), [LoopTake] + rest, Nobody);
    Follow(s1.(running := true, loop := AtTop), LoopTop, [Put(m)] + ([LoopTake] + rest), Nobody);
    Follow(s1, Start, [LoopTop] + ([Put(m)] + ([LoopTake] + rest)), Nobody);
    Follow(s0, Subscribe(m.target), [Start] + ([LoopTop] + ([Put(m)] + ([LoopTake] + rest))), Nobody);
  }

  /** The handler returns, the loop sees the flag and ends, and the stop completes. */
  lemma HandlerReturns(s: BusState, h: Handler) returns (steps: seq<Step>)
    requires !s.running && s.stop.Joining? && s.loop.Dispatching? && s.loop.rest == [h]
    ensures Cooperative(s, steps, Nobody)
    ensures Run(s, steps) ==
      Some(s.(inbox := s.inbox[h := Received(s.inbox, h) + [s.loop.message]], loop := NoTask, stop := Idle))
  {
    var s1 := Next(s, Deliver(false)).value;
    var s2 := s1.(loop := AtTop);
    var s3 := s1.(loop := Ended);
    var s4 := s1.(loop := NoTask, stop := Idle);
    assert [h][1..] == [] && Next(s1, Deliver(false)) == Some(s2);
    assert Run(s4, []) == Some(s4);
    Follow(s3, StopJoin, [], Nobody);
    Follow(s2, LoopTop, [StopJoin] + [], LoopTask);
    var after := [LoopTop] + ([StopJoin] + []);
    Follow(s1, Deliver(false), after, LoopTask);
    Follow(s, Deliver(false), [Deliver(false)] + after, Nobody);
    steps := [Deliver(false)] + ([Deliver(false)] + after);
  }

  /** While a handler runs, a message is published and a stop begins and queues its sentinel. */
  lemma PutThenStop(s: BusState, m: Message, rest: seq<Step>)
    requires s.maxsize == 0 && s.running && s.loop.Dispatching? && s.stop.Idle?
    requires Cooperative(Stopped(s, m), rest, Nobody)
    ensures Cooperative(s, [Put(m)] + ([StopBegin] + ([StopPut] + rest)), Nobody)
    ensures Run(s, [Put(m)] + ([StopBegin] + ([StopPut] + rest))) == Run(Stopped(s, m), rest)
  {
    var s1 := Next(s, Put(m)).value;
    var s2 := Next(s1, StopBegin).value;
    assert (s.queue + [Item(m)]) + [Sentinel] == s.queue + [Item(m), Sentinel];
    Follow(s2, StopPut, rest, Stopper);
    Follow(s1, StopBegin, [StopPut] + rest, Nobody);
    Follow(s, Put(m), [StopBegin] + ([StopPut] + rest), Nobody);
  }

  function Stopped(s: BusState, m: Message): BusState {
    s.(queue := s.queue + [Item(m), Sentinel], enqueued := s.enqueued + [m], running := false, stop := Joining)
  }

  /** The stop has completed: the second message and the sentinel are still queued. */
  function LeftBehind(cap: nat, m: Message, second: Message): BusState {
    InHandler(0, cap, m).(queue := [Item(second), Sentinel], enqueued := [m, second], running := false,
                          loop := NoTask, inbox := map[Handler(m.target, 0) := [m]])
  }

  lemma RestartWillDie(cap: nat, m: Message, second: Message)
    ensures var s := Next(LeftBehind(cap, m, second), Start);
            s.Some? && Alive(s.value) && Sentinel in s.value.queue
  {
    assert LeftBehind(cap, m, second).queue[1] == Sentinel;
  }

  lemma StopInHandler(cap: nat, m: Message, second: Message) returns (steps: seq<Step>)
    ensures Cooperative(InHandler(0, cap, m), steps, Nobody) && StopBegin in steps
    ensures Run(InHandler(0, cap, m), steps) == Some(LeftBehind(cap, m, second))
  {
    var s := InHandler(0, cap, m);
    assert [] + [Item(second), Sentinel] == [Item(second), Sentinel] && [m] + [second] == [m, second];
    var after := HandlerReturns(Stopped(s, second), Handler(m.target, 0));
    assert [] + [m] == [m];
    PutThenStop(s, second, after);
    steps := [Put(second)] + ([StopBegin] + ([StopPut] + after));
    assert steps[1] == StopBegin;
  }

  /**
   * It does happen: a stop that begins while a handler runs completes, leaves a message unread, and
   * leaves its sentinel behind it. The bus that is then started again is alive and will die of it.
   */
  lemma StopLeavesMessageAndSentinel(cap: nat, m: Message, second: Message) returns (steps: seq<Step>, t: BusState)
    ensures Cooperative(Init(0, cap), steps, Nobody) && Run(Init(0, cap), steps) == Some(t)
    ensures StopBegin in steps && t.stop.Idle? && t.enqueued == [m, second] && t.logged == [m]
    ensures t.queue == [Item(second), Sentinel]
    ensures Next(t, Start).Some? && Alive(Next(t, Start).value) && Sentinel in Next(t, Start).value.queue
  {
    var stop := StopInHandler(cap, m, second);
    ReachHandler(0, cap, m, stop);
    steps := FromInit(m, stop);
    t := LeftBehind(cap, m, second);
    RestartWillDie(cap, m, second);
  }

  /** The steps of a new bus up to its first handler call, and then `rest`. */
  function FromInit(m: Message, rest: seq<Step>): (steps: seq<Step>)
    ensures StopBegin in rest ==> StopBegin in steps
  {
    [Subscribe(m.target)] + ([Start] + ([LoopTop] + ([Put(m)] + ([LoopTake] + rest))))
  }

  /** It does happen that a stop is stuck: its queue is full while the only handler runs. */
  lemma StopGetsStuck(cap: nat, m: Message, second: Message) returns (steps: seq<Step>, t: BusState)
    ensures Cooperative(Init(1, cap), steps, Nobody) && Run(Init(1, cap), steps) == Some(t) && Stuck(t)
  {
    var s0 := InHandler(1, cap, m);
    var s1 := s0.(queue := [Item(second)], enqueued := [m, second]);
    t := s1.(running := false, stop := Putting);
    assert [] + [Item(second)] == [Item(second)] && [m] + [second] == [m, second];
    assert Run(t, []) == Some(t);
    Follow(s1, StopBegin, [], Nobody);
    Follow(s0, Put(second), [StopBegin] + [], Nobody);
    var rest := [Put(second)] + ([StopBegin] + []);
    ReachHandler(1, cap, m, rest);
    steps := FromInit(m, rest);
  }

  /**
   * The bus object. Each method is one atomic step of the program; its contract is that step of the
   * machine, so every property of runs above is a property of the object under any schedule.
   */
  class Bus {
    const maxsize: int
    const cap: nat
    var queue: seq<Item>
    var handlers: map<string, seq<Handler>>
    var log: seq<Message>
    var running: bool
    var loop: Loop
    var stop: Stop
    ghost var enqueued: seq<Message>
    ghost var logged: seq<Message>
    ghost var births: map<Handler, nat>
    ghost var inbox: map<Handler, seq<Message>>

    constructor (maxsize: int, cap: nat)
      ensures View() == Init(maxsize, cap) && Inv(View())
    {
      this.maxsize, this.cap := maxsize, cap;
      queue, handlers, log, running, loop, stop := [], map[], [], false, NoTask, Idle;
      enqueued, logged, births, inbox := [], [], map[], map[];
    }

    ghost function View(): BusState
      reads this
    {
      BusState(maxsize, cap, queue, handlers, log, running, loop, stop, enqueued, logged, births, inbox)
    }

    /** `subscribe` and, for the broadcast name, `subscribe_broadcast`. */
    method AddHandler(agent: string)
      requires Inv(View())
      modifies this
      ensures Some(View()) == Next(old(View()), Subscribe(agent)) && Inv(View())
    {
      StepKeeps(View(), Subscribe(agent));
      var mine := HandlersOf(handlers, agent);
      var h := Handler(agent, |mine|);
      handlers := handlers[agent := mine + [h]];
      births := births[h := |logged|];
    }

    /** The queue part of `publish`; a full queue keeps the publisher waiting. */
    method Publish(m: Message) returns (accepted: bool)
      requires Inv(View())
      modifies this
      ensures accepted == !Full(maxsize, old(queue)) && Inv(View())
      ensures accepted ==> Some(View()) == Next(old(View()), Put(m))
      ensures !accepted ==> View() == old(View())
    {
      accepted := !Full(maxsize, queue);
      if accepted {
        StepKeeps(View(), Put(m));
        queue, enqueued := queue + [Item(m)], enqueued + [m];
      }
    }

    method StartLoop()
      requires Inv(View()) && (running || loop.NoTask?)
      modifies this
      ensures Some(View()) == Next(old(View()), Start) && Inv(View())
    {
      StepKeeps(View(), Start);
      if !running {
        running, loop := true, AtTop;
      }
    }

    /** The part of `stop` before its first await. */
    method BeginStop()
      requires Inv(View()) && stop.Idle?
      modifies this
      ensures Some(View()) == Next(old(View()), StopBegin) && Inv(View())
    {
      StepKeeps(View(), StopBegin);
      running := false;
      if !loop.NoTask? {
        stop := Putting;
      }
    }

    /** `await queue.put(None)` and then `await task`, each when it can go on. */
    method ContinueStop() returns (moved: bool)
      requires Inv(View()) && !stop.Idle?
      modifies this
      ensures Inv(View()) && (!moved ==> View() == old(View()))
      ensures old(stop).Putting? ==> moved == !Full(maxsize, old(queue))
      ensures old(stop).Joining? ==> moved == old(loop).Ended?
      ensures moved ==> Some(View()) == Next(old(View()), if old(stop).Putting? then StopPut else StopJoin)
    {
      moved := if stop.Putting? then !Full(maxsize, queue) else loop.Ended?;
      if moved {
        StepKeeps(View(), if stop.Putting? then StopPut else StopJoin);
        if stop.Putting? {
          queue, stop := queue + [Sentinel], Joining;
        } else {
          loop, stop := NoTask, Idle;
        }
      }
    }

    /** The head of the dispatch loop: look at the flag. */
    method LookAtFlag()
      requires Inv(View()) && loop.AtTop?
      modifies this
      ensures Some(View()) == Next(old(View()), LoopTop) && Inv(View())
    {
      StepKeeps(View(), LoopTop);
      loop := if running then Waiting else Ended;
    }

    /** `queue.get` up to the first handler; an empty queue keeps the loop waiting. */
    method TakeNext() returns (moved: bool)
      requires Inv(View()) && loop.Waiting?
      modifies this
      ensures Inv(View()) && moved == (old(queue) != [])
      ensures !moved ==> View() == old(View())
      ensures moved ==> Some(View()) == Next(old(View()), LoopTake)
    {
      if queue == [] {
        return false;
      }
      StepKeeps(View(), LoopTake);
      var item := queue[0];
      queue, moved := queue[1..], true;
      if item.Sentinel? {
        loop := Ended;
      } else {
        var m := item.message;
        log, logged := LastN(log + [m], cap), logged + [m];
        loop := Dispatching(m, Recipients(handlers, m.target));
      }
    }

    /** One handler call of `_dispatch`; an exception is logged and the next handler follows. */
    method CallNext(raises: bool)
      requires Inv(View()) && loop.Dispatching?
      modifies this
      ensures Some(View()) == Next(old(View()), Deliver(raises)) && Inv(View())
    {
      StepKeeps(View(), Deliver(raises));
      var m, rest := loop.message, loop.rest;
      if rest == [] {
        loop := AtTop;
      } else {
        inbox := inbox[rest[0] := Received(inbox, rest[0]) + [m]];
        loop := Dispatching(m, rest[1..]);
      }
    }
  }
}
