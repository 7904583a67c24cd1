/** The scheduler, its task control blocks and its tasks as objects, and how they stand for a state of the system. */
module SchedulerState {
  import opened Packets
  import opened TaskSystem
  import opened TaskInvariants
  import opened TaskRuns
  import opened TaskTermination

  class IdleTask {
    var v1: nat
    var count: int

    constructor (v1: nat, count: int)
      ensures this.v1 == v1 && this.count == count
    {
      this.v1, this.count := v1, count;
    }
  }

  class WorkerTask {
    var v1: int
    var v2: int

    constructor (v1: int, v2: int)
      ensures this.v1 == v1 && this.v2 == v2
    {
      this.v1, this.v2 := v1, v2;
    }
  }

  class HandlerTask {
    var v1: Packet?
    var v2: Packet?

    constructor ()
      ensures v1 == null && v2 == null
    {
      v1, v2 := null, null;
    }
  }

  class DeviceTask {
    var v1: Packet?

    constructor ()
      ensures v1 == null
    {
      v1 := null;
    }
  }

  datatype Task =
    | Idle(idle: IdleTask)
    | Worker(worker: WorkerTask)
    | Handler(handler: HandlerTask)
    | Device(device: DeviceTask)

  class TaskControlBlock {
    const link: TaskControlBlock?
    const id: int
    const priority: int
    const task: Task
    var queue: Packet?
    var state: State

    constructor (link: TaskControlBlock?, id: int, priority: int, queue: Packet?, task: Task)
      ensures this.link == link && this.id == id && this.priority == priority && this.queue == queue
      ensures this.task == task
      ensures state == if queue == null then STATE_SUSPENDED else STATE_SUSPENDED_RUNNABLE
    {
      this.link, this.id, this.priority, this.queue, this.task := link, id, priority, queue, task;
      this.state := if queue == null then STATE_SUSPENDED else STATE_SUSPENDED_RUNNABLE;
    }
  }

  // ----- How the objects stand for the state -----

  /** The six blocks, linked from each to the one of next lower priority. */
  ghost predicate Wired(b: seq<TaskControlBlock>) {
    && |b| == NUMBER_OF_IDS
    && b[0].id == 0 && b[1].id == 1 && b[2].id == 2 && b[3].id == 3 && b[4].id == 4 && b[5].id == 5
    && b[0].link == null && b[1].link == b[0] && b[2].link == b[1]
    && b[3].link == b[2] && b[4].link == b[3] && b[5].link == b[4]
    && b[0].priority < b[1].priority < b[2].priority < b[3].priority < b[4].priority < b[5].priority
    && b[0].task.Idle? && b[1].task.Worker? && b[2].task.Handler? && b[3].task.Handler?
    && b[4].task.Device? && b[5].task.Device?
    && b[2].task.handler != b[3].task.handler && b[4].task.device != b[5].task.device
  }

  ghost predicate States(b: seq<TaskControlBlock>, state: seq<State>)
    reads (set t | t in b)`state
  {
    && |b| == |state| == NUMBER_OF_IDS
    && b[0].state == state[0] && b[1].state == state[1] && b[2].state == state[2]
    && b[3].state == state[3] && b[4].state == state[4] && b[5].state == state[5]
  }

  ghost predicate Queues(b: seq<TaskControlBlock>, l: Lists)
    reads (set t | t in b)`queue
  {
    && |b| == NUMBER_OF_IDS
    && IsHead(b[0].queue, At(l, Queue(0))) && IsHead(b[1].queue, At(l, Queue(1))) && IsHead(b[2].queue, At(l, Queue(2)))
    && IsHead(b[3].queue, At(l, Queue(3))) && IsHead(b[4].queue, At(l, Queue(4))) && IsHead(b[5].queue, At(l, Queue(5)))
  }

  ghost predicate HandlerAt(h: HandlerTask, i: int, l: Lists)
    reads h`v1, h`v2
  {
    IsHead(h.v1, At(l, Works(i))) && IsHead(h.v2, At(l, Parts(i)))
  }

  ghost predicate DeviceAt(d: DeviceTask, i: int, l: Lists)
    reads d`v1
  {
    |At(l, Slot(i))| <= 1 && IsHead(d.v1, At(l, Slot(i)))
  }

  /** The links of the packets run through the queues and the lists of the handlers. */
  ghost predicate Links(all: seq<Packet>, l: Lists)
    reads (set p | p in all)`link
  {
    && (forall a: Place, k: int {:trigger At(l, a)[k] in all} :: !a.Hand? && !a.Slot? && 0 <= k < |At(l, a)| ==>
          At(l, a)[k] in all)
    && (forall a: Place, k: int {:trigger At(l, a)[k].link} :: !a.Hand? && !a.Slot? && 0 <= k < |At(l, a)| ==>
          At(l, a)[k].link == Next(At(l, a), k))
  }

  ghost predicate Data(all: seq<Packet>, info: map<Packet, Info>)
    reads (set p | p in all)`id, (set p | p in all)`a1, (set p | p in all)`a2
  {
    forall p {:trigger info[p]} {:trigger p in info} :: p in all ==>
      p in info && info[p] == Info(p.id, p.a1, p.a2) && |p.a2| == DATA_SIZE
  }

  class Scheduler {
    var queueCount: int
    var holdCount: int
    var blocks: seq<TaskControlBlock>
    var list: TaskControlBlock?
    var currentTcb: TaskControlBlock?
    var currentId: int

    constructor ()
      ensures queueCount == 0 && holdCount == 0 && blocks == [] && list == null && currentTcb == null
    {
      queueCount, holdCount, blocks, list, currentTcb, currentId := 0, 0, [], null, null, -1;
    }
  }

  /** The same by number. */
  lemma {:induction false} BlockIs(b: seq<TaskControlBlock>, i: int)
    requires Wired(b) && 0 <= i < NUMBER_OF_IDS
    ensures b[i].id == i && b[i].link == if i > 0 then b[i - 1] else null
  {}

  lemma {:induction false} PriorityOrder(b: seq<TaskControlBlock>, i: int, j: int)
    requires Wired(b) && 0 <= i < NUMBER_OF_IDS && 0 <= j < NUMBER_OF_IDS
    ensures b[i].priority > b[j].priority <==> i > j
  {}

  lemma {:induction false} StateOf(b: seq<TaskControlBlock>, state: seq<State>, i: int)
    requires States(b, state) && 0 <= i < NUMBER_OF_IDS
    ensures b[i].state == state[i]
  {}

  lemma {:induction false} HeadOf(b: seq<TaskControlBlock>, l: Lists, i: int)
    requires Queues(b, l) && 0 <= i < NUMBER_OF_IDS
    ensures IsHead(b[i].queue, At(l, Queue(i)))
  {}

  // ----- State words and queues -----

  /** Taking a packet leaves all other links as they are. */
  lemma {:induction false} TakenLinks(all: seq<Packet>, l: Lists, a: Place, p: Packet, t: seq<Packet>, l': Lists)
    requires Links(all, l) && Taken(l, a, p, t, l')
    ensures Links(all, l')
  {
    forall b: Place, k: int | !b.Hand? && !b.Slot? && 0 <= k < |At(l', b)|
      ensures At(l', b)[k] in all && At(l', b)[k].link == Next(At(l', b), k)
    {
      if b == a {
        assert At(l, a)[k + 1] == t[k] && At(l, a)[k + 1].link == Next(At(l, a), k + 1);
      } else {
        assert At(l, b)[k].link == Next(At(l, b), k);
      }
    }
  }

  lemma {:induction false} ListOf(all: seq<Packet>, w: Where, l: Lists, a: Place, p: Packet)
    requires Links(all, l) && Located(l, w) && Once(l) && !a.Slot? && a != Hand && At(l, Hand) == [p]
    ensures Linked(At(l, a)) && NoDuplicates(At(l, a)) && p !in At(l, a)
    ensures forall q :: q in At(l, a) ==> q in all && q in w && w[q] == a
  {
    assert At(l, Hand)[0] in w && w[p] == Hand;
    forall k | 0 <= k < |At(l, a)|
      ensures At(l, a)[k] in all && At(l, a)[k] in w && w[At(l, a)[k]] == a && At(l, a)[k].link == Next(At(l, a), k)
    {}
    assert NoDuplicates(At(l, a));
  }

  /** Only links of packets in the list and of the packet itself have changed. */
  lemma {:induction false} AppendedLinks(p: Packet, a: Place, s: seq<Packet>, all: seq<Packet>, w: Where,
                                         l: Lists, l': Lists, before: map<Packet, Packet?>)
    requires forall b: Place, k: int {:trigger before[At(l, b)[k]]} :: !b.Hand? && !b.Slot? && 0 <= k < |At(l, b)| ==>
      At(l, b)[k] in before && before[At(l, b)[k]] == Next(At(l, b), k)
    requires forall b: Place, k: int :: !b.Hand? && !b.Slot? && 0 <= k < |At(l, b)| ==>
        At(l, b)[k] in all && At(l, b)[k] in before
    requires Located(l, w) && Added(l, a, p, l') && !a.Slot? && p in all && s == At(l, a) && Linked(s + [p])
    requires forall q :: q in before && q != p && q !in s ==> q.link == before[q]
    ensures Links(all, l')
  {
    assert At(l, Hand)[0] == p;
    forall b: Place, k: int | !b.Hand? && !b.Slot? && 0 <= k < |At(l', b)|
      ensures At(l', b)[k] in all && At(l', b)[k].link == Next(At(l', b), k)
    {
      var q := At(l', b)[k];
      if b == a {
        assert q == (s + [p])[k] && (s + [p])[k].link == Next(s + [p], k);
      } else {
        assert q == At(l, b)[k] && w[q] == b && before[At(l, b)[k]] == Next(At(l, b), k);
        assert q !in s;
      }
    }
  }

  /** The first packet of an empty list. */
  lemma {:induction false} FirstLinks(p: Packet, a: Place, all: seq<Packet>, l: Lists, l': Lists)
    requires Links(all, l) && Added(l, a, p, l') && At(l, a) == [] && p in all && p.link == null
    ensures Links(all, l')
  {
    forall b: Place, k: int | !b.Hand? && !b.Slot? && 0 <= k < |At(l', b)|
      ensures At(l', b)[k] in all && At(l', b)[k].link == Next(At(l', b), k)
    {
      if b == a { assert At(l', a) == [p]; } else { assert At(l, b)[k].link == Next(At(l, b), k); }
    }
  }

  // ----- The scheduler -----

  ghost predicate Handlers(b: seq<TaskControlBlock>, l: Lists)
    requires Wired(b)
    reads {b[2].task.handler, b[3].task.handler}`v1, {b[2].task.handler, b[3].task.handler}`v2
  {
    HandlerAt(b[2].task.handler, 2, l) && HandlerAt(b[3].task.handler, 3, l)
  }

  ghost predicate Devices(b: seq<TaskControlBlock>, l: Lists)
    requires Wired(b)
    reads {b[4].task.device, b[5].task.device}`v1
  {
    DeviceAt(b[4].task.device, 4, l) && DeviceAt(b[5].task.device, 5, l)
  }

  ghost predicate Seeds(b: seq<TaskControlBlock>, count: int, seed: nat, toHandler: int, letter: int)
    requires Wired(b)
    reads {b[0].task.idle}`v1, {b[0].task.idle}`count, {b[1].task.worker}`v1, {b[1].task.worker}`v2
  {
    && b[0].task.idle.v1 == seed && b[0].task.idle.count == count
    && b[1].task.worker.v1 == toHandler && b[1].task.worker.v2 == letter
  }

  /** The objects stand for the state g. */
  ghost predicate Stands(s: Scheduler, g: System)
    reads *
  {
    && Wired(s.blocks) && s.list == s.blocks[5]
    && States(s.blocks, g.state) && Queues(s.blocks, g.lists)
    && Handlers(s.blocks, g.lists) && Devices(s.blocks, g.lists)
    && Seeds(s.blocks, g.count, g.seed, g.toHandler, g.letter)
    && Links(g.all, g.lists) && Data(g.all, g.info) && Listed(g.all, g.where) && Counters(s, g)
  }

  /** How often a packet was queued and a task held. */
  ghost predicate Counters(s: Scheduler, g: System)
    reads s`queueCount, s`holdCount
  {
    s.queueCount == g.queued && s.holdCount == g.holds
  }

  lemma {:induction false} OpenStands(s: Scheduler, g: System)
    requires Stands(s, g)
    ensures Wired(s.blocks) && |s.blocks| == NUMBER_OF_IDS && s.list == s.blocks[5]
    ensures s.blocks[0].task.Idle? && s.blocks[1].task.Worker? && s.blocks[2].task.Handler? && s.blocks[3].task.Handler?
    ensures s.blocks[4].task.Device? && s.blocks[5].task.Device?
    ensures States(s.blocks, g.state) && Queues(s.blocks, g.lists) && Handlers(s.blocks, g.lists)
    ensures Devices(s.blocks, g.lists)
    ensures Seeds(s.blocks, g.count, g.seed, g.toHandler, g.letter)
    ensures Links(g.all, g.lists) && Data(g.all, g.info) && Listed(g.all, g.where) && Counters(s, g)
  {}

  lemma CountersOf(s: Scheduler, g: System)
    requires Stands(s, g)
    ensures s.queueCount == g.queued && s.holdCount == g.holds
  {}

  lemma {:induction false} CloseStands(s: Scheduler, g: System)
    requires Wired(s.blocks) && |s.blocks| == NUMBER_OF_IDS && s.list == s.blocks[5]
    requires States(s.blocks, g.state) && Queues(s.blocks, g.lists) && Handlers(s.blocks, g.lists)
    requires Devices(s.blocks, g.lists)
    requires Seeds(s.blocks, g.count, g.seed, g.toHandler, g.letter)
    requires Links(g.all, g.lists) && Data(g.all, g.info) && Listed(g.all, g.where) && Counters(s, g)
    ensures Stands(s, g)
  {}

  /** Task i is the one that is running. */
  ghost predicate Running(s: Scheduler, i: int)
    reads s
  {
    0 <= i < |s.blocks| && s.currentTcb == s.blocks[i] && s.currentId == i
  }

  /** The block of a task, null for -1. */
  ghost function BlockOf(b: seq<TaskControlBlock>, n: int): TaskControlBlock? {
    if 0 <= n < |b| then b[n] else null
  }

  // ----- Queueing a packet -----

  lemma {:induction false} OtherPlaces(b: seq<TaskControlBlock>, l: Lists, i: int, p: Packet, l': Lists)
    requires Wired(b) && Handlers(b, l) && Devices(b, l) && Added(l, Queue(i), p, l')
    ensures Handlers(b, l') && Devices(b, l')
  {}

  lemma {:induction false} AddressOf(s: Scheduler, p: Packet, g: System, to: int, i: int, h: System)
    requires Stands(s, g) && Running(s, i) && Sends(g, i, p, to, h) && p in g.all
    ensures p.id == to && 0 <= to < NUMBER_OF_IDS && 0 <= i < NUMBER_OF_IDS && s.currentTcb == s.blocks[i]
    ensures s.currentId == i
    ensures h.all == g.all && h.count == g.count && h.seed == g.seed && h.toHandler == g.toHandler
    ensures h.letter == g.letter && h.queued == g.queued + 1 && h.holds == g.holds
    ensures Added(g.lists, Queue(to), p, h.lists)
  {}

  lemma {:induction false} SendListed(g: System, i: int, p: Packet, to: int, h: System)
    requires Listed(g.all, g.where) && Sends(g, i, p, to, h) && p in g.all
    ensures Listed(h.all, h.where)
  {}

  // ----- Starting a task -----

  /** The packet at hand, null if there is none. */
  ghost function HandPacket(g: System): Packet? {
    if In(g, Hand) == [] then null else In(g, Hand)[0]
  }

  lemma {:induction false} DequeuedParts(b: seq<TaskControlBlock>, all: seq<Packet>, i: int, p: Packet, l: Lists,
                                         l': Lists)
    requires Wired(b) && Handlers(b, l) && Devices(b, l) && Links(all, l)
    requires At(l, Queue(i)) != [] && Taken(l, Queue(i), p, At(l, Queue(i))[1..], l')
    ensures Handlers(b, l') && Devices(b, l') && Links(all, l')
  {
    TakenLinks(all, l, Queue(i), p, At(l, Queue(i))[1..], l');
  }

  lemma {:induction false} TakenFacts(g: System, i: int, k: System, h: System)
    requires In(g, Queue(i)) != [] && Takes(g, Queue(i), In(g, Queue(i))[0], k) && k.seed == g.seed
    requires 0 <= i < |g.state|
    requires h == SetState(k, i, if |In(g, Queue(i))| == 1 then STATE_RUNNING else STATE_RUNNABLE)
    requires Listed(g.all, g.where) && Located(g.lists, g.where)
    ensures Taken(g.lists, Queue(i), At(g.lists, Queue(i))[0], At(g.lists, Queue(i))[1..], h.lists)
    ensures At(g.lists, Queue(i)) != []
    ensures h.info == g.info && h.all == g.all && h.count == g.count && h.seed == g.seed
    ensures h.toHandler == g.toHandler && h.letter == g.letter && h.queued == g.queued && h.holds == g.holds
    ensures Listed(h.all, h.where)
    ensures h.state == g.state[i := if |In(g, Queue(i))| == 1 then STATE_RUNNING else STATE_RUNNABLE]
    ensures In(g, Queue(i)) == At(g.lists, Queue(i))
  {
    assert At(g.lists, Queue(i))[0] in g.where;
  }

  lemma {:induction false} TakenHead(b: seq<TaskControlBlock>, i: int, g: System, h: System)
    requires Queues(b, h.lists) && 0 <= i < NUMBER_OF_IDS
    requires At(g.lists, Queue(i)) != [] && At(h.lists, Queue(i)) == At(g.lists, Queue(i))[1..]
    ensures b[i].queue == null <==> |In(g, Queue(i))| == 1
  {
    HeadOf(b, h.lists, i);
  }

  // ----- The worker -----

  lemma {:induction false} NextLetter(v: int, i: nat)
    requires 0 <= v <= 26
    ensures var u := if i == 0 then v else Letter(v, i - 1);
      0 <= u <= 26 && Letter(v, i) == if u + 1 > 26 then 1 else u + 1
  {}

  lemma {:induction false} WorkerHand(s: Scheduler, g: System, p: Packet)
    requires Stands(s, g) && Started(g, ID_WORKER) && HandPacket(g) == p
    ensures In(g, Hand) == [p] && p in g.all && 0 <= g.letter <= 26 && Located(g.lists, g.where) && Once(g.lists)
    ensures Sendable(Filled(g))
  {
    WorkerPacket(g);
    InAll(g, Hand, p);
  }

  lemma {:induction false} InAll(g: System, a: Place, p: Packet)
    requires Located(g.lists, g.where) && Listed(g.all, g.where) && In(g, a) != [] && In(g, a)[0] == p
    ensures p in g.all && p in g.where && g.where[p] == a
  {
    assert At(g.lists, a)[0] in g.where && g.where[At(g.lists, a)[0]] == a;
  }

  // ----- The devices -----

  /** Only place a has changed, and what is at hand. */
  ghost predicate OnlyAt(l: Lists, a: Place, l': Lists) {
    forall b {:trigger At(l', b)} :: b != a && b != Hand ==> At(l', b) == At(l, b)
  }

  lemma {:induction false} SlotChanged(b: seq<TaskControlBlock>, all: seq<Packet>, i: int, l: Lists, l': Lists)
    requires Wired(b) && Queues(b, l) && Handlers(b, l) && Links(all, l) && OnlyAt(l, Slot(i), l')
    ensures Queues(b, l') && Handlers(b, l') && Links(all, l')
  {
    forall a: Place, k: int | !a.Hand? && !a.Slot? && 0 <= k < |At(l', a)|
      ensures At(l', a)[k] in all && At(l', a)[k].link == Next(At(l', a), k)
    {
      assert At(l, a)[k] in all && At(l, a)[k].link == Next(At(l, a), k);
    }
  }

  lemma {:induction false} PutSlot(g: System, i: int, p: Packet)
    requires Located(g.lists, g.where) && Listed(g.all, g.where) && In(g, Hand) == [p] && In(g, Slot(i)) == []
    ensures var h := Put(g, Slot(i));
      && OnlyAt(g.lists, Slot(i), h.lists) && At(h.lists, Slot(i)) == [p] && Listed(h.all, h.where)
      && h == g.(lists := h.lists, where := h.where)
  {
    InAll(g, Hand, p);
  }

  lemma {:induction false} TakeSlot(g: System, i: int, p: Packet)
    requires Located(g.lists, g.where) && Listed(g.all, g.where) && In(g, Slot(i)) == [p]
    ensures var h := Take(g, Slot(i));
      && OnlyAt(g.lists, Slot(i), h.lists) && At(h.lists, Slot(i)) == [] && Listed(h.all, h.where) && In(h, Hand) == [p]
      && h == g.(lists := h.lists, where := h.where) && p in g.all
  {
    InAll(g, Slot(i), p);
  }

  lemma {:induction false} SlotOf(s: Scheduler, g: System, d: DeviceTask, i: int)
    requires Stands(s, g) && Started(g, i) && IsDevice(i) && d == s.blocks[i].task.device
    ensures IsHead(d.v1, In(g, Slot(i))) && |In(g, Slot(i))| <= 1 && |In(g, Hand)| <= 1
    ensures In(g, Hand) != [] ==> In(g, Slot(i)) == []
    ensures Located(g.lists, g.where) && Once(g.lists) && Listed(g.all, g.where)
  {}

  lemma {:induction false} StillPlaced(g: System, a: Place)
    requires Located(g.lists, g.where) && Once(g.lists) && In(g, a) != [] && a != Hand && In(g, Hand) == []
    ensures var h := Take(g, a); Located(h.lists, h.where) && Once(h.lists)
  {
    var p, h := In(g, a)[0], Take(g, a);
    TakeIs(g, a);
    TakenLocated(g.lists, g.where, a, p, In(g, a)[1..], h.lists);
    TakenOnce(g.lists, a, p, In(g, a)[1..], h.lists);
  }

  // ----- The handlers -----

  predicate ListPlace(a: Place, i: int) {
    a == Works(i) || a == Parts(i)
  }

  lemma {:induction false} ListChanged(b: seq<TaskControlBlock>, i: int, a: Place, l: Lists, l': Lists)
    requires Wired(b) && Queues(b, l) && Devices(b, l) && ListPlace(a, i) && OnlyAt(l, a, l')
    ensures Queues(b, l') && Devices(b, l')
  {}

  lemma {:induction false} JoinFacts(b: seq<TaskControlBlock>, h: HandlerTask, i: int, a: Place, g: System, p: Packet,
                                     k: System)
    requires Wired(b) && Handlers(b, g.lists) && Queues(b, g.lists) && Devices(b, g.lists) && Links(g.all, g.lists)
    requires Listed(g.all, g.where) && Located(g.lists, g.where) && Once(g.lists)
    requires IsHandler(i) && h == b[i].task.handler && Puts(g, a, p, k) && p in g.all && k.all == g.all
    requires a == if p.kind == KIND_WORK then Works(i) else Parts(i)
    ensures IsHead(if p.kind == KIND_WORK then h.v1 else h.v2, At(g.lists, a)) && Added(g.lists, a, p, k.lists)
    ensures OnlyAt(g.lists, a, k.lists) && Queues(b, k.lists) && Devices(b, k.lists) && Listed(k.all, k.where)
    ensures At(g.lists, a) != [] ==> At(g.lists, a)[|At(g.lists, a)| - 1] in g.all
  {
    ListChanged(b, i, a, g.lists, k.lists);
    if At(g.lists, a) != [] { assert At(g.lists, a)[|At(g.lists, a)| - 1] in g.all; }
  }

  lemma {:induction false} LeaveFacts(b: seq<TaskControlBlock>, h: HandlerTask, i: int, a: Place, works: bool,
                                      g: System)
    requires Wired(b) && Handlers(b, g.lists) && Queues(b, g.lists) && Devices(b, g.lists) && Links(g.all, g.lists)
    requires Listed(g.all, g.where) && Located(g.lists, g.where) && In(g, Hand) == []
    requires IsHandler(i) && h == b[i].task.handler && In(g, a) != [] && a == if works then Works(i) else Parts(i)
    ensures (if works then h.v1 else h.v2) == In(g, a)[0] && IsHead(In(g, a)[0].link, At(Take(g, a).lists, a))
    ensures var k := Take(g, a);
      && OnlyAt(g.lists, a, k.lists) && Queues(b, k.lists) && Devices(b, k.lists)
      && Listed(k.all, k.where) && Links(k.all, k.lists)
  {
    var p, k := In(g, a)[0], Take(g, a);
    TakeIs(g, a);
    InAll(g, a, p);
    ListChanged(b, i, a, g.lists, k.lists);
    TakenLinks(g.all, g.lists, a, p, In(g, a)[1..], k.lists);
    assert At(g.lists, a)[0].link == Next(At(g.lists, a), 0);
  }

  lemma {:induction false} HandFacts(s: Scheduler, g: System, i: int, p: Packet)
    requires Stands(s, g) && Started(g, i) && HandPacket(g) == p
    ensures In(g, Hand) == [p] && p in g.all && Located(g.lists, g.where) && Once(g.lists)
  {
    InAll(g, Hand, p);
  }

  lemma {:induction false} LetterFacts(s: Scheduler, g: System, i: int, w: Packet)
    requires Stands(s, g) && Located(g.lists, g.where) && Copyable(g, i) && w == In(g, Works(i))[0]
    ensures w in g.all && In(g, Parts(i))[0] in g.all && w.a1 == g.info[w].a1 && 0 <= w.a1
  {
    InAll(g, Works(i), w);
    InAll(g, Parts(i), In(g, Parts(i))[0]);
  }

  lemma {:induction false} ListsOf(s: Scheduler, h: HandlerTask, g: System, i: int)
    requires Stands(s, g) && Invariant(g) && IsHandler(i) && h == s.blocks[i].task.handler
    ensures IsHead(h.v1, In(g, Works(i))) && IsHead(h.v2, In(g, Parts(i)))
    ensures h.v1 != null ==> h.v1 in g.info && g.info[h.v1].a1 == h.v1.a1
    ensures Located(g.lists, g.where) && Once(g.lists) && Listed(g.all, g.where)
  {
    if h.v1 != null { InAll(g, Works(i), h.v1); }
  }

  lemma {:induction false} HeadInAll(s: Scheduler, g: System, a: Place)
    requires Stands(s, g) && Located(g.lists, g.where) && In(g, a) != []
    ensures In(g, a)[0] in g.all
  {
    InAll(g, a, In(g, a)[0]);
  }

  // ----- The idle task -----

  lemma {:induction false} IdleOf(s: Scheduler, d: IdleTask, g: System)
    requires Stands(s, g) && d == s.blocks[0].task.idle
    ensures d.v1 == g.seed && d.count == g.count
  {}

  // ----- The loop -----

  /** The objects a run may change, besides the scheduler. */
  ghost function TaskObjects(b: seq<TaskControlBlock>): set<object>
    requires Wired(b)
  {
    {b[0].task.idle, b[1].task.worker, b[2].task.handler, b[3].task.handler, b[4].task.device, b[5].task.device}
  }

  lemma {:induction false} TaskKinds(b: seq<TaskControlBlock>, i: int)
    requires Wired(b) && 0 <= i < NUMBER_OF_IDS
    ensures b[i].task.Idle? <==> i == ID_IDLE
    ensures b[i].task.Worker? <==> i == ID_WORKER
    ensures b[i].task.Handler? <==> IsHandler(i)
    ensures b[i].task.Device? <==> IsDevice(i)
  {}

  lemma {:induction false} StartFacts(g: System, i: int)
    requires CanRun(g, i)
    ensures |g.state| == NUMBER_OF_IDS && 0 <= i < NUMBER_OF_IDS
    ensures g.state[i] == STATE_SUSPENDED_RUNNABLE ==> In(g, Queue(i)) != []
    ensures Started(Begin(g, i), i) && Ready(Begin(g, i), i) && Begin(g, i).all == g.all
    ensures i == ID_IDLE ==> Begin(g, i) == g
  {
    BeginStarts(g, i);
    StepReady(g, i);
  }

  lemma {:induction false} LoopFacts(s: Scheduler, g: System, cur: int)
    requires Stands(s, g) && Turn(g, cur) && 0 <= cur
    ensures cur < |s.blocks| == NUMBER_OF_IDS && |g.state| == NUMBER_OF_IDS && Wired(s.blocks)
    ensures s.blocks[cur].state == g.state[cur] && s.blocks[cur].link == BlockOf(s.blocks, cur - 1)
    ensures s.blocks[cur].id == cur
    ensures HeldOrSuspended(g.state[cur]) ==> Turn(g, cur - 1) && Run(g, cur) == Run(g, cur - 1)
    ensures !HeldOrSuspended(g.state[cur]) ==> CanRun(g, cur)
  {
    BlockIs(s.blocks, cur);
    StateOf(s.blocks, g.state, cur);
  }

  lemma {:induction false} TurnFacts(g: System, cur: int)
    requires Turn(g, cur) && 0 <= cur && !HeldOrSuspended(g.state[cur])
    ensures CanRun(g, cur) && |g.state| == NUMBER_OF_IDS
    ensures var (h, n) := Step(g, cur);
      && Turn(h, n) && h.all == g.all && Run(h, n) == Run(g, cur) && -1 <= n < NUMBER_OF_IDS
      && |h.state| == NUMBER_OF_IDS && 0 <= h.count <= g.count && (h.count == g.count ==> Measure(h) < Measure(g))
  {
    NextTurn(g, cur);
  }

  lemma {:induction false} HeldCount(g: System, cur: int)
    requires Turn(g, cur)
    ensures g.count >= 0 && cur < NUMBER_OF_IDS
  {}

  lemma {:induction false} RunIsOver(g: System, cur: int)
    requires Turn(g, cur)
    ensures cur == -1 ==> Run(g, cur) == g
  {}

  lemma {:induction false} ScheduleFacts(s: Scheduler, g: System)
    requires Stands(s, g) && Turn(g, NUMBER_OF_IDS - 1)
    ensures s.list == BlockOf(s.blocks, NUMBER_OF_IDS - 1) && |s.blocks| == NUMBER_OF_IDS
    ensures |g.state| == NUMBER_OF_IDS
  {}
}
