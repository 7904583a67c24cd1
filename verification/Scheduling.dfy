/** The scheduler and the tasks at work on their objects, refining the state machine. */
module Scheduling {
  import opened Packets
  import opened TaskSystem
  import opened TaskInvariants
  import opened TaskRuns
  import opened TaskTermination
  import opened SchedulerState

  // ----- State words and queues -----

  /** The state of block t, which is block i, changes. */
  method SetStateOf(t: TaskControlBlock, s: State, ghost b: seq<TaskControlBlock>, ghost i: int,
                    ghost state: seq<State>)
    requires Wired(b) && States(b, state) && 0 <= i < NUMBER_OF_IDS && t == b[i]
    modifies t`state
    ensures States(b, state[i := s])
  {
    t.state := s;
  }

  /** The queue of block t, which is block i, changes; all other queues stay. */
  method SetQueueOf(t: TaskControlBlock, head: Packet?, ghost b: seq<TaskControlBlock>, ghost i: int, ghost l: Lists,
                    ghost l': Lists)
    requires Wired(b) && Queues(b, l) && 0 <= i < NUMBER_OF_IDS && t == b[i] && IsHead(head, At(l', Queue(i)))
    requires forall j :: 0 <= j < NUMBER_OF_IDS && j != i ==> At(l', Queue(j)) == At(l, Queue(j))
    modifies t`queue
    ensures Queues(b, l')
  {
    t.queue := head;
  }

  /** The first packet of a queue; the rest stays. */
  method Dequeue(t: TaskControlBlock, ghost b: seq<TaskControlBlock>, ghost i: int, ghost all: seq<Packet>,
                 ghost l: Lists, ghost l': Lists)
    returns (p: Packet)
    requires Wired(b) && Queues(b, l) && Links(all, l) && 0 <= i < NUMBER_OF_IDS && t == b[i] && At(l, Queue(i)) != []
    requires Taken(l, Queue(i), At(l, Queue(i))[0], At(l, Queue(i))[1..], l')
    modifies t`queue
    ensures p == At(l, Queue(i))[0] && Queues(b, l')
  {
    HeadOf(b, l, i);
    p := t.queue;
    assert p == At(l, Queue(i))[0] && p.link == Next(At(l, Queue(i)), 0);
    SetQueueOf(t, p.link, b, i, l, l');
  }

  /** Add the packet at hand to the list s of a place. */
  method Append(p: Packet, queue: Packet?, ghost a: Place, ghost s: seq<Packet>,
                ghost all: seq<Packet>, ghost w: Where, ghost l: Lists, ghost l': Lists)
    returns (head: Packet)
    requires Links(all, l) && Located(l, w) && Once(l) && Added(l, a, p, l') && !a.Slot? && p in all
    requires s == At(l, a) && IsHead(queue, s)
    modifies p`link, (if s == [] then {} else {s[|s| - 1]})`link
    ensures IsHead(head, At(l', a)) && Links(all, l')
  {
    assert Linked(s) && NoDuplicates(s) && p !in s by { ListOf(all, w, l, a, p); }
    ghost var before := map q | q in all :: q.link;
    forall b: Place, k: int | !b.Hand? && !b.Slot? && 0 <= k < |At(l, b)|
      ensures At(l, b)[k] in all && At(l, b)[k] in before && before[At(l, b)[k]] == Next(At(l, b), k)
    {
      assert At(l, b)[k].link == Next(At(l, b), k);
    }
    head := AddTo(p, queue, s);
    AppendedLinks(p, a, s, all, w, l, l', before);
  }

  /** The queue of block t was empty: it becomes runnable. */
  method QueueFirst(t: TaskControlBlock, p: Packet, ghost b: seq<TaskControlBlock>, ghost to: int,
                    ghost state: seq<State>, ghost l: Lists, ghost l': Lists)
    requires Wired(b) && 0 <= to < NUMBER_OF_IDS && t == b[to] && States(b, state) && Queues(b, l)
    requires At(l', Queue(to)) == [p]
    requires forall j :: 0 <= j < NUMBER_OF_IDS && j != to ==> At(l', Queue(j)) == At(l, Queue(j))
    modifies t`queue, t`state
    ensures Queues(b, l') && States(b, state[to := state[to].(runnable := true)])
  {
    StateOf(b, state, to);
    SetQueueOf(t, p, b, to, l, l');
    SetStateOf(t, t.state.(runnable := true), b, to, state);
  }

  method QueueOnly(t: TaskControlBlock, p: Packet, ghost b: seq<TaskControlBlock>, ghost to: int,
                   ghost state: seq<State>, ghost all: seq<Packet>, ghost l: Lists, ghost l': Lists)
    requires Wired(b) && 0 <= to < NUMBER_OF_IDS && t == b[to] && States(b, state) && Queues(b, l) && Links(all, l)
    requires At(l, Queue(to)) == [] && Added(l, Queue(to), p, l') && p in all && p.link == null
    modifies t`queue, t`state
    ensures Queues(b, l') && Links(all, l') && States(b, state[to := state[to].(runnable := true)])
  {
    assert Links(all, l') by { FirstLinks(p, Queue(to), all, l, l'); }
    assert At(l', Queue(to)) == [p];
    QueueFirst(t, p, b, to, state, l, l');
  }

  /** The queue of block t was not empty: its state does not change. */
  method QueueNext(t: TaskControlBlock, p: Packet, ghost b: seq<TaskControlBlock>, ghost to: int, ghost s: seq<Packet>,
                   ghost all: seq<Packet>, ghost w: Where, ghost l: Lists, ghost l': Lists)
    requires Wired(b) && 0 <= to < NUMBER_OF_IDS && t == b[to] && Queues(b, l) && Links(all, l) && Located(l, w)
    requires Once(l)
    requires s == At(l, Queue(to)) && s != [] && Added(l, Queue(to), p, l') && p in all
    modifies t`queue, p`link, (if s == [] then {} else {s[|s| - 1]})`link
    ensures Queues(b, l') && Links(all, l')
  {
    HeadOf(b, l, to);
    var head := Append(p, t.queue, Queue(to), s, all, w, l, l');
    SetQueueOf(t, head, b, to, l, l');
  }

  /** Add a packet to the queue of block t; the higher of t, if it was idle, and the sender runs next. */
  method CheckPriorityAdd(t: TaskControlBlock, task: TaskControlBlock, p: Packet, ghost b: seq<TaskControlBlock>,
                          ghost to: int, ghost i: int, ghost state: seq<State>, ghost all: seq<Packet>,
                          ghost w: Where, ghost l: Lists, ghost l': Lists)
    returns (next: TaskControlBlock)
    requires Wired(b) && 0 <= to < NUMBER_OF_IDS && 0 <= i < NUMBER_OF_IDS && t == b[to] && task == b[i]
    requires States(b, state) && Queues(b, l) && Links(all, l) && Located(l, w) && Once(l)
    requires Added(l, Queue(to), p, l') && p in all && p.link == null
    modifies t`queue, t`state, (set q | q in all)`link
    ensures Queues(b, l') && Links(all, l')
    ensures States(b, state[to := if At(l, Queue(to)) == [] then state[to].(runnable := true) else state[to]])
    ensures next == if At(l, Queue(to)) == [] && to > i then t else task
  {
    ghost var s := At(l, Queue(to));
    HeadOf(b, l, to);
    PriorityOrder(b, to, i);
    if t.queue == null {
      QueueOnly(t, p, b, to, state, all, l, l');
      if t.priority > task.priority { return t; }
    } else {
      assert s[|s| - 1] in all by { ListOf(all, w, l, Queue(to), p); }
      QueueNext(t, p, b, to, s, all, w, l, l');
      assert state[to := state[to]] == state;
    }
    next := task;
  }

  // ----- The scheduler -----

  /** Suspend the current task. */
  method SuspendCurrent(s: Scheduler, t: TaskControlBlock, ghost i: int, ghost g: System)
    returns (next: TaskControlBlock?)
    requires Stands(s, g) && Running(s, i) && t == s.currentTcb
    modifies t`state
    ensures Stands(s, Suspend(g, i).0) && next == BlockOf(s.blocks, i)
  {
    StateOf(s.blocks, g.state, i);
    SetStateOf(t, t.state.(suspended := true), s.blocks, i, g.state);
    next := t;
  }

  /** Hold the current task and go on with the next one down the list. */
  method HoldCurrent(s: Scheduler, t: TaskControlBlock, ghost i: int, ghost g: System) returns (next: TaskControlBlock?)
    requires Stands(s, g) && Running(s, i) && t == s.currentTcb
    modifies t`state, s`holdCount
    ensures Stands(s, TaskSystem.HoldCurrent(g, i).0) && next == BlockOf(s.blocks, i - 1)
    ensures s.holdCount == old(s.holdCount) + 1
  {
    hide Links, Data, Queues, States, Handlers, Devices, Seeds, Listed;
    s.holdCount := s.holdCount + 1;
    StateOf(s.blocks, g.state, i);
    SetStateOf(t, t.state.(held := true), s.blocks, i, g.state);
    BlockIs(s.blocks, i);
    next := t.link;
  }

  /** Release a task; it goes on if its priority is higher. */
  method Release(s: Scheduler, id: int, ghost i: int, ghost g: System) returns (next: TaskControlBlock?)
    requires Stands(s, g) && Running(s, i) && 0 <= id < NUMBER_OF_IDS
    modifies (set t | t in s.blocks)`state
    ensures Stands(s, TaskSystem.Release(g, id, i).0) && next == BlockOf(s.blocks, TaskSystem.Release(g, id, i).1)
  {
    var tcb := s.blocks[id];
    StateOf(s.blocks, g.state, id);
    PriorityOrder(s.blocks, id, i);
    SetStateOf(tcb, tcb.state.(held := false), s.blocks, id, g.state);
    next := if tcb.priority > s.currentTcb.priority then tcb else s.currentTcb;
  }

  // ----- Queueing a packet -----

  /** The packet at hand is in no list, so its link and its data are free to change. */
  method Readdress(p: Packet, id: int, ghost all: seq<Packet>, ghost w: Where, ghost l: Lists,
                   ghost info: map<Packet, Info>)
    requires Links(all, l) && Located(l, w) && At(l, Hand) == [p] && p in all && p in info && Data(all, info)
    modifies p`link, p`id
    ensures Links(all, l) && p.link == null && Data(all, info[p := info[p].(id := id)])
  {
    assert At(l, Hand)[0] in w && w[p] == Hand;
    assert info[p].a1 == p.a1;
    p.link := null;
    p.id := id;
    forall q | q in all ensures info[p := info[p].(id := id)][q] == Info(q.id, q.a1, q.a2) && |q.a2| == DATA_SIZE {
      assert q in info;
    }
    forall a: Place, k: int | !a.Hand? && !a.Slot? && 0 <= k < |At(l, a)|
      ensures At(l, a)[k] in all && At(l, a)[k].link == Next(At(l, a), k)
    {
      assert w[At(l, a)[k]] == a;
      assert old(At(l, a)[k].link) == Next(At(l, a), k);
    }
  }

  /** The packet at hand, its destination being block t. */
  method Enqueue(s: Scheduler, p: Packet, t: TaskControlBlock, task: TaskControlBlock, ghost b: seq<TaskControlBlock>,
                 ghost to: int, ghost i: int, ghost g: System, ghost h: System)
    returns (next: TaskControlBlock)
    requires Wired(b) && 0 <= to < NUMBER_OF_IDS && 0 <= i < NUMBER_OF_IDS && t == b[to] && task == b[i]
    requires s.currentId == i
    requires States(b, g.state) && Queues(b, g.lists) && Links(g.all, g.lists) && Data(g.all, g.info)
    requires Located(g.lists, g.where) && Once(g.lists) && Sends(g, i, p, to, h) && p in g.all
    modifies t`queue, t`state, (set q | q in g.all)`link, p`id
    ensures States(b, h.state) && Queues(b, h.lists) && Links(h.all, h.lists) && Data(h.all, h.info)
    ensures next == if In(g, Queue(to)) == [] && to > i then t else task
  {
    hide Links, Data, Queues, Located, Once, States, Wired;
    Readdress(p, s.currentId, g.all, g.where, g.lists, g.info);
    next := CheckPriorityAdd(t, task, p, b, to, i, g.state, g.all, g.where, g.lists, h.lists);
  }

  /** The rest of the objects stays as it is. */
  method EnqueueBeside(s: Scheduler, p: Packet, t: TaskControlBlock, task: TaskControlBlock,
                       ghost b: seq<TaskControlBlock>,
                       ghost to: int, ghost i: int, ghost g: System, ghost h: System)
    returns (next: TaskControlBlock)
    requires Wired(b) && 0 <= to < NUMBER_OF_IDS && 0 <= i < NUMBER_OF_IDS && t == b[to] && task == b[i]
    requires s.currentId == i
    requires States(b, g.state) && Queues(b, g.lists) && Links(g.all, g.lists) && Data(g.all, g.info)
    requires Located(g.lists, g.where) && Once(g.lists) && Sends(g, i, p, to, h) && p in g.all
    requires Handlers(b, h.lists) && Devices(b, h.lists) && Seeds(b, h.count, h.seed, h.toHandler, h.letter)
    modifies t`queue, t`state, (set q | q in g.all)`link, p`id
    ensures States(b, h.state) && Queues(b, h.lists) && Links(h.all, h.lists) && Data(h.all, h.info)
    ensures Handlers(b, h.lists) && Devices(b, h.lists) && Seeds(b, h.count, h.seed, h.toHandler, h.letter)
    ensures next == if In(g, Queue(to)) == [] && to > i then t else task
  {
    hide Located, Once, States, Queues, Links, Data, Sends;
    next := Enqueue(s, p, t, task, b, to, i, g, h);
  }

  /** Queue the packet at hand to task to, giving the state h. */
  method QueueTo(s: Scheduler, p: Packet, task: TaskControlBlock, ghost b: seq<TaskControlBlock>,
                 ghost to: int, ghost i: int, ghost g: System, ghost h: System)
    returns (next: TaskControlBlock)
    requires Stands(s, g) && b == s.blocks && Running(s, i) && task == s.currentTcb
    requires Located(g.lists, g.where) && Once(g.lists) && Sends(g, i, p, to, h) && p in g.all
    modifies (set t | t in b)`state, (set t | t in b)`queue, (set q | q in g.all)`link, p`id, s`queueCount
    ensures Stands(s, h) && s.queueCount == old(s.queueCount) + 1
    ensures next == b[if In(g, Queue(to)) == [] && to > i then to else i]
  {
    hide *;
    OpenStands(s, g);
    AddressOf(s, p, g, to, i, h);
    OtherPlaces(b, g.lists, to, p, h.lists);
    SendListed(g, i, p, to, h);
    s.queueCount := s.queueCount + 1;
    var t := s.blocks[p.id];
    next := EnqueueBeside(s, p, t, task, b, to, i, g, h);
    CloseStands(s, h);
  }

  /** Queue the packet at hand to the task it names. */
  method QueuePacket(s: Scheduler, p: Packet, ghost i: int, ghost g: System) returns (next: TaskControlBlock?)
    requires Stands(s, g) && Running(s, i) && Located(g.lists, g.where) && Once(g.lists) && In(g, Hand) == [p]
    requires Sendable(g) && p in g.all
    modifies (set t | t in s.blocks)`state, (set t | t in s.blocks)`queue, (set q | q in g.all)`link, p`id, s`queueCount
    ensures Stands(s, Send(g, i).0) && next == BlockOf(s.blocks, Send(g, i).1)
    ensures s.queueCount == old(s.queueCount) + 1
  {
    SendIs(g, i);
    next := QueueTo(s, p, s.currentTcb, s.blocks, g.info[p].id, i, g, Send(g, i).0);
  }

  // ----- Starting a task -----

  /** Take the first packet of the running task. */
  method TakeFirst(s: Scheduler, t: TaskControlBlock, ghost b: seq<TaskControlBlock>, ghost i: int, ghost g: System,
                   ghost k: System, ghost h: System)
    returns (p: Packet)
    requires Stands(s, g) && b == s.blocks && 0 <= i < NUMBER_OF_IDS && t == b[i] && Located(g.lists, g.where)
    requires In(g, Queue(i)) != [] && Takes(g, Queue(i), In(g, Queue(i))[0], k) && k.seed == g.seed
    requires h == SetState(k, i, if |In(g, Queue(i))| == 1 then STATE_RUNNING else STATE_RUNNABLE)
    modifies t`queue, t`state
    ensures Stands(s, h) && p == In(g, Queue(i))[0]
  {
    hide Stands, States, Queues, Links, Data, Listed, Located, Takes, Taken;
    OpenStands(s, g);
    TakenFacts(g, i, k, h);
    DequeuedParts(b, g.all, i, In(g, Queue(i))[0], g.lists, h.lists);
    p := Dequeue(t, b, i, g.all, g.lists, h.lists);
    TakenHead(b, i, g, h);
    SetStateOf(t, if t.queue == null then STATE_RUNNING else STATE_RUNNABLE, b, i, g.state);
    CloseStands(s, h);
  }

  /** Before a task runs: a suspended task with packets takes the first of them. */
  method BeginRun(s: Scheduler, t: TaskControlBlock, ghost i: int, ghost g: System) returns (packet: Packet?)
    requires Stands(s, g) && CanRun(g, i) && i < |s.blocks| && t == s.blocks[i]
    modifies t`queue, t`state
    ensures Stands(s, Begin(g, i)) && packet == HandPacket(Begin(g, i))
  {
    hide Stands, States, Queues, Links, Data, Listed, Located, Once, Found, AllAllowed, Mirrored, SlotsFree;
    OpenStands(s, g);
    StateOf(s.blocks, g.state, i);
    if t.state == STATE_SUSPENDED_RUNNABLE {
      BeginStarts(g, i);
      TakeIs(g, Queue(i));
      packet := TakeFirst(s, t, s.blocks, i, g, Take(g, Queue(i)), Begin(g, i));
    } else {
      packet := null;
    }
  }

  // ----- The worker -----

  /** Fill a packet with the next letters and address it to the other handler. */
  method FillPacket(w: WorkerTask, p: Packet)
    requires |p.a2| == DATA_SIZE && 0 <= w.v2 <= 26
    modifies w, p`id, p`a1, p`a2
    ensures w.v1 == OtherHandler(old(w.v1)) && w.v2 == Letter(old(w.v2), 3)
    ensures p.id == w.v1 && p.a1 == 0 && p.a2 == Letters(old(w.v2))
  {
    ghost var v := w.v2;
    if w.v1 == ID_HANDLER_A { w.v1 := ID_HANDLER_B; } else { w.v1 := ID_HANDLER_A; }
    p.id := w.v1;
    p.a1 := 0;
    var i := 0;
    while i < DATA_SIZE
      modifies w`v2, p`a2
      invariant 0 <= i <= DATA_SIZE && |p.a2| == DATA_SIZE
      invariant w.v2 == if i == 0 then v else Letter(v, i - 1)
      invariant forall k :: 0 <= k < i ==> p.a2[k] == Letter(v, k)
    {
      w.v2 := w.v2 + 1;
      if w.v2 > 26 { w.v2 := 1; }
      NextLetter(v, i);
      p.a2 := p.a2[i := w.v2];
      i := i + 1;
    }
    assert p.a2 == Letters(v);
  }

  /** The same, seen from all packets. */
  method FillData(w: WorkerTask, p: Packet, ghost all: seq<Packet>, ghost info: map<Packet, Info>)
    requires Data(all, info) && p in all && 0 <= w.v2 <= 26
    modifies w, p`id, p`a1, p`a2
    ensures w.v1 == OtherHandler(old(w.v1)) && w.v2 == Letter(old(w.v2), 3)
    ensures Data(all, info[p := Info(OtherHandler(old(w.v1)), 0, Letters(old(w.v2)))])
  {
    assert p in info;
    FillPacket(w, p);
    ghost var info' := info[p := Info(p.id, p.a1, p.a2)];
    forall q | q in all ensures q in info' && info'[q] == Info(q.id, q.a1, q.a2) && |q.a2| == DATA_SIZE {
      assert q in info;
    }
  }

  /** The packet at hand is filled. */
  method FillAtHand(s: Scheduler, w: WorkerTask, p: Packet, ghost g: System)
    requires Stands(s, g) && w == s.blocks[1].task.worker && In(g, Hand) == [p] && p in g.all && 0 <= g.letter <= 26
    modifies w, p`id, p`a1, p`a2
    ensures Stands(s, Filled(g))
  {
    hide Stands, States, Queues, Links, Data, Listed;
    OpenStands(s, g);
    FillData(w, p, g.all, g.info);
    CloseStands(s, Filled(g));
  }

  method RunWorker(s: Scheduler, t: TaskControlBlock, w: WorkerTask, packet: Packet?, ghost g: System)
    returns (next: TaskControlBlock?)
    requires Stands(s, g) && Running(s, ID_WORKER) && t == s.currentTcb && w == s.blocks[1].task.worker
    requires Started(g, ID_WORKER) && packet == HandPacket(g)
    modifies w, (set t | t in s.blocks)`state, (set t | t in s.blocks)`queue, s`queueCount
    modifies (set q | q in g.all)`link, (set q | q in g.all)`id, (set q | q in g.all)`a1, (set q | q in g.all)`a2
    ensures Stands(s, WorkerRun(g).0) && next == BlockOf(s.blocks, WorkerRun(g).1)
  {
    hide Stands, States, Queues, Links, Data, Listed, Located;
    hide Once, Found, AllAllowed, Mirrored, SlotsFree, Consistent, Started;
    if packet == null {
      next := SuspendCurrent(s, t, ID_WORKER, g);
    } else {
      WorkerHand(s, g, packet);
      FillAtHand(s, w, packet, g);
      next := QueuePacket(s, packet, ID_WORKER, Filled(g));
    }
  }

  // ----- The devices -----

  /** The slot of one device changes. */
  method SetSlot(d: DeviceTask, v: Packet?, ghost b: seq<TaskControlBlock>, ghost i: int, ghost l: Lists,
                 ghost l': Lists)
    requires Wired(b) && Devices(b, l) && IsDevice(i) && d == b[i].task.device && OnlyAt(l, Slot(i), l')
    requires |At(l', Slot(i))| <= 1 && IsHead(v, At(l', Slot(i)))
    modifies d`v1
    ensures Devices(b, l')
  {
    d.v1 := v;
  }

  /** The packet at hand goes into the slot, or the packet of the slot comes to hand. */
  method MoveSlot(s: Scheduler, d: DeviceTask, v: Packet?, ghost i: int, ghost g: System, ghost h: System)
    requires Stands(s, g) && IsDevice(i) && d == s.blocks[i].task.device && OnlyAt(g.lists, Slot(i), h.lists)
    requires |At(h.lists, Slot(i))| <= 1 && IsHead(v, At(h.lists, Slot(i))) && Listed(h.all, h.where)
    requires h == g.(lists := h.lists, where := h.where)
    modifies d`v1
    ensures Stands(s, h)
  {
    hide Stands, States, Queues, Links, Data, Listed, OnlyAt;
    OpenStands(s, g);
    SlotChanged(s.blocks, g.all, i, g.lists, h.lists);
    SetSlot(d, v, s.blocks, i, g.lists, h.lists);
    CloseStands(s, h);
  }

  method RunDevice(s: Scheduler, t: TaskControlBlock, d: DeviceTask, packet: Packet?, ghost i: int, ghost g: System)
    returns (next: TaskControlBlock?)
    requires Stands(s, g) && Running(s, i) && IsDevice(i) && t == s.currentTcb && d == s.blocks[i].task.device
    requires Started(g, i) && Ready(g, i) && packet == HandPacket(g)
    modifies d`v1, (set t | t in s.blocks)`state, (set t | t in s.blocks)`queue, s`queueCount, s`holdCount
    modifies (set q | q in g.all)`link, (set q | q in g.all)`id
    ensures Stands(s, DeviceRun(g, i).0) && next == BlockOf(s.blocks, DeviceRun(g, i).1)
  {
    hide Stands, States, Queues, Links, Data, Listed, Located;
    hide Once, Found, AllAllowed, Mirrored, SlotsFree, Consistent, Started;
    SlotOf(s, g, d, i);
    if packet == null {
      if d.v1 == null { next := SuspendCurrent(s, t, i, g); return; }
      var v := d.v1;
      TakeSlot(g, i, v);
      MoveSlot(s, d, null, i, g, Take(g, Slot(i)));
      StillPlaced(g, Slot(i));
      next := QueuePacket(s, v, i, Take(g, Slot(i)));
    } else {
      PutSlot(g, i, packet);
      MoveSlot(s, d, packet, i, g, Put(g, Slot(i)));
      next := HoldCurrent(s, t, i, Put(g, Slot(i)));
    }
  }

  // ----- The handlers -----

  /** One list of one handler changes. */
  method SetListOf(h: HandlerTask, head: Packet?, works: bool, ghost b: seq<TaskControlBlock>, ghost i: int,
                   ghost l: Lists, ghost k: System)
    requires Wired(b) && Handlers(b, l) && IsHandler(i) && h == b[i].task.handler
    requires var a := if works then Works(i) else Parts(i); OnlyAt(l, a, k.lists) && IsHead(head, At(k.lists, a))
    requires Devices(b, k.lists) && Seeds(b, k.count, k.seed, k.toHandler, k.letter)
    modifies h`v1, h`v2
    ensures Handlers(b, k.lists) && Devices(b, k.lists) && Seeds(b, k.count, k.seed, k.toHandler, k.letter)
  {
    if works { h.v1 := head; } else { h.v2 := head; }
  }

  /** The packet at hand joins a list of the handler. */
  method Join(s: Scheduler, h: HandlerTask, p: Packet, ghost i: int, ghost a: Place, ghost g: System, ghost k: System)
    requires Stands(s, g) && IsHandler(i) && h == s.blocks[i].task.handler && p in g.all
    requires Located(g.lists, g.where) && Once(g.lists)
    requires a == (if p.kind == KIND_WORK then Works(i) else Parts(i)) && Puts(g, a, p, k)
    requires k == g.(lists := k.lists, where := k.where)
    modifies h`v1, h`v2, (set q | q in g.all)`link
    ensures Stands(s, k)
  {
    hide Stands, States, Queues, Links, Data, Listed, Located, Once, Puts, Added, OnlyAt, Handlers, Devices, Seeds;
    OpenStands(s, g);
    JoinFacts(s.blocks, h, i, a, g, p, k);
    var head := AppendBeside(s.blocks, p, if p.kind == KIND_WORK then h.v1 else h.v2, a, g, k);
    SetListOf(h, head, p.kind == KIND_WORK, s.blocks, i, g.lists, k);
    CloseStands(s, k);
  }

  /** The objects other than the links of packets stay as they are. */
  method AppendBeside(ghost b: seq<TaskControlBlock>, p: Packet, queue: Packet?, ghost a: Place, ghost g: System,
                      ghost k: System)
    returns (head: Packet)
    requires Wired(b) && Handlers(b, g.lists) && Devices(b, k.lists) && Seeds(b, k.count, k.seed, k.toHandler, k.letter)
    requires Links(g.all, g.lists) && Located(g.lists, g.where) && Once(g.lists) && Added(g.lists, a, p, k.lists)
    requires !a.Slot?
    requires p in g.all && IsHead(queue, At(g.lists, a))
    requires At(g.lists, a) != [] ==> At(g.lists, a)[|At(g.lists, a)| - 1] in g.all
    modifies (set q | q in g.all)`link
    ensures Handlers(b, g.lists) && Devices(b, k.lists) && Seeds(b, k.count, k.seed, k.toHandler, k.letter)
    ensures IsHead(head, At(k.lists, a)) && Links(g.all, k.lists)
  {
    hide Links, Located, Once, Added;
    head := Append(p, queue, a, At(g.lists, a), g.all, g.where, g.lists, k.lists);
  }

  /** The first packet of a list of the handler comes to hand. */
  method Leave(s: Scheduler, h: HandlerTask, works: bool, ghost i: int, ghost a: Place, ghost g: System)
    returns (v: Packet)
    requires Stands(s, g) && IsHandler(i) && h == s.blocks[i].task.handler && Located(g.lists, g.where)
    requires In(g, Hand) == []
    requires a == (if works then Works(i) else Parts(i)) && In(g, a) != []
    modifies h`v1, h`v2
    ensures Stands(s, Take(g, a)) && v == In(g, a)[0]
  {
    hide Stands, States, Queues, Links, Data, Listed, Located, OnlyAt, Taken, Handlers, Devices, Seeds;
    OpenStands(s, g);
    LeaveFacts(s.blocks, h, i, a, works, g);
    v := if works then h.v1 else h.v2;
    SetListOf(h, v.link, works, s.blocks, i, g.lists, Take(g, a));
    CloseStands(s, Take(g, a));
  }

  /** The next letter of the work packet goes into the device packet. */
  method CopyLetter(w: Packet, v: Packet, ghost all: seq<Packet>, ghost info: map<Packet, Info>)
    requires Data(all, info) && w in all && v in all && w != v && 0 <= w.a1 < DATA_SIZE
    modifies v`a1, w`a1
    ensures w in info && v in info && 0 <= info[w].a1 < |info[w].a2|
    ensures Data(all, info[v := info[v].(a1 := info[w].a2[info[w].a1])][w := info[w].(a1 := info[w].a1 + 1)])
  {
    assert w in info && v in info;
    var count := w.a1;
    v.a1 := w.a2[count];
    w.a1 := count + 1;
    forall q | q in all ensures q in info && |q.a2| == DATA_SIZE {}
  }

  /** The packet at hand, if any, joins a list. */
  method SortPacket(s: Scheduler, h: HandlerTask, packet: Packet?, ghost i: int, ghost g: System)
    requires Stands(s, g) && Started(g, i) && IsHandler(i) && h == s.blocks[i].task.handler && packet == HandPacket(g)
    modifies h`v1, h`v2, (set q | q in g.all)`link
    ensures Stands(s, Sorted(g, i))
  {
    hide Stands, Located, Once, Found, AllAllowed, Mirrored, SlotsFree, Consistent, Listed, Puts;
    if packet != null {
      HandFacts(s, g, i, packet);
      var work := packet.kind == KIND_WORK;
      PutIs(g, if work then Works(i) else Parts(i));
      Join(s, h, packet, i, if work then Works(i) else Parts(i), g, Sorted(g, i));
    }
  }

  /** The first device packet leaves with the next letter of the first work packet. */
  method LeaveWithLetter(s: Scheduler, h: HandlerTask, w: Packet, ghost i: int, ghost g: System) returns (v: Packet)
    requires Stands(s, g) && IsHandler(i) && h == s.blocks[i].task.handler && Located(g.lists, g.where)
    requires In(g, Hand) == []
    requires Copyable(g, i) && w == In(g, Works(i))[0] && w.a1 < DATA_SIZE
    modifies h`v1, h`v2, (set q | q in g.all)`a1
    ensures Stands(s, Take(Copied(g, i), Parts(i))) && v == In(g, Parts(i))[0]
  {
    hide Stands, Located, States, Queues, Links, Data, Listed, Handlers, Devices, Seeds;
    LetterFacts(s, g, i, w);
    v := Leave(s, h, false, i, Parts(i), g);
    OpenStands(s, Take(g, Parts(i)));
    CopyLetter(w, v, g.all, g.info);
    CloseStands(s, Take(Copied(g, i), Parts(i)));
  }

  method RunHandler(s: Scheduler, t: TaskControlBlock, h: HandlerTask, packet: Packet?, ghost i: int, ghost g: System)
    returns (next: TaskControlBlock?)
    requires Stands(s, g) && Running(s, i) && IsHandler(i) && t == s.currentTcb && h == s.blocks[i].task.handler
    requires Started(g, i) && Ready(g, i) && packet == HandPacket(g)
    modifies h`v1, h`v2, (set t | t in s.blocks)`state, (set t | t in s.blocks)`queue, s`queueCount
    modifies (set q | q in g.all)`link, (set q | q in g.all)`id, (set q | q in g.all)`a1
    ensures Stands(s, HandlerActs(Sorted(g, i), i).0) && next == BlockOf(s.blocks, HandlerActs(Sorted(g, i), i).1)
  {
    hide Stands, Located, Once, Found, AllAllowed, Mirrored, SlotsFree, Consistent, Listed, Started;
    SortedKeeps(g, i);
    SortPacket(s, h, packet, i, g);
    next := HandlerChoice(s, t, h, i, Sorted(g, i));
  }

  /** What the handler does next. */
  method HandlerChoice(s: Scheduler, t: TaskControlBlock, h: HandlerTask, ghost i: int, ghost g: System)
    returns (next: TaskControlBlock?)
    requires Stands(s, g) && Running(s, i) && IsHandler(i) && t == s.currentTcb && h == s.blocks[i].task.handler
    requires Invariant(g) && HandlerReady(g, i)
    modifies h`v1, h`v2, (set t | t in s.blocks)`state, (set t | t in s.blocks)`queue, s`queueCount
    modifies (set q | q in g.all)`link, (set q | q in g.all)`id, (set q | q in g.all)`a1
    ensures Stands(s, HandlerActs(g, i).0) && next == BlockOf(s.blocks, HandlerActs(g, i).1)
  {
    hide Stands, Located, Once, Found, AllAllowed, Mirrored, SlotsFree, Consistent, Listed;
    ListsOf(s, h, g, i);
    if h.v1 != null {
      var count := h.v1.a1;
      if count < DATA_SIZE {
        if h.v2 != null {
          next := SendPart(s, h, i, g);
          return;
        }
      } else {
        next := SendWork(s, h, i, g);
        return;
      }
    }
    next := SuspendCurrent(s, t, i, g);
  }

  method SendPart(s: Scheduler, h: HandlerTask, ghost i: int, ghost g: System) returns (next: TaskControlBlock?)
    requires Stands(s, g) && Running(s, i) && IsHandler(i) && h == s.blocks[i].task.handler
    requires Located(g.lists, g.where) && Once(g.lists)
    requires In(g, Hand) == [] && Copyable(g, i) && h.v1 == In(g, Works(i))[0] && h.v1.a1 < DATA_SIZE
    requires Sendable(Take(Copied(g, i), Parts(i)))
    modifies h`v1, h`v2, (set t | t in s.blocks)`state, (set t | t in s.blocks)`queue, s`queueCount
    modifies (set q | q in g.all)`link, (set q | q in g.all)`id, (set q | q in g.all)`a1
    ensures Stands(s, Send(Take(Copied(g, i), Parts(i)), i).0)
    ensures next == BlockOf(s.blocks, Send(Take(Copied(g, i), Parts(i)), i).1)
  {
    hide Stands, Located, Once, Found, AllAllowed, Mirrored, SlotsFree, Consistent, Listed;
    StillPlaced(g, Parts(i));
    LetterFacts(s, g, i, h.v1);
    var v := LeaveWithLetter(s, h, h.v1, i, g);
    next := QueuePacket(s, v, i, Take(Copied(g, i), Parts(i)));
  }

  method SendWork(s: Scheduler, h: HandlerTask, ghost i: int, ghost g: System) returns (next: TaskControlBlock?)
    requires Stands(s, g) && Running(s, i) && IsHandler(i) && h == s.blocks[i].task.handler
    requires Located(g.lists, g.where) && Once(g.lists)
    requires In(g, Hand) == [] && In(g, Works(i)) != [] && Sendable(Take(g, Works(i)))
    modifies h`v1, h`v2, (set t | t in s.blocks)`state, (set t | t in s.blocks)`queue, s`queueCount
    modifies (set q | q in g.all)`link, (set q | q in g.all)`id
    ensures Stands(s, Send(Take(g, Works(i)), i).0) && next == BlockOf(s.blocks, Send(Take(g, Works(i)), i).1)
  {
    hide Stands, Located, Once, Found, AllAllowed, Mirrored, SlotsFree, Consistent, Listed;
    StillPlaced(g, Works(i));
    HeadInAll(s, g, Works(i));
    var v := Leave(s, h, true, i, Works(i), g);
    next := QueuePacket(s, v, i, Take(g, Works(i)));
  }

  // ----- The idle task -----

  method SetIdle(s: Scheduler, d: IdleTask, v1: nat, count: int, ghost g: System)
    requires Stands(s, g) && d == s.blocks[0].task.idle
    modifies d
    ensures Stands(s, g.(seed := v1, count := count)) && d.v1 == v1 && d.count == count
  {
    hide Stands, States, Queues, Links, Data, Listed;
    OpenStands(s, g);
    d.v1, d.count := v1, count;
    CloseStands(s, g.(seed := v1, count := count));
  }

  /** Spend one unit of the count; with none left hold for good, else release one device or the other. */
  method RunIdle(s: Scheduler, t: TaskControlBlock, d: IdleTask, ghost g: System) returns (next: TaskControlBlock?)
    requires Stands(s, g) && Running(s, ID_IDLE) && t == s.currentTcb && d == s.blocks[0].task.idle
    requires |g.state| == NUMBER_OF_IDS
    modifies d, (set t | t in s.blocks)`state, s`holdCount
    ensures Stands(s, IdleRun(g).0) && next == BlockOf(s.blocks, IdleRun(g).1)
  {
    hide Stands;
    IdleOf(s, d, g);
    SetIdle(s, d, d.v1, d.count - 1, g);
    ghost var h := g.(count := g.count - 1);
    if d.count == 0 {
      next := HoldCurrent(s, t, ID_IDLE, h);
    } else if d.v1 % 2 == 0 {
      SetIdle(s, d, d.v1 / 2, d.count, h);
      next := Release(s, ID_DEVICE_A, ID_IDLE, h.(seed := g.seed / 2));
    } else {
      SetIdle(s, d, Xor(d.v1 / 2, 0xD008), d.count, h);
      next := Release(s, ID_DEVICE_B, ID_IDLE, h.(seed := Xor(g.seed / 2, 0xD008)));
    }
  }

  // ----- The loop -----

  /** Run the current task. */
  method RunCurrent(s: Scheduler, t: TaskControlBlock, ghost i: int, ghost g: System) returns (next: TaskControlBlock?)
    requires Stands(s, g) && Running(s, i) && t == s.currentTcb && CanRun(g, i) && Wired(s.blocks)
    modifies TaskObjects(s.blocks), s`queueCount, s`holdCount
    modifies (set t | t in s.blocks)`state, (set t | t in s.blocks)`queue
    modifies (set q | q in g.all)`link, (set q | q in g.all)`id, (set q | q in g.all)`a1, (set q | q in g.all)`a2
    ensures Stands(s, Step(g, i).0) && next == BlockOf(s.blocks, Step(g, i).1)
  {
    hide Stands, CanRun, Started, Invariant, Consistent, Ready;
    TaskKinds(s.blocks, i);
    StartFacts(g, i);
    var packet := BeginRun(s, t, i, g);
    match t.task
    case Idle(d) => next := RunIdle(s, t, d, g);
    case Worker(w) => next := RunWorker(s, t, w, packet, Begin(g, i));
    case Handler(h) => next := RunHandler(s, t, h, packet, i, Begin(g, i));
    case Device(d) => next := RunDevice(s, t, d, packet, i, Begin(g, i));
  }

  /** Which block is current is not part of the state. */
  method SetCurrent(s: Scheduler, t: TaskControlBlock?, id: int, ghost g: System)
    requires Stands(s, g)
    modifies s`currentTcb, s`currentId
    ensures Stands(s, g) && s.currentTcb == t && s.currentId == id
  {
    hide Stands, States, Queues, Links, Data, Listed;
    OpenStands(s, g);
    s.currentTcb := t;
    s.currentId := id;
    CloseStands(s, g);
  }

  /** One turn of the loop: pass over the current task or run it. */
  method OneTurn(s: Scheduler, t: TaskControlBlock, ghost b: seq<TaskControlBlock>, ghost all: seq<Packet>,
                 ghost g: System, ghost cur: int)
    returns (ghost h: System, ghost n: int)
    requires Stands(s, g) && Turn(g, cur) && 0 <= cur && s.currentTcb == t == BlockOf(b, cur) && b == s.blocks
    requires Wired(b)
    requires |g.state| == NUMBER_OF_IDS && g.all == all
    modifies TaskObjects(b), s`queueCount, s`holdCount, s`currentTcb, s`currentId
    modifies (set t | t in b)`state, (set t | t in b)`queue
    modifies (set q | q in all)`link, (set q | q in all)`id, (set q | q in all)`a1, (set q | q in all)`a2
    ensures Stands(s, h) && Turn(h, n) && h.all == all && Run(h, n) == Run(g, cur) && s.currentTcb == BlockOf(b, n)
    ensures s.blocks == b && -1 <= n < NUMBER_OF_IDS && |h.state| == NUMBER_OF_IDS && 0 <= h.count <= g.count
    ensures h.count == g.count ==> Measure(h) < Measure(g) || (Measure(h) == Measure(g) && n < cur)
  {
    hide Stands, Turn, CanRun, Run;
    LoopFacts(s, g, cur);
    if HeldOrSuspended(t.state) {
      h, n := g, cur - 1;
      HeldCount(g, cur);
      SetCurrent(s, t.link, s.currentId, h);
    } else {
      TurnFacts(g, cur);
      SetCurrent(s, t, t.id, g);
      var next := RunCurrent(s, t, cur, g);
      h, n := Step(g, cur).0, Step(g, cur).1;
      SetCurrent(s, next, s.currentId, h);
    }
  }

  /** Run tasks, the highest that is neither held nor suspended first, until there is none. */
  method Schedule(s: Scheduler, ghost b: seq<TaskControlBlock>, ghost all: seq<Packet>, ghost g: System)
    requires Stands(s, g) && Turn(g, NUMBER_OF_IDS - 1) && Wired(b) && b == s.blocks && all == g.all
    modifies TaskObjects(b), s`queueCount, s`holdCount, s`currentTcb, s`currentId
    modifies (set t | t in b)`state, (set t | t in b)`queue
    modifies (set q | q in all)`link, (set q | q in all)`id, (set q | q in all)`a1, (set q | q in all)`a2
    ensures s.currentTcb == null && Stands(s, Run(g, NUMBER_OF_IDS - 1))
  {
    hide Stands, States, Queues, Links, Data, Listed, Handlers, Devices, Seeds, Wired, Turn, CanRun, Run;
    ScheduleFacts(s, g);
    SetCurrent(s, s.list, s.currentId, g);
    ghost var h, cur := g, NUMBER_OF_IDS - 1;
    while s.currentTcb != null
      invariant Stands(s, h) && Turn(h, cur) && h.all == all && Run(h, cur) == Run(g, NUMBER_OF_IDS - 1)
      invariant s.blocks == b && s.currentTcb == BlockOf(b, cur)
      invariant -1 <= cur < NUMBER_OF_IDS && |b| == NUMBER_OF_IDS && |h.state| == NUMBER_OF_IDS
      decreases h.count, Measure(h), cur + 1
    {
      h, cur := OneTurn(s, s.currentTcb, b, all, h, cur);
    }
    RunIsOver(h, cur);
  }
}
