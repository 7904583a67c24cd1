/** Setting the benchmark up and running it. */
module RichardsRun {
  import opened Packets
  import opened TaskSystem
  import opened TaskTermination
  import opened TaskProgress
  import opened TaskFlow
  import opened TaskCrew
  import opened TaskThroughput
  import opened SchedulerState
  import opened Scheduling

  const BLANK: seq<int> := [0, 0, 0, 0]

  /** n new packets in a list, as the benchmark makes them. */
  method MakeQueue(n: nat, id: int, kind: int) returns (queue: Packet?, ghost l: seq<Packet>)
    ensures |l| == n && IsHead(queue, l) && Linked(l) && NoDuplicates(l)
    ensures forall p :: p in l ==> fresh(p) && p.id == id && p.kind == kind && p.a1 == 0 && p.a2 == BLANK
  {
    queue := null;
    l := [];
    var i := 0;
    while i < n
      invariant 0 <= i <= n && |l| == i && IsHead(queue, l) && Linked(l) && NoDuplicates(l)
      invariant forall p :: p in l ==> fresh(p) && p.id == id && p.kind == kind && p.a1 == 0 && p.a2 == BLANK
    {
      var p := new Packet(queue, id, kind);
      ghost var l' := [p] + l;
      forall k | 0 <= k < |l'| ensures l'[k].link == Next(l', k) {
        if k > 0 { assert l[k - 1].link == Next(l, k - 1); }
      }
      queue, l := p, l';
      i := i + 1;
    }
  }

  /** The state the benchmark starts from: work packets lw at the worker, device packets la and lb at the handlers. */
  ghost function Initial(lw: seq<Packet>, la: seq<Packet>, lb: seq<Packet>, count: int): System {
    var all := lw + la + lb;
    System(
      all,
      [STATE_RUNNING, QueuedState(lw), QueuedState(la), QueuedState(lb), STATE_SUSPENDED, STATE_SUSPENDED],
      map[Queue(ID_WORKER) := lw, Queue(ID_HANDLER_A) := la, Queue(ID_HANDLER_B) := lb],
      map p | p in all ::
        if p in lw then Queue(ID_WORKER) else if p in la then Queue(ID_HANDLER_A) else Queue(ID_HANDLER_B),
      map p | p in all :: Info(if p in lw then ID_WORKER else if p in la then ID_DEVICE_A else ID_DEVICE_B, 0, BLANK),
      count, 1, ID_HANDLER_A, 0, 0, 0)
  }

  ghost function QueuedState(l: seq<Packet>): State {
    if l == [] then STATE_SUSPENDED else STATE_SUSPENDED_RUNNABLE
  }

  ghost predicate AllOfKind(l: seq<Packet>, kind: int) {
    forall p :: p in l ==> p.kind == kind
  }

  /** Scheduling may start there. */
  lemma {:induction false} InitialTurn(lw: seq<Packet>, la: seq<Packet>, lb: seq<Packet>, count: int)
    requires count >= 1 && NoDuplicates(lw + la + lb)
    requires AllOfKind(lw, KIND_WORK) && AllOfKind(la, KIND_DEVICE) && AllOfKind(lb, KIND_DEVICE)
    ensures Turn(Initial(lw, la, lb, count), NUMBER_OF_IDS - 1)
  {
    hide Located, Once, Found, AllAllowed, Mirrored, SlotsFree;
    InitialLocated(lw, la, lb, count);
    InitialOnce(lw, la, lb, count);
    InitialAllowed(lw, la, lb, count);
    InitialMirrored(lw, la, lb, count);
  }

  lemma {:induction false} Apart(a: seq<Packet>, b: seq<Packet>)
    requires NoDuplicates(a + b)
    ensures NoDuplicates(a) && NoDuplicates(b) && forall p :: p in a ==> p !in b
  {
    var s := a + b;
    forall i, j | 0 <= i < j < |a| ensures a[i] != a[j] { assert s[i] == a[i] && s[j] == a[j]; }
    forall i, j | 0 <= i < j < |b| ensures b[i] != b[j] { assert s[|a| + i] == b[i] && s[|a| + j] == b[j]; }
    forall i, j | 0 <= i < |a| && 0 <= j < |b| ensures a[i] != b[j] { assert s[i] == a[i] && s[|a| + j] == b[j]; }
  }

  lemma {:induction false} ThreeApart(lw: seq<Packet>, la: seq<Packet>, lb: seq<Packet>)
    requires NoDuplicates(lw + la + lb)
    ensures NoDuplicates(lw) && NoDuplicates(la) && NoDuplicates(lb)
    ensures forall p :: p in lw ==> p !in la && p !in lb
    ensures forall p :: p in la ==> p !in lb
  {
    Apart(lw + la, lb);
    Apart(lw, la);
    assert forall p :: p in lw || p in la ==> p in lw + la;
  }

  lemma {:induction false} InitialLocated(lw: seq<Packet>, la: seq<Packet>, lb: seq<Packet>, count: int)
    requires NoDuplicates(lw + la + lb)
    ensures var g := Initial(lw, la, lb, count); Located(g.lists, g.where) && Found(g.lists, g.where)
  {
    var g := Initial(lw, la, lb, count);
    ThreeApart(lw, la, lb);
    forall a, k | 0 <= k < |At(g.lists, a)| ensures At(g.lists, a)[k] in g.where && g.where[At(g.lists, a)[k]] == a {
      var p := At(g.lists, a)[k];
      assert p in if a == Queue(ID_WORKER) then lw else if a == Queue(ID_HANDLER_A) then la else lb;
    }
  }

  lemma {:induction false} InitialOnce(lw: seq<Packet>, la: seq<Packet>, lb: seq<Packet>, count: int)
    requires NoDuplicates(lw + la + lb)
    ensures Once(Initial(lw, la, lb, count).lists)
  {
    ThreeApart(lw, la, lb);
  }

  lemma {:induction false} InitialAllowed(lw: seq<Packet>, la: seq<Packet>, lb: seq<Packet>, count: int)
    requires AllOfKind(lw, KIND_WORK) && AllOfKind(la, KIND_DEVICE) && AllOfKind(lb, KIND_DEVICE)
    ensures var g := Initial(lw, la, lb, count); AllAllowed(g.where, g.info)
  {
    var g := Initial(lw, la, lb, count);
    forall p | p in g.where ensures p in g.info && Allowed(p.kind, g.info[p], g.where[p]) {
      assert p in lw || p in la || p in lb;
    }
  }

  lemma {:induction false} InitialMirrored(lw: seq<Packet>, la: seq<Packet>, lb: seq<Packet>, count: int)
    ensures var g := Initial(lw, la, lb, count); Mirrored(g.state, g.lists) && SlotsFree(g.state, g.lists)
  {}

  /** Add a task, which becomes the head of the list and the current one. */
  method AddTask(s: Scheduler, id: int, priority: int, queue: Packet?, task: Task) returns (t: TaskControlBlock)
    requires |s.blocks| == id && s.list == BlockOf(s.blocks, id - 1)
    modifies s
    ensures fresh(t) && t.id == id && t.priority == priority && t.queue == queue && t.task == task
    ensures t.link == old(s.list)
    ensures t.state == if queue == null then STATE_SUSPENDED else STATE_SUSPENDED_RUNNABLE
    ensures s.blocks == old(s.blocks) + [t] && s.list == t && s.currentTcb == t
    ensures s.queueCount == old(s.queueCount) && s.holdCount == old(s.holdCount)
  {
    t := new TaskControlBlock(s.list, id, priority, queue, task);
    s.currentTcb := t;
    s.list := s.currentTcb;
    s.blocks := s.blocks + [s.currentTcb];
  }

  /** The idle task and the worker. */
  method AddFirstTasks(s: Scheduler, count: int, queue: Packet?) returns (t0: TaskControlBlock, t1: TaskControlBlock)
    requires s.blocks == [] && s.list == null
    modifies s
    ensures fresh(t0) && fresh(t1) && s.blocks == [t0, t1] && s.list == t1
    ensures t0.id == 0 && t0.priority == 0 && t0.link == null && t0.queue == null && t0.state == STATE_RUNNING
    ensures t0.task.Idle? && fresh(t0.task.idle) && t0.task.idle.v1 == 1 && t0.task.idle.count == count
    ensures t1.id == 1 && t1.priority == 1000 && t1.link == t0 && t1.queue == queue
    ensures t1.state == if queue == null then STATE_SUSPENDED else STATE_SUSPENDED_RUNNABLE
    ensures t1.task.Worker? && fresh(t1.task.worker) && t1.task.worker.v1 == ID_HANDLER_A && t1.task.worker.v2 == 0
    ensures s.queueCount == old(s.queueCount) && s.holdCount == old(s.holdCount)
  {
    var idle := new IdleTask(1, count);
    t0 := AddTask(s, ID_IDLE, 0, null, Idle(idle));
    s.currentTcb.state := STATE_RUNNING;
    var worker := new WorkerTask(ID_HANDLER_A, 0);
    t1 := AddTask(s, ID_WORKER, 1000, queue, Worker(worker));
  }

  method AddHandler(s: Scheduler, id: int, priority: int, queue: Packet?) returns (t: TaskControlBlock, h: HandlerTask)
    requires |s.blocks| == id && s.list == BlockOf(s.blocks, id - 1)
    modifies s
    ensures fresh(t) && t.id == id && t.priority == priority && t.queue == queue && t.link == old(s.list)
    ensures t.state == if queue == null then STATE_SUSPENDED else STATE_SUSPENDED_RUNNABLE
    ensures s.blocks == old(s.blocks) + [t] && s.list == t
    ensures s.queueCount == old(s.queueCount) && s.holdCount == old(s.holdCount)
    ensures fresh(h) && t.task == Handler(h) && h.v1 == null && h.v2 == null
  {
    h := new HandlerTask();
    t := AddTask(s, id, priority, queue, Handler(h));
  }

  method AddDevice(s: Scheduler, id: int, priority: int) returns (t: TaskControlBlock, d: DeviceTask)
    requires |s.blocks| == id && s.list == BlockOf(s.blocks, id - 1)
    modifies s
    ensures fresh(t) && t.id == id && t.priority == priority && t.queue == null && t.link == old(s.list)
    ensures t.state == STATE_SUSPENDED
    ensures s.blocks == old(s.blocks) + [t] && s.list == t
    ensures s.queueCount == old(s.queueCount) && s.holdCount == old(s.holdCount)
    ensures fresh(d) && t.task == Device(d) && d.v1 == null
  {
    d := new DeviceTask();
    t := AddTask(s, id, priority, null, Device(d));
  }

  /** The six tasks over given queues. */
  method AddTasks(s: Scheduler, count: int, qw: Packet?, qa: Packet?, qb: Packet?)
    returns (ghost b: seq<TaskControlBlock>)
    requires s.blocks == [] && s.list == null
    modifies s
    ensures s.blocks == b && Wired(b) && s.list == b[5]
    ensures s.queueCount == old(s.queueCount) && s.holdCount == old(s.holdCount)
    ensures fresh(TaskObjects(b)) && forall t :: t in b ==> fresh(t)
    ensures b[0].state == STATE_RUNNING && b[4].state == STATE_SUSPENDED && b[5].state == STATE_SUSPENDED
    ensures b[1].state == (if qw == null then STATE_SUSPENDED else STATE_SUSPENDED_RUNNABLE) && b[1].queue == qw
    ensures b[2].state == (if qa == null then STATE_SUSPENDED else STATE_SUSPENDED_RUNNABLE) && b[2].queue == qa
    ensures b[3].state == (if qb == null then STATE_SUSPENDED else STATE_SUSPENDED_RUNNABLE) && b[3].queue == qb
    ensures b[0].queue == null && b[4].queue == null && b[5].queue == null
    ensures b[2].task.handler.v1 == null && b[2].task.handler.v2 == null && b[3].task.handler.v1 == null
    ensures b[3].task.handler.v2 == null
    ensures b[4].task.device.v1 == null && b[5].task.device.v1 == null
    ensures Seeds(b, count, 1, ID_HANDLER_A, 0)
  {
    var t0, t1 := AddFirstTasks(s, count, qw);
    var t2, ha := AddHandler(s, ID_HANDLER_A, 2000, qa);
    var t3, hb := AddHandler(s, ID_HANDLER_B, 3000, qb);
    var t4, da := AddDevice(s, ID_DEVICE_A, 4000);
    var t5, db := AddDevice(s, ID_DEVICE_B, 5000);
    b := [t0, t1, t2, t3, t4, t5];
    assert s.blocks == b;
  }

  lemma {:induction false} InitialStands(s: Scheduler, b: seq<TaskControlBlock>, lw: seq<Packet>, la: seq<Packet>,
                                         lb: seq<Packet>, count: int)
    requires s.blocks == b && Wired(b) && s.list == b[5] && NoDuplicates(lw + la + lb) && Linked(lw) && Linked(la)
    requires Linked(lb)
    requires b[0].state == STATE_RUNNING && b[4].state == STATE_SUSPENDED && b[5].state == STATE_SUSPENDED
    requires b[1].state == QueuedState(lw) && IsHead(b[1].queue, lw)
    requires b[2].state == QueuedState(la) && IsHead(b[2].queue, la)
    requires b[3].state == QueuedState(lb) && IsHead(b[3].queue, lb)
    requires b[0].queue == null && b[4].queue == null && b[5].queue == null
    requires b[2].task.handler.v1 == null && b[2].task.handler.v2 == null && b[3].task.handler.v1 == null
    requires b[3].task.handler.v2 == null
    requires b[4].task.device.v1 == null && b[5].task.device.v1 == null
    requires s.queueCount == 0 && s.holdCount == 0
    requires Seeds(b, count, 1, ID_HANDLER_A, 0)
    requires forall p :: p in lw ==> p.id == ID_WORKER && p.a1 == 0 && p.a2 == BLANK
    requires forall p :: p in la ==> p.id == ID_DEVICE_A && p.a1 == 0 && p.a2 == BLANK
    requires forall p :: p in lb ==> p.id == ID_DEVICE_B && p.a1 == 0 && p.a2 == BLANK
    ensures Stands(s, Initial(lw, la, lb, count))
  {
    hide Seeds, NoDuplicates, Linked, Links, Data, Listed, States, Queues, Handlers, Devices;
    InitialLinks(lw, la, lb, count);
    InitialData(lw, la, lb, count);
    InitialBlocks(b, lw, la, lb, count);
    InitialTasks(b, lw, la, lb, count);
    CloseStands(s, Initial(lw, la, lb, count));
  }

  lemma {:induction false} InitialBlocks(b: seq<TaskControlBlock>, lw: seq<Packet>, la: seq<Packet>, lb: seq<Packet>,
                                         count: int)
    requires |b| == NUMBER_OF_IDS
    requires b[0].state == STATE_RUNNING && b[4].state == STATE_SUSPENDED && b[5].state == STATE_SUSPENDED
    requires b[1].state == QueuedState(lw) && IsHead(b[1].queue, lw)
    requires b[2].state == QueuedState(la) && IsHead(b[2].queue, la)
    requires b[3].state == QueuedState(lb) && IsHead(b[3].queue, lb)
    requires b[0].queue == null && b[4].queue == null && b[5].queue == null
    ensures var g := Initial(lw, la, lb, count); States(b, g.state) && Queues(b, g.lists)
  {}

  lemma {:induction false} InitialTasks(b: seq<TaskControlBlock>, lw: seq<Packet>, la: seq<Packet>, lb: seq<Packet>,
                                        count: int)
    requires Wired(b)
    requires b[2].task.handler.v1 == null && b[2].task.handler.v2 == null && b[3].task.handler.v1 == null
    requires b[3].task.handler.v2 == null
    requires b[4].task.device.v1 == null && b[5].task.device.v1 == null
    ensures var g := Initial(lw, la, lb, count); Handlers(b, g.lists) && Devices(b, g.lists)
  {}

  lemma {:induction false} InitialLinks(lw: seq<Packet>, la: seq<Packet>, lb: seq<Packet>, count: int)
    requires NoDuplicates(lw + la + lb) && Linked(lw) && Linked(la) && Linked(lb)
    ensures var g := Initial(lw, la, lb, count); Links(g.all, g.lists) && Listed(g.all, g.where)
  {
    var g := Initial(lw, la, lb, count);
    forall a: Place, k: int | !a.Hand? && !a.Slot? && 0 <= k < |At(g.lists, a)|
      ensures At(g.lists, a)[k] in g.all && At(g.lists, a)[k].link == Next(At(g.lists, a), k)
    {
      var l := if a == Queue(ID_WORKER) then lw else if a == Queue(ID_HANDLER_A) then la else lb;
      assert l[k].link == Next(l, k) && l[k] in l;
    }
  }

  lemma {:induction false} InitialData(lw: seq<Packet>, la: seq<Packet>, lb: seq<Packet>, count: int)
    requires NoDuplicates(lw + la + lb)
    requires forall p :: p in lw ==> p.id == ID_WORKER && p.a1 == 0 && p.a2 == BLANK
    requires forall p :: p in la ==> p.id == ID_DEVICE_A && p.a1 == 0 && p.a2 == BLANK
    requires forall p :: p in lb ==> p.id == ID_DEVICE_B && p.a1 == 0 && p.a2 == BLANK
    ensures var g := Initial(lw, la, lb, count); Data(g.all, g.info)
  {
    ThreeApart(lw, la, lb);
  }

  lemma {:induction false} FreshApart(a: seq<Packet>, b: seq<Packet>)
    requires NoDuplicates(a) && NoDuplicates(b) && forall p :: p in b ==> p !in a
    ensures NoDuplicates(a + b)
  {
    assert forall i :: 0 <= i < |b| ==> b[i] in b;
  }

  /** In every state the benchmark reaches: a packet in the slot of a device gets back to its handler before 17 more
      runs of the idle task are over, while 18 are left. */
  lemma {:induction false} PacketsGetAway(lw: seq<Packet>, la: seq<Packet>, lb: seq<Packet>, count: int, k: nat, i: int,
                                          p: Packet) returns (l: nat)
    requires Turn(Initial(lw, la, lb, count), NUMBER_OF_IDS - 1) && IsDevice(i)
    requires var h := After(Initial(lw, la, lb, count), NUMBER_OF_IDS - 1, k).0;
      In(h, Slot(i)) == [p] && h.count >= 18
    ensures var (h, n) := After(Initial(lw, la, lb, count), NUMBER_OF_IDS - 1, k);
      GotAway(After(h, n, l).0, i, p, h.count - 17)
  {
    var g := Initial(lw, la, lb, count);
    AlwaysSeeded(g, NUMBER_OF_IDS - 1, k);
    var (h, n) := After(g, NUMBER_OF_IDS - 1, k);
    l := SlotsEmpty(h, n, i, p);
  }

  lemma {:induction false} NoFlow(all: seq<Packet>, w: map<Packet, Place>, info: map<Packet, Info>)
    requires forall p :: p in w ==>
        w[p] == Queue(ID_WORKER) || (p.kind == KIND_DEVICE && w[p].Queue? && IsHandler(w[p].id))
    ensures FlowTotal(all, w, info) == 0
  {
    if all != [] {
      NoFlow(all[..|all| - 1], w, info);
    }
  }

  /** At the end the two counters are tied to each other by where the packets have come to rest. */
  lemma {:induction false} CountersBalance(lw: seq<Packet>, la: seq<Packet>, lb: seq<Packet>, count: int)
    requires Turn(Initial(lw, la, lb, count), NUMBER_OF_IDS - 1)
    requires AllOfKind(lw, KIND_WORK) && AllOfKind(la, KIND_DEVICE) && AllOfKind(lb, KIND_DEVICE)
    ensures var g := Initial(lw, la, lb, count); var h := Run(g, NUMBER_OF_IDS - 1);
      && 2 * h.queued == 5 * (h.holds - 1) + FlowTotal(h.all, h.where, h.info)
      && -2 * |g.all| <= 2 * h.queued - 5 * (h.holds - 1) <= 3 * |g.all|
  {
    var g := Initial(lw, la, lb, count);
    var h := Run(g, NUMBER_OF_IDS - 1);
    RunEnds(g, NUMBER_OF_IDS - 1);
    RunBalance(g, NUMBER_OF_IDS - 1);
    NoFlow(g.all, g.where, g.info);
    FlowBounds(h.all, h.where, h.info);
  }

  lemma {:induction false} InitialGoing(lw: seq<Packet>, la: seq<Packet>, lb: seq<Packet>, count: int)
    requires lw != [] && la != [] && lb != [] && NoDuplicates(lw + la + lb)
    requires AllOfKind(lw, KIND_WORK) && AllOfKind(la, KIND_DEVICE) && AllOfKind(lb, KIND_DEVICE)
    ensures Going(Initial(lw, la, lb, count), Crew(lw[0], la[0], lb[0]))
  {
    ThreeApart(lw, la, lb);
    assert lw[0] in lw && la[0] in la && lb[0] in lb;
  }

  /** Whenever the idle task runs, a device is held with a packet in its slot: nothing is ever stuck. */
  lemma {:induction false} NeverStuck(lw: seq<Packet>, la: seq<Packet>, lb: seq<Packet>, count: int, k: nat)
      returns (i: int)
    requires lw != [] && la != [] && lb != []
    requires AllOfKind(lw, KIND_WORK) && AllOfKind(la, KIND_DEVICE) && AllOfKind(lb, KIND_DEVICE)
    requires Turn(Initial(lw, la, lb, count), NUMBER_OF_IDS - 1)
    requires var (h, n) := After(Initial(lw, la, lb, count), NUMBER_OF_IDS - 1, k); n == ID_IDLE && h.count > 0
    ensures var h := After(Initial(lw, la, lb, count), NUMBER_OF_IDS - 1, k).0;
      IsDevice(i) && |h.state| == NUMBER_OF_IDS && h.state[i].held && |In(h, Slot(i))| == 1
  {
    var g, c := Initial(lw, la, lb, count), Crew(lw[0], la[0], lb[0]);
    InitialGoing(lw, la, lb, count);
    hide Initial, After, Going;
    AlwaysGoing(g, NUMBER_OF_IDS - 1, k, c);
    i := NoStarvation(After(g, NUMBER_OF_IDS - 1, k).0, c);
  }

  /** A packet is queued for every 17 units of the count at least, and there are two holds more than that at most. */
  lemma {:induction false} CountersBounded(lw: seq<Packet>, la: seq<Packet>, lb: seq<Packet>, count: int)
    requires lw != [] && la != [] && lb != []
    requires AllOfKind(lw, KIND_WORK) && AllOfKind(la, KIND_DEVICE) && AllOfKind(lb, KIND_DEVICE)
    requires Turn(Initial(lw, la, lb, count), NUMBER_OF_IDS - 1)
    ensures var h := Run(Initial(lw, la, lb, count), NUMBER_OF_IDS - 1);
      17 * h.queued >= count - 17 && h.holds <= count + 2
  {
    var g, c := Initial(lw, la, lb, count), Crew(lw[0], la[0], lb[0]);
    InitialGoing(lw, la, lb, count);
    hide Initial, Run, Going;
    KeepsQueueing(g, NUMBER_OF_IDS - 1, c);
    RunCounted(g, NUMBER_OF_IDS - 1);
    RunEnds(g, NUMBER_OF_IDS - 1);
  }

  /** The scheduler with its six tasks, two work packets and three packets for each device. */
  method SetUp(count: int)
    returns (s: Scheduler, ghost b: seq<TaskControlBlock>, ghost lw: seq<Packet>, ghost la: seq<Packet>,
             ghost lb: seq<Packet>)
    ensures Wired(b) && b == s.blocks && fresh(s) && fresh(TaskObjects(b)) && forall t :: t in b ==> fresh(t)
    ensures forall p :: p in lw + la + lb ==> fresh(p)
    ensures |lw| == 2 && |la| == 3 && |lb| == 3 && NoDuplicates(lw + la + lb)
    ensures AllOfKind(lw, KIND_WORK) && AllOfKind(la, KIND_DEVICE) && AllOfKind(lb, KIND_DEVICE)
    ensures Stands(s, Initial(lw, la, lb, count))
  {
    hide Wired, Seeds, NoDuplicates, Linked, Stands;
    var qw, qa, qb: Packet?;
    s := new Scheduler();
    qw, lw := MakeQueue(2, ID_WORKER, KIND_WORK);
    qa, la := MakeQueue(3, ID_DEVICE_A, KIND_DEVICE);
    qb, lb := MakeQueue(3, ID_DEVICE_B, KIND_DEVICE);
    FreshApart(lw, la);
    FreshApart(lw + la, lb);
    b := AddTasks(s, count, qw, qa, qb);
    InitialStands(s, b, lw, la, lb, count);
  }

  /** The benchmark: set up, and schedule until nothing is left to run. The run starts with eight packets in three
      queues; it ends with the count used up and the same packets, none lost. The two counters are bounded by the count
      and tied to each other. */
  method RunRichards(count: int)
    returns (s: Scheduler, ghost lw: seq<Packet>, ghost la: seq<Packet>, ghost lb: seq<Packet>)
    requires count >= 1
    ensures s.currentTcb == null
    ensures |lw| == 2 && |la| == 3 && |lb| == 3 && NoDuplicates(lw + la + lb)
    ensures AllOfKind(lw, KIND_WORK) && AllOfKind(la, KIND_DEVICE) && AllOfKind(lb, KIND_DEVICE)
    ensures var g := Initial(lw, la, lb, count);
      && Turn(g, NUMBER_OF_IDS - 1) && Stands(s, Run(g, NUMBER_OF_IDS - 1))
      && var h := Run(g, NUMBER_OF_IDS - 1); Turn(h, -1) && h.count == 0 && h.all == lw + la + lb
    ensures -16 <= 2 * s.queueCount - 5 * (s.holdCount - 1) <= 24
    ensures 17 * s.queueCount >= count - 17 && s.holdCount <= count + 2
  {
    hide Turn, Stands, Run;
    ghost var b;
    s, b, lw, la, lb := SetUp(count);
    ghost var g := Initial(lw, la, lb, count);
    InitialTurn(lw, la, lb, count);
    Schedule(s, b, g.all, g);
    RunEnds(g, NUMBER_OF_IDS - 1);
    CountersBalance(lw, la, lb, count);
    CountersBounded(lw, la, lb, count);
    CountersOf(s, Run(g, NUMBER_OF_IDS - 1));
  }
}
