/** Scheduling ends: the idle task spends its count, and between two of its runs the packets run out of steps. */
module TaskTermination {
  import opened Packets
  import opened TaskSystem
  import opened TaskInvariants
  import opened TaskRuns

  // ----- The weight of a packet -----

  /** The steps a packet may still cause before the idle task has to run: a device packet at a handler can be
      sent once and taken once, and copying a letter with it moves a work packet one step on. */
  function Weight(state: seq<State>, kind: int, d: Info, a: Place): int {
    match a
    case Queue(i) => if i == ID_WORKER then 3 else if IsHandler(i) then (if kind == KIND_WORK then 1 else 5) else 2
    case Works(i) => if d.a1 < 0 then 0 else d.a1
    case Parts(i) => 4
    case Slot(i) => if 0 <= i < |state| && state[i].held then 0 else 6
    case Hand => 0
  }

  ghost function WeightOf(g: System, p: Packet): int {
    if p in g.where && p in g.info then Weight(g.state, p.kind, g.info[p], g.where[p]) else 0
  }

  ghost function Total(g: System, all: seq<Packet>): (r: int)
    ensures r >= 0
  {
    if all == [] then 0 else Total(g, all[..|all| - 1]) + WeightOf(g, all[|all| - 1])
  }

  function Awake(s: State): int {
    if s.suspended then 0 else 1
  }

  function AwakeTasks(state: seq<State>): int
    requires |state| == NUMBER_OF_IDS
  {
    Awake(state[1]) + Awake(state[2]) + Awake(state[3]) + Awake(state[4]) + Awake(state[5])
  }

  ghost function Measure(g: System): int
    requires |g.state| == NUMBER_OF_IDS
  {
    Total(g, g.all) + AwakeTasks(g.state)
  }

  /** Changing the weight of one packet changes the total by as much. */
  lemma {:induction false} TotalChange(g: System, h: System, all: seq<Packet>, p: Packet)
    requires NoDuplicates(all) && forall q :: q in all && q != p ==> WeightOf(h, q) == WeightOf(g, q)
    ensures Total(h, all) == Total(g, all) + if p in all then WeightOf(h, p) - WeightOf(g, p) else 0
  {
    if all != [] {
      var r := all[..|all| - 1];
      assert forall q :: q in r ==> q in all;
      assert p in all <==> p in r || p == all[|all| - 1];
      TotalChange(g, h, r, p);
    }
  }

  lemma {:induction false} TakeWeight(g: System, a: Place, p: Packet, h: System)
    requires Listed(g.all, g.where) && Takes(g, a, p, h) && p in g.where && g.where[p] == a && p in g.info
    ensures Listed(h.all, h.where) && Total(h, h.all) == Total(g, g.all) - Weight(g.state, p.kind, g.info[p], a)
  {
    TotalChange(g, h, g.all, p);
  }

  /** A state that holds the same tasks weighs the same. */
  lemma {:induction false} SameHeld(g: System, h: System, all: seq<Packet>)
    requires h.where == g.where && h.info == g.info && |h.state| == |g.state|
    requires forall i :: 0 <= i < |g.state| ==> h.state[i].held == g.state[i].held
    ensures Total(h, all) == Total(g, all)
  {
    if all != [] { SameHeld(g, h, all[..|all| - 1]); }
  }

  lemma {:induction false} PutWeight(g: System, a: Place, p: Packet, h: System)
    requires Listed(g.all, g.where) && Puts(g, a, p, h) && p in g.where && g.where[p] == Hand && p in g.info
    requires h.info == g.info && h.state == g.state && h.all == g.all
    ensures Listed(h.all, h.where) && Total(h, h.all) == Total(g, g.all) + Weight(g.state, p.kind, g.info[p], a)
  {
    TotalChange(g, h, g.all, p);
  }

  lemma {:induction false} SendWeight(g: System, cur: int, p: Packet, i: int, h: System)
    requires Listed(g.all, g.where) && Sends(g, cur, p, i, h) && p in g.where && g.where[p] == Hand
    ensures Listed(h.all, h.where)
    ensures Total(h, h.all) == Total(g, g.all) + Weight(g.state, p.kind, g.info[p], Queue(i))
  {
    var k := g.(where := h.where, info := h.info);
    TotalChange(g, k, g.all, p);
    SameHeld(k, h, g.all);
  }

  lemma {:induction false} SuspendWeight(g: System, i: int)
    requires |g.state| == NUMBER_OF_IDS && 0 < i < NUMBER_OF_IDS && !g.state[i].suspended
    ensures Measure(Suspend(g, i).0) == Measure(g) - 1
  {
    SameHeld(g, Suspend(g, i).0, g.all);
  }

  /** A device that takes a packet into its slot is held, and then the packet weighs nothing. */
  lemma {:induction false} HoldWeight(g: System, i: int, p: Packet, h: System)
    requires Listed(g.all, g.where) && IsDevice(i) && |g.state| == NUMBER_OF_IDS && Puts(g, Slot(i), p, h)
    requires p in g.where && g.where[p] == Hand && p in g.info
    requires h.info == g.info && h.all == g.all && h.state == g.state[i := g.state[i].(held := true)]
    ensures Listed(h.all, h.where) && Total(h, h.all) <= Total(g, g.all) && AwakeTasks(h.state) == AwakeTasks(g.state)
  {
    TotalLighter(g, h, g.all);
  }

  lemma {:induction false} TotalLighter(g: System, h: System, all: seq<Packet>)
    requires forall q :: q in all ==> WeightOf(h, q) <= WeightOf(g, q)
    ensures Total(h, all) <= Total(g, all)
  {
    if all != [] {
      assert forall q :: q in all[..|all| - 1] ==> q in all;
      TotalLighter(g, h, all[..|all| - 1]);
    }
  }

  /** Copying a letter makes the work packet heavier by one. */
  lemma {:induction false} CopyWeight(g: System, i: int)
    requires Listed(g.all, g.where) && Copyable(g, i) && IsHandler(i)
    requires var w := In(g, Works(i))[0]; w in g.where && g.where[w] == Works(i)
    requires var v := In(g, Parts(i))[0]; v in g.where && g.where[v] == Parts(i)
    ensures Total(Copied(g, i), g.all) == Total(g, g.all) + 1
  {
    TotalChange(g, Copied(g, i), g.all, In(g, Works(i))[0]);
  }

  // ----- One run makes the measure smaller -----

  /** Starting a suspended task: the packet it takes is no longer in its queue, and the task is awake. */
  lemma {:induction false} BeginWeight(g: System, i: int, p: Packet)
    requires Placed(g.lists, g.where) && AllAllowed(g.where, g.info) && Listed(g.all, g.where)
    requires |g.state| == NUMBER_OF_IDS && 0 <= i < NUMBER_OF_IDS && In(g, Hand) == []
    requires g.state[i] == STATE_SUSPENDED_RUNNABLE && In(g, Queue(i)) != [] && p == In(g, Queue(i))[0] && p in g.info
    ensures Listed(Begin(g, i).all, Begin(g, i).where)
    ensures Measure(Begin(g, i)) == Measure(g) + 1 - Weight(g.state, p.kind, g.info[p], Queue(i))
  {
    var k, h := Take(g, Queue(i)), Begin(g, i);
    assert i != ID_IDLE by { QueueHead(g, i, p); }
    assert p in g.where && g.where[p] == Queue(i) by { FirstOf(g, Queue(i)); }
    TakeIs(g, Queue(i));
    BeganWeight(g, i, p, k, h);
  }

  lemma {:induction false} BeganWeight(g: System, i: int, p: Packet, k: System, h: System)
    requires Listed(g.all, g.where) && Takes(g, Queue(i), p, k) && p in g.where && g.where[p] == Queue(i) && p in g.info
    requires |g.state| == NUMBER_OF_IDS && 0 < i < NUMBER_OF_IDS && g.state[i] == STATE_SUSPENDED_RUNNABLE
    requires h == SetState(k, i, if |In(g, Queue(i))| == 1 then STATE_RUNNING else STATE_RUNNABLE)
    ensures Listed(h.all, h.where)
    ensures Measure(h) == Measure(g) + 1 - Weight(g.state, p.kind, g.info[p], Queue(i))
  {
    TakeWeight(g, Queue(i), p, k);
    OneAwake(g.state, i, h.state[i]);
    SameHeld(k, h, g.all);
  }

  lemma {:induction false} OneAwake(state: seq<State>, i: int, s: State)
    requires |state| == NUMBER_OF_IDS && 0 < i < NUMBER_OF_IDS
    ensures AwakeTasks(state[i := s]) == AwakeTasks(state) - Awake(state[i]) + Awake(s)
  {}

  // ----- The tasks -----

  lemma {:induction false} WorkerLighter(g: System)
    requires Started(g, ID_WORKER) && Listed(g.all, g.where)
    ensures Listed(WorkerRun(g).0.all, WorkerRun(g).0.where) && WorkerRun(g).0.count == g.count
    ensures Measure(WorkerRun(g).0) == Measure(g) + if In(g, Hand) == [] then -1 else 1
  {
    if In(g, Hand) == [] {
      SuspendWeight(g, ID_WORKER);
    } else {
      var p, k := In(g, Hand)[0], Filled(g);
      WorkerPacket(g);
      assert p in g.where && g.where[p] == Hand by { FirstOf(g, Hand); }
      TotalChange(g, k, g.all, p);
      SentWeight(k, ID_WORKER, p);
    }
  }

  /** Sending weighs what the packet weighs in the queue it goes to; no task falls asleep or wakes. */
  lemma {:induction false} SentWeight(g: System, cur: int, p: Packet)
    requires Listed(g.all, g.where) && In(g, Hand) == [p] && Sendable(g) && |g.state| == NUMBER_OF_IDS
    requires p in g.where && g.where[p] == Hand
    ensures var h := Send(g, cur).0;
      && Listed(h.all, h.where) && h.count == g.count
      && Measure(h) == Measure(g) + Weight(g.state, p.kind, g.info[p], Queue(g.info[p].id))
  {
    var i, h := g.info[p].id, Send(g, cur).0;
    SendIs(g, cur);
    SendWeight(g, cur, p, i, h);
    SameAwake(g.state, h.state);
  }

  lemma {:induction false} SameAwake(state: seq<State>, s: seq<State>)
    requires |state| == |s| == NUMBER_OF_IDS
    requires forall i :: 0 <= i < NUMBER_OF_IDS ==> s[i].suspended == state[i].suspended
    ensures AwakeTasks(s) == AwakeTasks(state)
  {}

  lemma {:induction false} SortedWeight(g: System, i: int)
    requires Started(g, i) && IsHandler(i) && Listed(g.all, g.where)
    ensures Listed(Sorted(g, i).all, Sorted(g, i).where) && Sorted(g, i).count == g.count
    ensures Measure(Sorted(g, i)) == Measure(g) + if In(g, Hand) == [] || In(g, Hand)[0].kind == KIND_WORK then 0 else 4
  {
    if In(g, Hand) != [] {
      var p := In(g, Hand)[0];
      var a := if p.kind == KIND_WORK then Works(i) else Parts(i);
      assert p in g.where && g.where[p] == Hand by { FirstOf(g, Hand); }
      PutIs(g, a);
      PutWeight(g, a, p, Put(g, a));
    }
  }

  /** Whatever a handler does, it makes the system lighter by one. */
  lemma {:induction false} HandlerLighter(g: System, i: int)
    requires Invariant(g) && IsHandler(i) && HandlerReady(g, i) && Listed(g.all, g.where) && !g.state[i].suspended
    ensures LighterByOne(g, HandlerActs(g, i).0)
  {
    var c := Chosen(g, i);
    if c.Wait? {
      SuspendWeight(g, i);
    } else if c.CopyOne? {
      CopyLighter(g, i);
    } else {
      GiveBackLighter(g, i);
    }
  }

  ghost predicate LighterByOne(g: System, h: System) {
    && |g.state| == |h.state| == NUMBER_OF_IDS
    && Listed(h.all, h.where) && h.all == g.all && h.count == g.count && Measure(h) == Measure(g) - 1
  }

  lemma {:induction false} CopyLighter(g: System, i: int)
    requires Invariant(g) && IsHandler(i) && In(g, Works(i)) != [] && Chosen(g, i).CopyOne? && Listed(g.all, g.where)
    requires Copyable(g, i) && Sendable(Take(Copied(g, i), Parts(i)))
    ensures LighterByOne(g, Send(Take(Copied(g, i), Parts(i)), i).0)
  {
    var v := In(g, Parts(i))[0];
    FirstOf(g, Works(i));
    FirstOf(g, Parts(i));
    CopyWeight(g, i);
    CopiedKeeps(g, i);
    TakenAndSent(Copied(g, i), i, Parts(i), v);
  }

  lemma {:induction false} GiveBackLighter(g: System, i: int)
    requires Invariant(g) && IsHandler(i) && Chosen(g, i).GiveBack? && Listed(g.all, g.where)
    requires In(g, Works(i)) != [] && In(g, Works(i))[0] in g.info && Sendable(Take(g, Works(i)))
    ensures LighterByOne(g, Send(Take(g, Works(i)), i).0)
  {
    var w := In(g, Works(i))[0];
    assert w in g.where && g.where[w] == Works(i) && g.info[w].a1 == DATA_SIZE && g.info[w].id == ID_WORKER by {
      FirstOf(g, Works(i));
    }
    TakenAndSent(g, i, Works(i), w);
  }

  /** A packet moves from one place to the end of the queue it is meant for. */
  lemma {:induction false} TakenAndSent(g: System, i: int, a: Place, p: Packet)
    requires |g.state| == NUMBER_OF_IDS && In(g, Hand) == [] && a != Hand && In(g, a) != [] && p == In(g, a)[0]
    requires p in g.where && g.where[p] == a && p in g.info && Listed(g.all, g.where) && Sendable(Take(g, a))
    ensures var h := Send(Take(g, a), i).0;
      && Listed(h.all, h.where) && h.count == g.count
      && Measure(h) ==
         Measure(g) - Weight(g.state, p.kind, g.info[p], a) + Weight(g.state, p.kind, g.info[p], Queue(g.info[p].id))
  {
    var k := Take(g, a);
    TakeIs(g, a);
    TakeWeight(g, a, p, k);
    SentWeight(k, i, p);
  }

  lemma {:induction false} DeviceLighter(g: System, i: int)
    requires Started(g, i) && IsDevice(i) && Ready(g, i) && !g.state[i].held && Listed(g.all, g.where)
    ensures var h := DeviceRun(g, i).0;
      && |h.state| == NUMBER_OF_IDS && Listed(h.all, h.where) && h.all == g.all && h.count == g.count
      && Measure(h) <= Measure(g) - if In(g, Hand) == [] then 1 else 0
  {
    if In(g, Hand) != [] {
      var p, h := In(g, Hand)[0], DeviceRun(g, i).0;
      assert p in g.where && g.where[p] == Hand by { FirstOf(g, Hand); }
      PutIs(g, Slot(i));
      HoldWeight(g, i, p, h);
    } else if In(g, Slot(i)) == [] {
      SuspendWeight(g, i);
    } else {
      FirstOf(g, Slot(i));
      TakenAndSent(g, i, Slot(i), In(g, Slot(i))[0]);
    }
  }

  ghost predicate Lighter(g: System, h: System) {
    && |g.state| == |h.state| == NUMBER_OF_IDS
    && Listed(h.all, h.where) && h.all == g.all && h.count == g.count && Measure(h) < Measure(g)
  }

  /** The weight a task has to make up for: that of the packet it has taken, less its being awake. */
  lemma {:induction false} StartWeight(g: System, i: int)
    requires CanRun(g, i) && Listed(g.all, g.where)
    ensures var b := Begin(g, i);
      && Started(b, i) && Listed(b.all, b.where) && b.all == g.all && b.count == g.count
      && !b.state[i].held && (In(b, Hand) == [] ==> b == g)
      && (In(b, Hand) != [] ==> var p := In(b, Hand)[0];
          p in b.info && Allowed(p.kind, b.info[p], Queue(i)) && i != ID_IDLE
          && Measure(b) == Measure(g) + 1 - Weight(g.state, p.kind, b.info[p], Queue(i)))
  {
    BeginStarts(g, i);
    if g.state[i] == STATE_SUSPENDED_RUNNABLE {
      var p := In(g, Queue(i))[0];
      QueueHead(g, i, p);
      BeginWeight(g, i, p);
    }
  }

  lemma {:induction false} WorkerStep(g: System)
    requires CanRun(g, ID_WORKER) && Listed(g.all, g.where)
    ensures Lighter(g, Step(g, ID_WORKER).0)
  {
    StartWeight(g, ID_WORKER);
    StepReady(g, ID_WORKER);
    WorkerLighter(Begin(g, ID_WORKER));
  }

  /** Up to where its lists are up to date, a handler leaves the measure alone. */
  lemma {:induction false} SortedStep(g: System, i: int)
    requires CanRun(g, i) && IsHandler(i) && Listed(g.all, g.where)
    ensures var k := Sorted(Begin(g, i), i);
      && Invariant(k) && !k.state[i].suspended && HandlerReady(k, i)
      && Listed(k.all, k.where) && k.all == g.all && k.count == g.count && Measure(k) == Measure(g)
  {
    StartWeight(g, i);
    var b := Begin(g, i);
    SortedWeight(b, i);
    assert Invariant(Sorted(b, i)) && Sorted(b, i).state == b.state by { SortedKeeps(b, i); }
    assert HandlerReady(Sorted(b, i), i) by { HandlerKeeps(b, i); }
  }

  lemma {:induction false} HandlerStep(g: System, i: int)
    requires CanRun(g, i) && IsHandler(i) && Listed(g.all, g.where)
    ensures Lighter(g, Step(g, i).0)
  {
    SortedStep(g, i);
    StepReady(g, i);
    var k := Sorted(Begin(g, i), i);
    assert Step(g, i) == HandlerActs(k, i);
    HandlerLighter(k, i);
  }

  lemma {:induction false} DeviceStep(g: System, i: int)
    requires CanRun(g, i) && IsDevice(i) && Listed(g.all, g.where)
    ensures Lighter(g, Step(g, i).0)
  {
    StartWeight(g, i);
    StepReady(g, i);
    var b := Begin(g, i);
    assert Step(g, i) == DeviceRun(b, i);
    assert Measure(b) <= Measure(g) - if In(b, Hand) == [] then 0 else 1;
    var h := DeviceRun(b, i).0;
    assert Listed(h.all, h.where) && h.all == b.all && h.count == b.count && Measure(h) < Measure(g) by {
      DeviceLighter(b, i);
    }
  }

  lemma {:induction false} IdleStep(g: System)
    requires CanRun(g, ID_IDLE) && Listed(g.all, g.where)
    ensures var h := Step(g, ID_IDLE).0;
      |h.state| == NUMBER_OF_IDS && Listed(h.all, h.where) && h.all == g.all && h.count == g.count - 1 >= 0
  {
    BeginStarts(g, ID_IDLE);
    StepReady(g, ID_IDLE);
    assert Step(g, ID_IDLE) == IdleRun(g);
  }

  /** Every run but those of the idle task makes the measure smaller; the idle task spends its count. */
  lemma {:induction false} StepDecreases(g: System, i: int)
    requires CanRun(g, i) && Listed(g.all, g.where)
    ensures var h := Step(g, i).0;
      && |h.state| == NUMBER_OF_IDS && Listed(h.all, h.where) && h.all == g.all
      && if i == ID_IDLE then h.count == g.count - 1 >= 0 else h.count == g.count && Measure(h) < Measure(g)
  {
    if i == ID_WORKER { WorkerStep(g); }
    else if IsHandler(i) { HandlerStep(g, i); }
    else if IsDevice(i) { DeviceStep(g, i); }
    else { IdleStep(g); }
  }

  // ----- Whole runs -----

  /** Between two turns of the scheduling loop, cur being the task to look at next. */
  ghost predicate Turn(g: System, cur: int) {
    Invariant(g) && Quiet(g.state, cur) && Listed(g.all, g.where)
  }

  lemma {:induction false} NextTurn(g: System, cur: int)
    requires Turn(g, cur) && cur >= 0 && !HeldOrSuspended(g.state[cur])
    ensures var (h, n) := Step(g, cur);
      && Turn(h, n) && h.all == g.all && 0 <= h.count <= g.count && (h.count == g.count ==> Measure(h) < Measure(g))
  {
    StepKeeps(g, cur);
    StepDecreases(g, cur);
  }

  /** The system when scheduling from task cur on has come to its end. */
  ghost function Run(g: System, cur: int): System
    requires Turn(g, cur)
    decreases g.count, Measure(g), cur + 1
  {
    if cur < 0 then g
    else if HeldOrSuspended(g.state[cur]) then Run(g, cur - 1)
    else
      NextTurn(g, cur);
      Run(Step(g, cur).0, Step(g, cur).1)
  }

  /** At the end every task is held or suspended, the count is used up exactly, no packet is lost and none
      is in two places. */
  lemma {:induction false} RunEnds(g: System, cur: int)
    requires Turn(g, cur)
    ensures var h := Run(g, cur); Turn(h, -1) && h.count == 0 && h.all == g.all
    decreases g.count, Measure(g), cur + 1
  {
    if cur >= 0 {
      if HeldOrSuspended(g.state[cur]) {
        RunEnds(g, cur - 1);
      } else {
        NextTurn(g, cur);
        RunEnds(Step(g, cur).0, Step(g, cur).1);
      }
    }
  }
}
