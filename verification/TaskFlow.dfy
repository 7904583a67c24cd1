/** What the two counters of the scheduler have to do with each other: every packet that is queued is accounted for. */
module TaskFlow {
  import opened Packets
  import opened TaskSystem
  import opened TaskInvariants
  import opened TaskRuns
  import opened TaskTermination

  /** What a packet is ahead of or behind its share: a device packet is queued twice for every time it is held, and a
      work packet twice for every four of these. */
  function Flow(kind: int, a1: int, a: Place): int {
    match a
    case Queue(i) => if IsDevice(i) then 3 else if IsHandler(i) && kind == KIND_WORK then 2 else 0
    case Works(i) => 2 - a1
    case Slot(i) => -2
    case _ => 0
  }

  ghost function FlowOf(p: Packet, w: Where, info: map<Packet, Info>): int {
    if p in w && p in info then Flow(p.kind, info[p].a1, w[p]) else 0
  }

  ghost function FlowTotal(all: seq<Packet>, w: Where, info: map<Packet, Info>): int {
    if all == [] then 0
    else FlowTotal(all[..|all| - 1], w, info) + FlowOf(all[|all| - 1], w, info)
  }

  lemma {:induction false} FlowChange(all: seq<Packet>, w: Where, info: map<Packet, Info>, w': Where,
                                      info': map<Packet, Info>, p: Packet)
    requires NoDuplicates(all) && forall q :: q in all && q != p ==> FlowOf(q, w', info') == FlowOf(q, w, info)
    ensures FlowTotal(all, w', info') ==
        FlowTotal(all, w, info) + if p in all then FlowOf(p, w', info') - FlowOf(p, w, info) else 0
  {
    if all != [] {
      var r := all[..|all| - 1];
      assert forall q :: q in r ==> q in all;
      assert p in all <==> p in r || p == all[|all| - 1];
      FlowChange(r, w, info, w', info', p);
    }
  }

  /** Twice the packets queued, less five times the holds of devices, less what the packets are ahead. */
  ghost function Balance(g: System): int
    requires |g.state| == NUMBER_OF_IDS
  {
    var idle := if g.state[ID_IDLE].held then 1 else 0;
    2 * g.queued - 5 * (g.holds - idle) - FlowTotal(g.all, g.where, g.info)
  }

  ghost predicate SameIdle(g: System, h: System) {
    |g.state| == |h.state| == NUMBER_OF_IDS && h.state[ID_IDLE].held == g.state[ID_IDLE].held
  }

  // ----- Moving one packet -----

  lemma {:induction false} TakeBalance(g: System, a: Place, p: Packet, h: System)
    requires Listed(g.all, g.where) && Takes(g, a, p, h) && p in g.where && g.where[p] == a && p in g.info
    requires |g.state| == NUMBER_OF_IDS
    ensures Listed(h.all, h.where) && Balance(h) == Balance(g) + Flow(p.kind, g.info[p].a1, a)
  {
    FlowChange(g.all, g.where, g.info, h.where, h.info, p);
  }

  lemma {:induction false} PutBalance(g: System, a: Place, p: Packet, h: System)
    requires Listed(g.all, g.where) && Puts(g, a, p, h) && p in g.where && g.where[p] == Hand && p in g.info
    requires h.info == g.info && h.all == g.all && h.queued == g.queued && h.holds == g.holds && SameIdle(g, h)
    ensures Listed(h.all, h.where) && Balance(h) == Balance(g) - Flow(p.kind, g.info[p].a1, a)
  {
    FlowChange(g.all, g.where, g.info, h.where, h.info, p);
  }

  lemma {:induction false} SendBalance(g: System, cur: int, p: Packet)
    requires Listed(g.all, g.where) && In(g, Hand) == [p] && Sendable(g) && p in g.where && g.where[p] == Hand
    requires |g.state| == NUMBER_OF_IDS
    ensures var h := Send(g, cur).0;
      SameIdle(g, h) && Balance(h) == Balance(g) + 2 - Flow(p.kind, g.info[p].a1, Queue(g.info[p].id))
  {
    SendIs(g, cur);
    var h := Send(g, cur).0;
    FlowChange(g.all, g.where, g.info, h.where, h.info, p);
  }

  // ----- One run of each task -----

  lemma {:induction false} BeginBalance(g: System, i: int)
    requires CanRun(g, i) && Listed(g.all, g.where)
    ensures var b := Begin(g, i);
      && Started(b, i) && Listed(b.all, b.where) && |b.state| == NUMBER_OF_IDS
      && (In(b, Hand) == [] ==> b == g)
      && (In(b, Hand) != [] ==> var p := In(b, Hand)[0];
          && In(b, Hand) == [p] && p in b.where && b.where[p] == Hand && p in b.info
          && Balance(b) == Balance(g) + Flow(p.kind, b.info[p].a1, Queue(i)))
  {
    BeginStarts(g, i);
    if g.state[i] == STATE_SUSPENDED_RUNNABLE {
      var p := In(g, Queue(i))[0];
      FirstOf(g, Queue(i));
      TakeIs(g, Queue(i));
      QueueHead(g, i, p);
      TakeBalance(g, Queue(i), p, Take(g, Queue(i)));
    }
  }

  lemma {:induction false} WorkerBalance(b: System)
    requires Started(b, ID_WORKER) && Listed(b.all, b.where)
    requires In(b, Hand) != [] ==> In(b, Hand)[0] in b.where && b.where[In(b, Hand)[0]] == Hand
    ensures var h := WorkerRun(b).0; |h.state| == |b.state| == NUMBER_OF_IDS && Balance(h) == Balance(b)
  {
    if In(b, Hand) != [] {
      var p, k := In(b, Hand)[0], Filled(b);
      WorkerPacket(b);
      FlowChange(b.all, b.where, b.info, k.where, k.info, p);
      SendBalance(k, ID_WORKER, p);
    }
  }

  lemma {:induction false} SortBalance(b: System, i: int)
    requires Started(b, i) && IsHandler(i) && Listed(b.all, b.where)
    requires In(b, Hand) != [] ==> In(b, Hand)[0] in b.where && b.where[In(b, Hand)[0]] == Hand
    ensures var k := Sorted(b, i);
      && |k.state| == |b.state| == NUMBER_OF_IDS && Listed(k.all, k.where)
      && Balance(k) == Balance(b) -
         if In(b, Hand) == [] then 0 else Flow(In(b, Hand)[0].kind, b.info[In(b, Hand)[0]].a1, Queue(i))
  {
    if In(b, Hand) != [] {
      var p := In(b, Hand)[0];
      var a := if p.kind == KIND_WORK then Works(i) else Parts(i);
      PutIs(b, a);
      PutBalance(b, a, p, Put(b, a));
    }
  }

  lemma {:induction false} CopyBalance(k: System, i: int)
    requires Invariant(k) && IsHandler(i) && HandlerReady(k, i) && Listed(k.all, k.where)
    requires In(k, Works(i)) != [] && Chosen(k, i).CopyOne?
    ensures var h := HandlerActs(k, i).0; SameIdle(k, h) && Balance(h) == Balance(k)
  {
    FirstOf(k, Works(i));
    FirstOf(k, Parts(i));
    CopiedKeeps(k, i);
    var c, v, w := Copied(k, i), In(k, Parts(i))[0], In(k, Works(i))[0];
    FlowChange(k.all, k.where, k.info, c.where, c.info, w);
    SendsBalance(c, i, Parts(i), v);
  }

  lemma {:induction false} SendsBalance(c: System, i: int, a: Place, v: Packet)
    requires Listed(c.all, c.where) && In(c, a) != [] && v == In(c, a)[0] && a != Hand && In(c, Hand) == []
    requires v in c.where && c.where[v] == a && v in c.info && Sendable(Take(c, a)) && |c.state| == NUMBER_OF_IDS
    ensures var h := Send(Take(c, a), i).0;
      && SameIdle(c, h)
      && Balance(h) == Balance(c) + 2 + Flow(v.kind, c.info[v].a1, a) - Flow(v.kind, c.info[v].a1, Queue(c.info[v].id))
  {
    TakeIs(c, a);
    TakeBalance(c, a, v, Take(c, a));
    SendBalance(Take(c, a), i, v);
  }

  lemma {:induction false} ReturnBalance(k: System, i: int)
    requires Invariant(k) && IsHandler(i) && HandlerReady(k, i) && Listed(k.all, k.where)
    requires In(k, Works(i)) != [] && Chosen(k, i).GiveBack?
    ensures var h := HandlerActs(k, i).0; SameIdle(k, h) && Balance(h) == Balance(k)
  {
    FirstOf(k, Works(i));
    SendsBalance(k, i, Works(i), In(k, Works(i))[0]);
  }

  lemma {:induction false} HandlerBalance(k: System, i: int)
    requires Invariant(k) && IsHandler(i) && HandlerReady(k, i) && Listed(k.all, k.where)
    ensures var h := HandlerActs(k, i).0; |h.state| == |k.state| == NUMBER_OF_IDS && Balance(h) == Balance(k)
  {
    match Chosen(k, i)
    case Wait =>
    case CopyOne => CopyBalance(k, i);
    case GiveBack => ReturnBalance(k, i);
  }

  lemma {:induction false} DeviceBalance(b: System, i: int)
    requires Started(b, i) && IsDevice(i) && Ready(b, i) && Listed(b.all, b.where)
    requires In(b, Hand) != [] ==> In(b, Hand)[0] in b.where && b.where[In(b, Hand)[0]] == Hand
    ensures var h := DeviceRun(b, i).0;
      && |h.state| == |b.state| == NUMBER_OF_IDS
      && Balance(h) == Balance(b) -
         if In(b, Hand) == [] then 0 else Flow(In(b, Hand)[0].kind, b.info[In(b, Hand)[0]].a1, Queue(i))
  {
    if In(b, Hand) != [] {
      PutIs(b, Slot(i));
      PutBalance(b, Slot(i), In(b, Hand)[0], Put(b, Slot(i)));
    } else if In(b, Slot(i)) != [] {
      FirstOf(b, Slot(i));
      SendsBalance(b, i, Slot(i), In(b, Slot(i))[0]);
    }
  }

  lemma {:induction false} IdleBalance(g: System)
    requires CanRun(g, ID_IDLE)
    ensures var h := IdleRun(g).0; |h.state| == |g.state| == NUMBER_OF_IDS && Balance(h) == Balance(g)
  {
  }

  ghost predicate Balanced(g: System, h: System) {
    |h.state| == |g.state| == NUMBER_OF_IDS && Balance(h) == Balance(g)
  }

  lemma {:induction false} WorkerStepBalance(g: System)
    requires CanRun(g, ID_WORKER) && Listed(g.all, g.where)
    ensures Balanced(g, Step(g, ID_WORKER).0)
  {
    StepReady(g, ID_WORKER);
    BeginBalance(g, ID_WORKER);
    WorkerBalance(Begin(g, ID_WORKER));
  }

  lemma {:induction false} FilingBalance(g: System, i: int)
    requires CanRun(g, i) && IsHandler(i) && Listed(g.all, g.where)
    ensures var k := Sorted(Begin(g, i), i); Balanced(g, k) && Invariant(k) && Listed(k.all, k.where)
  {
    BeginBalance(g, i);
    SortBalance(Begin(g, i), i);
    SortedKeeps(Begin(g, i), i);
    hide Invariant, Begin, Sorted;
  }

  lemma {:induction false} HandlerStepBalance(g: System, i: int)
    requires CanRun(g, i) && IsHandler(i) && Listed(g.all, g.where)
    ensures Balanced(g, Step(g, i).0)
  {
    hide Begin, Sorted, HandlerActs, Started, Invariant, Balance;
    StepReady(g, i);
    FilingBalance(g, i);
    HandlerBalance(Sorted(Begin(g, i), i), i);
  }

  lemma {:induction false} DeviceStepBalance(g: System, i: int)
    requires CanRun(g, i) && IsDevice(i) && Listed(g.all, g.where)
    ensures Balanced(g, Step(g, i).0)
  {
    StepReady(g, i);
    BeginBalance(g, i);
    DeviceBalance(Begin(g, i), i);
  }

  /** Every run of a task keeps the balance. */
  lemma {:induction false} StepBalance(g: System, i: int)
    requires CanRun(g, i) && Listed(g.all, g.where)
    ensures Balanced(g, Step(g, i).0)
  {
    if i == ID_IDLE {
      StepReady(g, i);
      BeginStarts(g, i);
      IdleBalance(g);
    } else if i == ID_WORKER {
      WorkerStepBalance(g);
    } else if IsHandler(i) {
      HandlerStepBalance(g, i);
    } else {
      DeviceStepBalance(g, i);
    }
  }

  // ----- Whole runs -----

  lemma {:induction false} RunBalance(g: System, cur: int)
    requires Turn(g, cur)
    ensures Balanced(g, Run(g, cur))
    decreases g.count, Measure(g), cur + 1
  {
    if cur >= 0 {
      if HeldOrSuspended(g.state[cur]) {
        RunBalance(g, cur - 1);
      } else {
        NextTurn(g, cur);
        StepBalance(g, cur);
        RunBalance(Step(g, cur).0, Step(g, cur).1);
      }
    }
  }

  lemma {:induction false} FlowBounds(all: seq<Packet>, w: Where, info: map<Packet, Info>)
    requires forall p :: p in w ==> p in info && Allowed(p.kind, info[p], w[p])
    ensures -2 * |all| <= FlowTotal(all, w, info) <= 3 * |all|
  {
    if all != [] {
      FlowBounds(all[..|all| - 1], w, info);
    }
  }
}
