/** The system never starves: while packets wait at all, one of them waits at a device. */
module TaskCrew {
  import opened Packets
  import opened TaskSystem
  import opened TaskInvariants
  import opened TaskRuns
  import opened TaskTermination
  import opened TaskDelivery

  // ----- Where device packets belong -----

  /** The device to which device packets in a place belong. */
  function Home(a: Place): int {
    match a
    case Queue(i) => if IsHandler(i) then i + 2 else i
    case Parts(i) => i + 2
    case Slot(i) => i
    case _ => -1
  }

  ghost predicate HomesKept(w: Where, w': Where) {
    forall p :: p in w && p.kind == KIND_DEVICE ==> p in w' && Home(w'[p]) == Home(w[p])
  }

  /** What Begin does to the places. */
  lemma {:induction false} BeginPlaces(g: System, i: int)
    requires CanRun(g, i)
    ensures var b := Begin(g, i);
      if In(b, Hand) == [] then b == g
      else
        var p := In(b, Hand)[0];
        && In(b, Hand) == [p] && p in g.where && g.where[p] == Queue(i) && b.where == g.where[p := Hand]
        && b.info == g.info && p in g.info && Allowed(p.kind, g.info[p], Queue(i))
  {
    BeginStarts(g, i);
    if g.state[i] == STATE_SUSPENDED_RUNNABLE {
      FirstOf(g, Queue(i));
      BeginTakes(g, i);
    }
  }

  lemma {:induction false} WorkerHomes(g: System)
    requires CanRun(g, ID_WORKER)
    ensures HomesKept(g.where, Step(g, ID_WORKER).0.where)
  {
    StepReady(g, ID_WORKER);
    BeginStarts(g, ID_WORKER);
    BeginPlaces(g, ID_WORKER);
    var b := Begin(g, ID_WORKER);
    if In(b, Hand) != [] {
      WorkerPacket(b);
    }
  }

  lemma {:induction false} FilingHomes(g: System, i: int)
    requires CanRun(g, i) && IsHandler(i)
    ensures HomesKept(g.where, Sorted(Begin(g, i), i).where)
  {
    BeginPlaces(g, i);
  }

  /** The first packet of a place goes to the queue of the task it names. */
  lemma {:induction false} SentHome(k: System, a: Place, i: int)
    requires In(k, a) != [] && a != Hand && In(k, Hand) == [] && Sendable(Take(k, a))
    ensures var v, h := In(k, a)[0], Send(Take(k, a), i).0; v in k.info && h.where == k.where[v := Queue(k.info[v].id)]
  {
    var v := In(k, a)[0];
    TakeIs(k, a);
    SendIs(Take(k, a), i);
    assert k.where[v := Hand][v := Queue(k.info[v].id)] == k.where[v := Queue(k.info[v].id)];
  }

  lemma {:induction false} ActingHomes(k: System, i: int)
    requires Invariant(k) && IsHandler(i) && HandlerReady(k, i)
    ensures HomesKept(k.where, HandlerActs(k, i).0.where)
  {
    match Chosen(k, i)
    case Wait =>
    case CopyOne =>
      CopiedKeeps(k, i);
      FirstOf(k, Parts(i));
      SentHome(Copied(k, i), Parts(i), i);
    case GiveBack =>
      FirstOf(k, Works(i));
      SentHome(k, Works(i), i);
  }

  lemma {:induction false} SlotHomes(g: System, i: int)
    requires CanRun(g, i) && IsDevice(i) && In(g, Slot(i)) != [] && Sendable(Take(g, Slot(i)))
    ensures HomesKept(g.where, Send(Take(g, Slot(i)), i).0.where)
  {
    FirstOf(g, Slot(i));
    SentHome(g, Slot(i), i);
  }

  lemma {:induction false} DeviceHomes(g: System, i: int)
    requires CanRun(g, i) && IsDevice(i)
    ensures HomesKept(g.where, Step(g, i).0.where)
  {
    hide Invariant, Send, Sendable, Home;
    StepReady(g, i);
    BeginPlaces(g, i);
    var b := Begin(g, i);
    if In(b, Hand) != [] {
      assert Home(Queue(i)) == Home(Slot(i)) by { HomeOfDevice(i); }
    } else if In(b, Slot(i)) != [] {
      SlotHomes(g, i);
    }
  }

  lemma HomeOfDevice(i: int)
    requires IsDevice(i)
    ensures Home(Queue(i)) == Home(Slot(i))
  {
  }

  /** No run moves a device packet to another device or its handler. */
  lemma {:induction false} StepHomes(g: System, i: int)
    requires CanRun(g, i)
    ensures HomesKept(g.where, Step(g, i).0.where)
  {
    if i == ID_IDLE {
      BeginStarts(g, i);
      StepReady(g, i);
    } else if i == ID_WORKER {
      WorkerHomes(g);
    } else if IsHandler(i) {
      HandlerSteps(g, i);
      FilingHomes(g, i);
      ActingHomes(Sorted(Begin(g, i), i), i);
    } else {
      DeviceHomes(g, i);
    }
  }

  // ----- Handlers that wait -----

  /** A suspended handler has no work, or work that lacks a device packet. */
  ghost predicate Waits(g: System, i: int) {
    && 0 <= i < |g.state|
    && (g.state[i].suspended && In(g, Works(i)) != [] ==>
          In(g, Parts(i)) == [] && In(g, Works(i))[0] in g.info && g.info[In(g, Works(i))[0]].a1 < DATA_SIZE)
  }

  /** What Waits depends on is the same. */
  ghost predicate SameLists(g: System, h: System, i: int) {
    && In(h, Works(i)) == In(g, Works(i)) && In(h, Parts(i)) == In(g, Parts(i))
    && 0 <= i < |g.state| == |h.state| && h.state[i].suspended == g.state[i].suspended
    && (In(g, Works(i)) != [] ==> var w := In(g, Works(i))[0];
        w in g.info && w in h.info && h.info[w].a1 == g.info[w].a1)
  }

  lemma {:induction false} SameWait(g: System, h: System, i: int)
    requires Waits(g, i) && SameLists(g, h, i)
    ensures Waits(h, i)
  {
  }

  lemma {:induction false} BeginLists(g: System, j: int, i: int)
    requires CanRun(g, j) && IsHandler(i) && j != i
    ensures SameLists(g, Begin(g, j), i)
  {
    BeginPlaces(g, j);
    if In(g, Works(i)) != [] {
      FirstOf(g, Works(i));
    }
  }

  /** The first packet of a place that is not on the lists of handler i is sent. */
  lemma {:induction false} SentLists(k: System, a: Place, j: int, i: int)
    requires In(k, a) != [] && a != Hand && In(k, Hand) == [] && Sendable(Take(k, a)) && 0 <= i < |k.state|
    requires a != Works(i) && a != Parts(i) && (In(k, Works(i)) != [] ==> In(k, Works(i))[0] in k.info)
    ensures SameLists(k, Send(Take(k, a), j).0, i)
  {
    TakeIs(k, a);
    SendIs(Take(k, a), j);
  }

  lemma {:induction false} FilledLists(b: System, p: Packet, i: int)
    requires Started(b, ID_WORKER) && In(b, Hand) == [p] && IsHandler(i)
    ensures SameLists(b, Filled(b), i) && Sendable(Filled(b))
  {
    FirstOf(b, Hand);
    if In(b, Works(i)) != [] {
      FirstOf(b, Works(i));
    }
  }

  lemma {:induction false} SendLists(k: System, p: Packet, j: int, i: int)
    requires In(k, Hand) == [p] && Sendable(k) && 0 <= i < |k.state|
    requires In(k, Works(i)) != [] ==> In(k, Works(i))[0] in k.info
    ensures SameLists(k, Send(k, j).0, i)
  {
    SendIs(k, j);
  }

  lemma {:induction false} WorkerLists(g: System, i: int)
    requires CanRun(g, ID_WORKER) && IsHandler(i)
    ensures SameLists(g, Step(g, ID_WORKER).0, i)
  {
    StepReady(g, ID_WORKER);
    BeginStarts(g, ID_WORKER);
    BeginPlaces(g, ID_WORKER);
    BeginLists(g, ID_WORKER, i);
    hide Started, Invariant, Filled, Send, Begin, Sendable;
    var b := Begin(g, ID_WORKER);
    if In(b, Hand) != [] {
      FilledLists(b, In(b, Hand)[0], i);
      SendLists(Filled(b), In(b, Hand)[0], ID_WORKER, i);
    }
  }

  lemma {:induction false} FilingLists(g: System, j: int, i: int)
    requires CanRun(g, j) && IsHandler(j) && IsHandler(i) && j != i
    ensures SameLists(g, Sorted(Begin(g, j), j), i)
  {
    BeginPlaces(g, j);
    BeginLists(g, j, i);
  }

  lemma {:induction false} CopyLists(k: System, j: int, i: int)
    requires Invariant(k) && IsHandler(j) && IsHandler(i) && j != i && In(k, Works(j)) != [] && Copyable(k, j)
    ensures SameLists(k, Copied(k, j), i)
  {
    FirstOf(k, Parts(j));
    FirstOf(k, Works(j));
    if In(k, Works(i)) != [] {
      FirstOf(k, Works(i));
    }
  }

  lemma {:induction false} ActingLists(k: System, j: int, i: int)
    requires Invariant(k) && IsHandler(j) && HandlerReady(k, j) && IsHandler(i) && j != i
    ensures SameLists(k, HandlerActs(k, j).0, i)
  {
    if In(k, Works(i)) != [] {
      FirstOf(k, Works(i));
    }
    match Chosen(k, j)
    case Wait =>
    case CopyOne =>
      CopyLists(k, j, i);
      SentLists(Copied(k, j), Parts(j), j, i);
    case GiveBack =>
      SentLists(k, Works(j), j, i);
  }

  lemma {:induction false} PutLists(b: System, p: Packet, j: int, i: int)
    requires In(b, Hand) == [p] && |b.state| == NUMBER_OF_IDS && IsDevice(j) && IsHandler(i)
    requires In(b, Works(i)) != [] ==> In(b, Works(i))[0] in b.info
    ensures SameLists(b, DeviceRun(b, j).0, i)
  {
    PutIs(b, Slot(j));
  }

  lemma {:induction false} DeviceLists(g: System, j: int, i: int)
    requires CanRun(g, j) && IsDevice(j) && IsHandler(i)
    ensures SameLists(g, Step(g, j).0, i)
  {
    hide Invariant, Send, Sendable;
    StepReady(g, j);
    BeginPlaces(g, j);
    BeginLists(g, j, i);
    var b := Begin(g, j);
    if In(b, Hand) != [] {
      PutLists(b, In(b, Hand)[0], j, i);
    } else if In(b, Slot(j)) != [] {
      SentLists(b, Slot(j), j, i);
    }
  }

  lemma {:induction false} StepLists(g: System, j: int, i: int)
    requires CanRun(g, j) && IsHandler(i) && j != i
    ensures SameLists(g, Step(g, j).0, i)
  {
    if j == ID_IDLE {
      IdleReleases(g);
      if In(g, Works(i)) != [] {
        FirstOf(g, Works(i));
      }
    } else if j == ID_WORKER {
      WorkerLists(g, i);
    } else if IsHandler(j) {
      HandlerSteps(g, j);
      FilingLists(g, j, i);
      ActingLists(Sorted(Begin(g, j), j), j, i);
    } else {
      DeviceLists(g, j, i);
    }
  }

  lemma {:induction false} ActingWaits(k: System, i: int)
    requires HandlerReady(k, i) && IsHandler(i) && !k.state[i].suspended && |k.state| == NUMBER_OF_IDS
    ensures Waits(HandlerActs(k, i).0, i)
  {
  }

  lemma {:induction false} HandlerWaitsRightly(g: System, i: int)
    requires CanRun(g, i) && IsHandler(i)
    ensures Waits(Step(g, i).0, i)
  {
    HandlerSteps(g, i);
    BeginStarts(g, i);
    SortedKeeps(Begin(g, i), i);
    ActingWaits(Sorted(Begin(g, i), i), i);
  }

  /** After every run each handler that waits has a reason. */
  lemma {:induction false} StepWaits(g: System, j: int, i: int)
    requires CanRun(g, j) && IsHandler(i) && Waits(g, i)
    ensures Waits(Step(g, j).0, i)
  {
    if j == i {
      HandlerWaitsRightly(g, i);
    } else {
      StepLists(g, j, i);
    }
  }

  // ----- No starvation -----

  /** Only devices and the idle task are held; a device only with a full slot. */
  ghost predicate HeldFull(g: System) {
    && |g.state| == NUMBER_OF_IDS
    && (forall i :: i == ID_WORKER || IsHandler(i) ==> !g.state[i].held)
    && forall i :: IsDevice(i) && g.state[i].held ==> In(g, Slot(i)) != []
  }

  /** A work packet and a packet for each device. */
  datatype Crew = Crew(work: Packet, forA: Packet, forB: Packet)

  ghost predicate OnDuty(c: Crew, w: Where) {
    && c.work.kind == KIND_WORK && c.forA.kind == KIND_DEVICE && c.forB.kind == KIND_DEVICE
    && c.work in w && c.forA in w && c.forB in w && Home(w[c.forA]) == ID_DEVICE_A && Home(w[c.forB]) == ID_DEVICE_B
  }

  ghost predicate Going(g: System, c: Crew) {
    HeldFull(g) && OnDuty(c, g.where) && Waits(g, ID_HANDLER_A) && Waits(g, ID_HANDLER_B)
  }

  lemma {:induction false} SendHeld(k: System, j: int, i: int)
    requires Sendable(k) && 0 <= i < |k.state|
    ensures var h := Send(k, j).0; |h.state| == |k.state| && h.state[i].held == k.state[i].held
  {
  }

  lemma {:induction false} DeviceHolds(g: System, i: int)
    requires CanRun(g, i) && IsDevice(i)
    ensures var h := Step(g, i).0;
      |h.state| == NUMBER_OF_IDS && (h.state[i].held ==> In(h, Slot(i)) != []) &&
      forall j :: 0 <= j < NUMBER_OF_IDS && j != i ==> h.state[j].held == g.state[j].held
  {
    StepReady(g, i);
    BeginPlaces(g, i);
    var b := Begin(g, i);
    if In(b, Hand) == [] && In(b, Slot(i)) != [] {
      forall j | 0 <= j < NUMBER_OF_IDS ensures Send(Take(b, Slot(i)), i).0.state[j].held == b.state[j].held {
        SendHeld(Take(b, Slot(i)), i, j);
      }
    }
  }

  lemma {:induction false} TaskHolds(g: System, j: int, i: int)
    requires CanRun(g, j) && (j == ID_WORKER || IsHandler(j)) && (i == ID_WORKER || IsHandler(i)) && !g.state[i].held
    ensures var h := Step(g, j).0; |h.state| == NUMBER_OF_IDS && !h.state[i].held
  {
    StepReady(g, j);
    BeginStarts(g, j);
    var b := Begin(g, j);
    if j == ID_WORKER {
      if In(b, Hand) != [] {
        WorkerPacket(b);
        SendHeld(Filled(b), j, i);
      }
    } else {
      HandlerSteps(g, j);
      ActingHolds(Sorted(b, j), j, i);
    }
  }

  lemma {:induction false} ActingHolds(k: System, j: int, i: int)
    requires HandlerReady(k, j) && 0 <= i < |k.state| && !k.state[i].held
    ensures var h := HandlerActs(k, j).0; |h.state| == |k.state| && !h.state[i].held
  {
    match Chosen(k, j)
    case Wait =>
    case CopyOne => SendHeld(Take(Copied(k, j), Parts(j)), j, i);
    case GiveBack => SendHeld(Take(k, Works(j)), j, i);
  }

  lemma {:induction false} IdleHeldFull(g: System)
    requires CanRun(g, ID_IDLE) && HeldFull(g)
    ensures HeldFull(Step(g, ID_IDLE).0)
  {
    IdleReleases(g);
  }

  lemma {:induction false} StepHeldFull(g: System, j: int)
    requires CanRun(g, j) && HeldFull(g)
    ensures HeldFull(Step(g, j).0)
  {
    hide Step, Invariant;
    if j == ID_IDLE {
      IdleHeldFull(g);
    } else if IsDevice(j) {
      DeviceHolds(g, j);
      StepUntouched(g, j, if j == ID_DEVICE_A then ID_DEVICE_B else ID_DEVICE_A);
    } else {
      StepUntouched(g, j, ID_DEVICE_A);
      StepUntouched(g, j, ID_DEVICE_B);
      TaskHolds(g, j, ID_WORKER);
      TaskHolds(g, j, ID_HANDLER_A);
      TaskHolds(g, j, ID_HANDLER_B);
    }
  }

  lemma {:induction false} StepGoing(g: System, j: int, c: Crew)
    requires CanRun(g, j) && Listed(g.all, g.where) && Going(g, c)
    ensures Going(Step(g, j).0, c)
  {
    hide Step, CanRun, HeldFull, Waits;
    StepHeldFull(g, j);
    StepHomes(g, j);
    StepWaits(g, j, ID_HANDLER_A);
    StepWaits(g, j, ID_HANDLER_B);
    StepDecreases(g, j);
  }

  lemma {:induction false} NotQueued(g: System, p: Packet, i: int)
    requires CanRun(g, ID_IDLE) && HeldFull(g) && p in g.where && 0 < i < NUMBER_OF_IDS && g.where[p] == Queue(i)
    ensures g.state[i].held
  {
    HighestRuns(g, ID_IDLE, i);
  }

  /** A handler that waits for a device packet waits for a device that is held. */
  lemma {:induction false} PartAwaited(g: System, i: int, q: Packet)
    requires CanRun(g, ID_IDLE) && HeldFull(g) && IsHandler(i) && In(g, Parts(i)) == []
    requires q in g.where && q.kind == KIND_DEVICE && Home(g.where[q]) == i + 2
    ensures g.state[i + 2].held
  {
    assert q in g.info && Allowed(q.kind, g.info[q], g.where[q]);
    assert q in In(g, g.where[q]);
    match g.where[q]
    case Queue(j) => NotQueued(g, q, j);
    case Slot(j) => HighestRuns(g, ID_IDLE, j);
    case _ =>
  }

  /** Whenever only the idle task can run, a device is held with a packet in its slot. */
  lemma {:induction false} NoStarvation(g: System, c: Crew) returns (i: int)
    requires CanRun(g, ID_IDLE) && Going(g, c)
    ensures IsDevice(i) && |g.state| == NUMBER_OF_IDS && g.state[i].held && |In(g, Slot(i))| == 1
  {
    var w := c.work;
    assert w in g.info && Allowed(w.kind, g.info[w], g.where[w]);
    assert w in In(g, g.where[w]);
    match g.where[w] {
      case Queue(j) =>
        NotQueued(g, w, j);
        assert false;
      case Works(j) =>
        HighestRuns(g, ID_IDLE, j);
        PartAwaited(g, j, if j == ID_HANDLER_A then c.forA else c.forB);
        i := j + 2;
      case _ =>
        assert false;
    }
  }
}
