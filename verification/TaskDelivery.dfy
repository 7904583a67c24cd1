/** What one run of each task achieves, and that a packet at a device gets away from it again. */
module TaskDelivery {
  import opened Packets
  import opened TaskSystem
  import opened TaskInvariants
  import opened TaskRuns
  import opened TaskTermination
  import opened IdleSeeds

  // ----- The idle task -----

  /** The last run of the idle task holds it for good. Any other releases device B for an odd seed and device A for
      an even one, which runs next; nothing else changes but the seed, which is shifted. */
  lemma {:induction false} IdleReleases(g: System)
    requires CanRun(g, ID_IDLE)
    ensures var (h, n) := Step(g, ID_IDLE); var i := if Bit(g.seed, 0) then ID_DEVICE_B else ID_DEVICE_A;
      && h.count == g.count - 1 && h.lists == g.lists && h.where == g.where && h.info == g.info
      && h.toHandler == g.toHandler && h.letter == g.letter && |h.state| == |g.state|
      && (h.count == 0 ==> n == -1 && h.seed == g.seed && h.state[ID_IDLE].held)
      && (h.count > 0 ==> n == i && !h.state[i].held && Shifted(g.seed, h.seed) && h.seed == NextSeed(g.seed))
      && (h.count > 0 ==> h.state[i] == g.state[i].(held := false))
      && forall j :: 0 <= j < NUMBER_OF_IDS && j != (if h.count == 0 then ID_IDLE else i) ==> h.state[j] == g.state[j]
  {
    BeginStarts(g, ID_IDLE);
    StepReady(g, ID_IDLE);
    assert Step(g, ID_IDLE) == TaskRun(g, ID_IDLE);
    NextIsShifted(g.seed);
  }

  // ----- The worker -----

  /** The letter after x, Z being followed by A. */
  predicate Follows(x: int, y: int) {
    y == if x >= 26 then 1 else x + 1
  }

  /** A suspended task that can run starts with the first packet of its queue. */
  lemma {:induction false} BeginTakes(g: System, i: int)
    requires CanRun(g, i) && g.state[i] == STATE_SUSPENDED_RUNNABLE
    ensures In(g, Queue(i)) != []
    ensures var b, p := Begin(g, i), In(g, Queue(i))[0];
      && Started(b, i) && In(b, Hand) == [p] && In(b, Queue(i)) == In(g, Queue(i))[1..]
      && b.info == g.info && b.letter == g.letter && b.toHandler == g.toHandler && b.seed == g.seed
      && b.count == g.count && forall a :: a != Queue(i) && a != Hand ==> In(b, a) == In(g, a)
  {
    BeginStarts(g, i);
    TakeIs(g, Queue(i));
  }

  lemma {:induction false} WorkerFills(b: System, p: Packet)
    requires Started(b, ID_WORKER) && In(b, Hand) == [p]
    ensures var k := Filled(b);
      && k.lists == b.lists && k.seed == b.seed && p in k.info && |k.info[p].a2| == 4
      && IsHandler(k.toHandler) && k.toHandler != b.toHandler && k.info[p].a1 == 0 && k.info[p].id == k.toHandler
      && Follows(b.letter, k.info[p].a2[0]) && Follows(k.info[p].a2[0], k.info[p].a2[1])
      && Follows(k.info[p].a2[1], k.info[p].a2[2]) && Follows(k.info[p].a2[2], k.info[p].a2[3])
      && k.letter == k.info[p].a2[3] && |k.state| == |b.state| == NUMBER_OF_IDS
      && forall q :: q in b.info && q != p ==> q in k.info && k.info[q] == b.info[q]
  {
    LettersFollow(b.letter);
    hide Letter, Letters, Consistent, Allowed;
  }

  lemma LettersFollow(v: int)
    requires 0 <= v <= 26
    ensures var s := Letters(v);
      && |s| == 4 && Follows(v, s[0]) && Follows(s[0], s[1]) && Follows(s[1], s[2]) && Follows(s[2], s[3])
      && Letter(v, 3) == s[3]
  {
  }

  /** The packet at hand comes to the end of the queue of the task it names. */
  lemma {:induction false} SendDelivers(k: System, i: int, p: Packet)
    requires In(k, Hand) == [p] && Sendable(k)
    ensures var h, to := Send(k, i).0, k.info[p].id;
      && In(h, Queue(to)) == In(k, Queue(to)) + [p] && h.info == k.info[p := k.info[p].(id := i)]
      && p in h.where && h.where[p] == Queue(to)
      && h.toHandler == k.toHandler && h.letter == k.letter && h.seed == k.seed && h.count == k.count
      && forall a :: a != Queue(to) && a != Hand ==> In(h, a) == In(k, a)
  {
    SendIs(k, i);
  }

  /** The worker's packet goes to the handler that did not get the last one, with the next four letters. */
  lemma {:induction false} WorkerDelivers(g: System)
    requires CanRun(g, ID_WORKER) && g.state[ID_WORKER] == STATE_SUSPENDED_RUNNABLE
    ensures In(g, Queue(ID_WORKER)) != []
    ensures var p, h := In(g, Queue(ID_WORKER))[0], Step(g, ID_WORKER).0;
      && p in h.info && |h.info[p].a2| == 4 && In(h, Queue(ID_WORKER)) == In(g, Queue(ID_WORKER))[1..]
      && In(h, Queue(h.toHandler)) == In(g, Queue(h.toHandler)) + [p]
      && IsHandler(h.toHandler) && h.toHandler != g.toHandler && h.info[p].a1 == 0 && h.info[p].id == ID_WORKER
      && Follows(g.letter, h.info[p].a2[0]) && Follows(h.info[p].a2[0], h.info[p].a2[1])
      && Follows(h.info[p].a2[1], h.info[p].a2[2]) && Follows(h.info[p].a2[2], h.info[p].a2[3])
      && h.letter == h.info[p].a2[3] && h.seed == g.seed
      && forall q :: q in g.info && q != p ==> q in h.info && h.info[q] == g.info[q]
  {
    hide Started, Invariant, Begin, Filled, Send, Sendable, Letters;
    BeginTakes(g, ID_WORKER);
    StepReady(g, ID_WORKER);
    var b, p := Begin(g, ID_WORKER), In(g, Queue(ID_WORKER))[0];
    WorkerFills(b, p);
    SendDelivers(Filled(b), ID_WORKER, p);
  }

  // ----- The handlers -----

  /** What a place of handler i holds once the packet its run starts with, if any, has been filed. */
  ghost function Filed(g: System, i: int, kind: int): seq<Packet>
    requires 0 <= i < |g.state|
  {
    var l := In(g, if kind == KIND_WORK then Works(i) else Parts(i));
    if g.state[i] == STATE_SUSPENDED_RUNNABLE && In(g, Queue(i)) != [] && In(g, Queue(i))[0].kind == kind
    then l + [In(g, Queue(i))[0]] else l
  }

  lemma {:induction false} SortsPacket(b: System, i: int, p: Packet)
    requires Started(b, i) && IsHandler(i) && In(b, Hand) == [p]
    ensures p.kind == KIND_WORK || p.kind == KIND_DEVICE
    ensures var k, works := Sorted(b, i), p.kind == KIND_WORK;
      && In(k, Works(i)) == (if works then In(b, Works(i)) + [p] else In(b, Works(i)))
      && In(k, Parts(i)) == (if works then In(b, Parts(i)) else In(b, Parts(i)) + [p])
      && k.info == b.info && k.seed == b.seed && k.count == b.count
      && forall a :: a != Works(i) && a != Parts(i) && a != Hand ==> In(k, a) == In(b, a)
  {
    KindKnown(p.kind, b.info[p], Queue(i));
    PutIs(b, if p.kind == KIND_WORK then Works(i) else Parts(i));
  }

  /** k is g with the lists of handler i up to date. */
  ghost predicate UpToDate(g: System, i: int, k: System)
    requires 0 <= i < |g.state|
  {
    && In(k, Works(i)) == Filed(g, i, KIND_WORK) && In(k, Parts(i)) == Filed(g, i, KIND_DEVICE)
    && k.info == g.info && k.seed == g.seed && k.count == g.count
    && forall a: Place :: !a.Works? && !a.Parts? && a != Queue(i) && a != Hand ==> In(k, a) == In(g, a)
  }

  lemma {:induction false} TakenUpToDate(g: System, i: int)
    requires CanRun(g, i) && IsHandler(i) && g.state[i] == STATE_SUSPENDED_RUNNABLE
    ensures UpToDate(g, i, Sorted(Begin(g, i), i))
  {
    BeginTakes(g, i);
    SortsPacket(Begin(g, i), i, In(g, Queue(i))[0]);
    hide Begin, Sorted, Started, Invariant;
  }

  lemma {:induction false} AwakeUpToDate(g: System, i: int)
    requires CanRun(g, i) && IsHandler(i) && g.state[i] != STATE_SUSPENDED_RUNNABLE
    ensures UpToDate(g, i, Sorted(Begin(g, i), i))
  {
  }

  lemma {:induction false} HandlerSteps(g: System, i: int)
    requires CanRun(g, i) && IsHandler(i)
    ensures var k := Sorted(Begin(g, i), i); HandlerReady(k, i) && Step(g, i) == HandlerActs(k, i) && Invariant(k)
  {
    StepReady(g, i);
    BeginStarts(g, i);
    SortedKeeps(Begin(g, i), i);
    hide HandlerActs, Sorted, Invariant;
  }

  lemma {:induction false} FiledIs(g: System, i: int)
    requires CanRun(g, i) && IsHandler(i)
    ensures var k := Sorted(Begin(g, i), i);
      HandlerReady(k, i) && Step(g, i) == HandlerActs(k, i) && Invariant(k) && UpToDate(g, i, k)
  {
    hide Sorted, Begin, HandlerActs, Step, HandlerReady, Invariant, In, At;
    HandlerSteps(g, i);
    if g.state[i] == STATE_SUSPENDED_RUNNABLE {
      TakenUpToDate(g, i);
    } else {
      AwakeUpToDate(g, i);
    }
  }

  lemma {:induction false} CopySends(k: System, i: int)
    requires Invariant(k) && IsHandler(i) && HandlerReady(k, i) && In(k, Works(i)) != [] && In(k, Parts(i)) != []
    requires Chosen(k, i).CopyOne? && Copied(k, i).info[In(k, Parts(i))[0]].id == i + 2
    ensures var h, w, v := HandlerActs(k, i).0, In(k, Works(i))[0], In(k, Parts(i))[0];
      var n := k.info[w].a1;
      && v in h.info && w in h.info && w != v && v in k.info
      && h.info[v] == Info(i, k.info[w].a2[n], k.info[v].a2) && h.info[w] == k.info[w].(a1 := n + 1)
      && In(h, Queue(i + 2)) == In(k, Queue(i + 2)) + [v] && In(h, Parts(i)) == In(k, Parts(i))[1..]
      && In(h, Works(i)) == In(k, Works(i))
  {
    var c, v := Copied(k, i), In(k, Parts(i))[0];
    TakeIs(c, Parts(i));
    SendDelivers(Take(c, Parts(i)), i, v);
  }

  lemma {:induction false} ReturnSends(k: System, i: int)
    requires Invariant(k) && IsHandler(i) && HandlerReady(k, i) && In(k, Works(i)) != []
    requires In(k, Works(i))[0] in k.info && k.info[In(k, Works(i))[0]].a1 >= 4
    ensures var h, w := HandlerActs(k, i).0, In(k, Works(i))[0];
      && In(h, Queue(ID_WORKER)) == In(k, Queue(ID_WORKER)) + [w] && In(h, Works(i)) == In(k, Works(i))[1..]
      && In(h, Parts(i)) == In(k, Parts(i)) && h.info == k.info[w := k.info[w].(id := i)]
  {
    var w := In(k, Works(i))[0];
    FirstOf(k, Works(i));
    TakeIs(k, Works(i));
    SendDelivers(Take(k, Works(i)), i, w);
  }

  /** A handler with a work packet and a device packet copies the next letter of the one onto the other and sends that
      to its device. */
  lemma {:induction false} HandlerCopies(g: System, i: int)
    requires CanRun(g, i) && IsHandler(i) && Filed(g, i, KIND_WORK) != [] && Filed(g, i, KIND_DEVICE) != []
    requires Filed(g, i, KIND_WORK)[0] in g.info && g.info[Filed(g, i, KIND_WORK)[0]].a1 < 4
    ensures var h, w, v := Step(g, i).0, Filed(g, i, KIND_WORK)[0], Filed(g, i, KIND_DEVICE)[0];
      var n := g.info[w].a1;
      && v in h.info && w in h.info && w != v && 0 <= n < |g.info[w].a2| && v in g.info
      && h.info[v] == Info(i, g.info[w].a2[n], g.info[v].a2) && h.info[w] == g.info[w].(a1 := n + 1)
      && In(h, Queue(i + 2)) == In(g, Queue(i + 2)) + [v] && In(h, Parts(i)) == Filed(g, i, KIND_DEVICE)[1..]
      && In(h, Works(i)) == Filed(g, i, KIND_WORK)
  {
    FiledIs(g, i);
    var k := Sorted(Begin(g, i), i);
    CopiedKeeps(k, i);
    hide Invariant, Begin, Sorted, HandlerActs, Started, Filed, At, Step, Ready, HandlerReady;
    CopySends(k, i);
  }

  /** A work packet all of whose letters are copied goes back to the worker. */
  lemma {:induction false} HandlerReturns(g: System, i: int)
    requires CanRun(g, i) && IsHandler(i) && Filed(g, i, KIND_WORK) != []
    requires Filed(g, i, KIND_WORK)[0] in g.info && g.info[Filed(g, i, KIND_WORK)[0]].a1 >= 4
    ensures var h, w := Step(g, i).0, Filed(g, i, KIND_WORK)[0];
      && In(h, Queue(ID_WORKER)) == In(g, Queue(ID_WORKER)) + [w] && In(h, Works(i)) == Filed(g, i, KIND_WORK)[1..]
      && In(h, Parts(i)) == Filed(g, i, KIND_DEVICE) && h.info == g.info[w := g.info[w].(id := i)]
  {
    FiledIs(g, i);
    hide Invariant, Begin, Sorted, HandlerActs, Started, Filed, At, Step, Ready, HandlerReady;
    ReturnSends(Sorted(Begin(g, i), i), i);
  }

  lemma {:induction false} WaitsOn(k: System, i: int)
    requires HandlerReady(k, i)
    requires In(k, Works(i)) == [] || (In(k, Parts(i)) == [] && k.info[In(k, Works(i))[0]].a1 < 4)
    ensures var (h, n) := HandlerActs(k, i);
      n == i && |h.state| == |k.state| && h.state[i].suspended && h.info == k.info && h.lists == k.lists
  {
  }

  /** Otherwise it waits. */
  lemma {:induction false} HandlerWaits(g: System, i: int)
    requires CanRun(g, i) && IsHandler(i)
    requires Filed(g, i, KIND_WORK) != [] ==> Filed(g, i, KIND_WORK)[0] in g.info
    requires Filed(g, i, KIND_WORK) == [] ||
      (Filed(g, i, KIND_DEVICE) == [] && g.info[Filed(g, i, KIND_WORK)[0]].a1 < 4)
    ensures var (h, n) := Step(g, i);
      && n == i && |h.state| == NUMBER_OF_IDS && h.state[i].suspended && h.info == g.info
      && In(h, Works(i)) == Filed(g, i, KIND_WORK) && In(h, Parts(i)) == Filed(g, i, KIND_DEVICE)
  {
    FiledIs(g, i);
    WaitsOn(Sorted(Begin(g, i), i), i);
    hide Invariant, Begin, Sorted, Started, Filed, At, Step, Ready, HandlerActs, HandlerReady, CanRun;
  }

  // ----- The devices -----

  /** A device that starts with a packet keeps it in its slot and is held. */
  lemma {:induction false} DeviceAccepts(g: System, i: int)
    requires CanRun(g, i) && IsDevice(i) && g.state[i] == STATE_SUSPENDED_RUNNABLE
    ensures In(g, Queue(i)) != []
    ensures var (h, n) := Step(g, i);
      && In(h, Slot(i)) == [In(g, Queue(i))[0]] && In(h, Queue(i)) == In(g, Queue(i))[1..] && h.info == g.info
      && |h.state| == NUMBER_OF_IDS && h.state[i].held && n == i - 1
  {
    BeginTakes(g, i);
    StepReady(g, i);
    var b := Begin(g, i);
    PutIs(b, Slot(i));
  }

  /** A device released with a full slot sends the packet to its handler. */
  lemma {:induction false} DeviceSends(g: System, i: int, p: Packet)
    requires CanRun(g, i) && IsDevice(i) && In(g, Slot(i)) == [p]
    ensures var h := Step(g, i).0;
      && In(h, Slot(i)) == [] && In(h, Queue(i - 2)) == In(g, Queue(i - 2)) + [p]
      && p in h.where && h.where[p] == Queue(i - 2) && h.count == g.count && h.seed == g.seed
  {
    StepReady(g, i);
    assert !g.state[i].suspended;
    assert Begin(g, i) == g;
    FirstOf(g, Slot(i));
    TakeIs(g, Slot(i));
    SendDelivers(Take(g, Slot(i)), i, p);
  }

  // ----- What no other task touches -----

  /** The slot of device i, whether it is held, and the seed. */
  ghost predicate Untouched(g: System, h: System, i: int) {
    && In(h, Slot(i)) == In(g, Slot(i)) && |g.state| == |h.state| == NUMBER_OF_IDS && 0 <= i < NUMBER_OF_IDS
    && h.state[i].held == g.state[i].held && h.seed == g.seed
  }

  lemma {:induction false} SendUntouched(k: System, j: int, i: int)
    requires Sendable(k) && |k.state| == NUMBER_OF_IDS && IsDevice(i)
    ensures Untouched(k, Send(k, j).0, i)
  {
  }

  lemma {:induction false} BeginUntouched(g: System, j: int, i: int)
    requires CanRun(g, j) && IsDevice(i) && j != i
    ensures Untouched(g, Begin(g, j), i)
  {
  }

  lemma {:induction false} SortedUntouched(b: System, j: int, i: int)
    requires |b.state| == NUMBER_OF_IDS && IsHandler(j) && IsDevice(i)
    ensures Untouched(b, Sorted(b, j), i)
  {
  }

  lemma {:induction false} HandlerUntouched(k: System, j: int, i: int)
    requires |k.state| == NUMBER_OF_IDS && IsHandler(j) && IsDevice(i) && HandlerReady(k, j)
    ensures Untouched(k, HandlerActs(k, j).0, i)
  {
    match Chosen(k, j)
    case Wait =>
    case CopyOne => SendUntouched(Take(Copied(k, j), Parts(j)), j, i);
    case GiveBack => SendUntouched(Take(k, Works(j)), j, i);
  }

  lemma {:induction false} DeviceUntouched(b: System, j: int, i: int)
    requires |b.state| == NUMBER_OF_IDS && IsDevice(j) && IsDevice(i) && j != i
    requires In(b, Hand) == [] && In(b, Slot(j)) != [] ==> Sendable(Take(b, Slot(j)))
    ensures Untouched(b, DeviceRun(b, j).0, i)
  {
    if In(b, Hand) == [] && In(b, Slot(j)) != [] {
      SendUntouched(Take(b, Slot(j)), j, i);
    }
  }

  lemma {:induction false} StepUntouched(g: System, j: int, i: int)
    requires CanRun(g, j) && IsDevice(i) && j != i && j != ID_IDLE
    ensures Untouched(g, Step(g, j).0, i)
  {
    BeginUntouched(g, j, i);
    StepReady(g, j);
    BeginStarts(g, j);
    var b := Begin(g, j);
    if j == ID_WORKER {
      if In(b, Hand) != [] {
        WorkerPacket(b);
        SendUntouched(Filled(b), ID_WORKER, i);
      }
    } else if IsHandler(j) {
      SortedUntouched(b, j, i);
      HandlerUntouched(Sorted(b, j), j, i);
    } else {
      DeviceUntouched(b, j, i);
    }
  }

  // ----- Strict priority -----

  /** No task runs while one of a higher priority could: each of those is held, or waits with nothing queued. */
  lemma {:induction false} HighestRuns(g: System, i: int, j: int)
    requires CanRun(g, i) && i < j < NUMBER_OF_IDS
    ensures g.state[j].held || (g.state[j].suspended && In(g, Queue(j)) == [])
    ensures !g.state[i].held && (g.state[i].suspended ==> In(g, Queue(i)) != [])
  {
  }

  /** When a run is over the same is true of all tasks. */
  lemma {:induction false} NothingToRun(g: System, j: int)
    requires Turn(g, -1) && 0 <= j < NUMBER_OF_IDS
    ensures g.state[j].held || (g.state[j].suspended && In(g, Queue(j)) == [])
  {
  }
}
