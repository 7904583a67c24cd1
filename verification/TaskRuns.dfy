/** One run of a task as a whole, and runs of the whole system. */
module TaskRuns {
  import opened Packets
  import opened TaskSystem
  import opened TaskInvariants

  /** Task i has been started: the packet at hand, if any, comes from its queue. */
  ghost predicate Started(g: System, i: int) {
    && Consistent(g) && IdleCounts(g.state[ID_IDLE], g.count) && Quiet(g.state, i) && 0 <= i < NUMBER_OF_IDS
    && !g.state[i].suspended && |In(g, Hand)| <= 1
    && (In(g, Hand) != [] ==>
          && In(g, Hand)[0] in g.info && Allowed(In(g, Hand)[0].kind, g.info[In(g, Hand)[0]], Queue(i))
          && (IsDevice(i) ==> In(g, Slot(i)) == []))
  }

  lemma {:induction false} BeginStarts(g: System, i: int)
    requires Invariant(g) && Quiet(g.state, i) && 0 <= i < NUMBER_OF_IDS && !HeldOrSuspended(g.state[i])
    ensures g.state[i] == STATE_SUSPENDED_RUNNABLE ==> In(g, Queue(i)) != []
    ensures Started(Begin(g, i), i) && (i == ID_IDLE ==> Begin(g, i) == g && g.count >= 1)
  {
    if g.state[i] == STATE_SUSPENDED_RUNNABLE {
      assert In(g, Queue(i)) != [];
      TakeIs(g, Queue(i));
      BeginTaken(g, i, In(g, Queue(i))[0], Take(g, Queue(i)), Begin(g, i));
    }
  }

  lemma {:induction false} BeginTaken(g: System, i: int, p: Packet, k: System, h: System)
    requires Invariant(g) && Quiet(g.state, i) && 0 <= i < NUMBER_OF_IDS && g.state[i] == STATE_SUSPENDED_RUNNABLE
    requires Takes(g, Queue(i), p, k)
    requires h == SetState(k, i, if |In(g, Queue(i))| == 1 then STATE_RUNNING else STATE_RUNNABLE)
    ensures Started(h, i) && i != ID_IDLE
  {
    assert p in g.info && Allowed(p.kind, g.info[p], Queue(i)) && i != ID_IDLE by { QueueHead(g, i, p); }
    assert IsDevice(i) ==> In(h, Slot(i)) == [] by { BeginSlot(g.state, i, g.lists, k.lists); }
    assert Quiet(h.state, i) by { QuietAbove(g.state, i, h.state[i]); }
    assert Consistent(h) && !h.state[i].suspended && In(h, Hand) == [p] by { BeginKeeps(g, i, p, k, h); }
    StartedIs(h, i, p);
  }

  lemma {:induction false} QuietAbove(state: seq<State>, i: int, s: State)
    requires Quiet(state, i) && 0 <= i < NUMBER_OF_IDS
    ensures Quiet(state[i := s], i)
  {}

  lemma {:induction false} QueueHead(g: System, i: int, p: Packet)
    requires Placed(g.lists, g.where) && AllAllowed(g.where, g.info) && In(g, Queue(i)) != [] && p == In(g, Queue(i))[0]
    ensures p in g.info && Allowed(p.kind, g.info[p], Queue(i)) && i != ID_IDLE
  {
    FirstOf(g, Queue(i));
    NotIdle(p.kind, g.info[p], i);
  }

  lemma {:induction false} StartedIs(h: System, i: int, p: Packet)
    requires Consistent(h) && IdleCounts(h.state[ID_IDLE], h.count) && Quiet(h.state, i) && 0 <= i < NUMBER_OF_IDS
    requires !h.state[i].suspended && In(h, Hand) == [p] && p in h.info && Allowed(p.kind, h.info[p], Queue(i))
    requires IsDevice(i) ==> In(h, Slot(i)) == []
    ensures Started(h, i)
  {}

  lemma {:induction false} NotIdle(kind: int, d: Info, i: int)
    requires Allowed(kind, d, Queue(i))
    ensures i != ID_IDLE && (i == ID_WORKER ==> kind == KIND_WORK)
  {}

  lemma {:induction false} BeginSlot(state: seq<State>, i: int, l: Lists, l': Lists)
    requires SlotsFree(state, l) && 0 <= i < NUMBER_OF_IDS && state[i].suspended
    requires forall b :: b != Queue(i) && b != Hand ==> At(l', b) == At(l, b)
    ensures IsDevice(i) ==> At(l', Slot(i)) == []
  {}

  // ----- Changes of packet data -----

  lemma {:induction false} DataAllowed(w: Where, info: map<Packet, Info>, p: Packet, d: Info)
    requires AllAllowed(w, info) && p in w && Allowed(p.kind, d, w[p])
    ensures AllAllowed(w, info[p := d])
  {}

  lemma {:induction false} LettersAreLetters(v: int)
    requires 0 <= v <= 26
    ensures AreLetters(Letters(v)) && 0 <= Letter(v, 3) <= 26
  {
    forall k | 0 <= k < DATA_SIZE ensures 1 <= Letters(v)[k] <= 26 {
      assert Letters(v)[k] == Letter(v, k);
    }
  }

  // ----- The tasks -----

  lemma {:induction false} WorkerKeeps(g: System)
    requires Started(g, ID_WORKER)
    ensures var (h, n) := WorkerRun(g); Invariant(h) && Quiet(h.state, n)
  {
    if In(g, Hand) == [] {
      SuspendKeeps(g, ID_WORKER);
    } else {
      WorkerPacket(g);
      WorkerSends(g, In(g, Hand)[0], OtherHandler(g.toHandler), Filled(g));
    }
  }

  lemma {:induction false} WorkerPacket(g: System)
    requires Started(g, ID_WORKER) && In(g, Hand) != []
    ensures In(g, Hand)[0] in g.info && In(g, Hand)[0].kind == KIND_WORK && In(g, Hand) == [In(g, Hand)[0]]
  {
    NotIdle(In(g, Hand)[0].kind, g.info[In(g, Hand)[0]], ID_WORKER);
  }

  lemma {:induction false} WorkerSends(g: System, p: Packet, to: int, k: System)
    requires Consistent(g) && IdleCounts(g.state[ID_IDLE], g.count) && Quiet(g.state, ID_WORKER) && In(g, Hand) == [p]
    requires p in g.info && p.kind == KIND_WORK && IsHandler(to)
    requires var info := g.info[p := Info(to, 0, Letters(g.letter))];
      k == g.(toHandler := to, letter := Letter(g.letter, 3), info := info)
    ensures var (h, n) := Send(k, ID_WORKER); Invariant(h) && Quiet(h.state, n)
  {
    LettersAreLetters(g.letter);
    FilledKeeps(g, p, Info(to, 0, Letters(g.letter)), k);
    SendFilled(k, p, to);
  }

  lemma {:induction false} FilledKeeps(g: System, p: Packet, d: Info, k: System)
    requires Consistent(g) && In(g, Hand) == [p] && (p.kind == KIND_WORK || p.kind == KIND_DEVICE)
    requires k.state == g.state && k.lists == g.lists && k.where == g.where && k.info == g.info[p := d]
    requires IsHandler(k.toHandler) && 0 <= k.letter <= 26
    ensures Consistent(k)
  {
    FirstOf(g, Hand);
    DataAllowed(g.where, g.info, p, d);
  }

  lemma {:induction false} SendFilled(k: System, p: Packet, to: int)
    requires Consistent(k) && IdleCounts(k.state[ID_IDLE], k.count) && Quiet(k.state, ID_WORKER) && In(k, Hand) == [p]
    requires p in k.info && p.kind == KIND_WORK && IsHandler(to)
    requires k.info[p].id == to && k.info[p].a1 == 0 && AreLetters(k.info[p].a2)
    ensures var (h, n) := Send(k, ID_WORKER); Invariant(h) && Quiet(h.state, n)
  {
    var h := Send(k, ID_WORKER).0;
    SendIs(k, ID_WORKER);
    SendKeeps(k, ID_WORKER, p, to, h);
    SendQuiet(k, ID_WORKER, p, to, h);
  }

  lemma {:induction false} SortedKeeps(g: System, i: int)
    requires Started(g, i) && IsHandler(i)
    ensures Invariant(Sorted(g, i)) && Sorted(g, i).state == g.state
  {
    if In(g, Hand) != [] {
      var p := In(g, Hand)[0];
      var a := if p.kind == KIND_WORK then Works(i) else Parts(i);
      PutIs(g, a);
      PutKeeps(g, a, p, Put(g, a));
    }
  }

  lemma {:induction false} CopiedKeeps(g: System, i: int)
    requires Invariant(g) && IsHandler(i) && In(g, Works(i)) != [] && Chosen(g, i).CopyOne?
    ensures Copyable(g, i) && Consistent(Copied(g, i))
    ensures Copied(g, i).info[In(g, Parts(i))[0]].id == i + 2
  {
    FirstOf(g, Works(i));
    FirstOf(g, Parts(i));
    var w, v := In(g, Works(i))[0], In(g, Parts(i))[0];
    var n := g.info[w].a1;
    var info := g.info[v := g.info[v].(a1 := g.info[w].a2[n])];
    DataAllowed(g.where, g.info, v, info[v]);
    DataAllowed(g.where, info, w, g.info[w].(a1 := n + 1));
  }

  lemma {:induction false} SendPart(g: System, i: int)
    requires Invariant(g) && IsHandler(i) && Quiet(g.state, i) && In(g, Works(i)) != [] && Chosen(g, i).CopyOne?
    ensures Copyable(g, i) && Sendable(Take(Copied(g, i), Parts(i)))
    ensures var (h, n) := Send(Take(Copied(g, i), Parts(i)), i); Invariant(h) && Quiet(h.state, n)
  {
    CopiedKeeps(g, i);
    SendFrom(Copied(g, i), i, Parts(i), i + 2);
  }

  /** Taking the first packet of a place and sending it where it wants to go. */
  lemma {:induction false} SendFrom(g: System, i: int, a: Place, to: int)
    requires Invariant(g) && 0 < i < NUMBER_OF_IDS && 0 < to < NUMBER_OF_IDS && Quiet(g.state, i)
    requires In(g, a) != [] && !a.Queue? && a != Hand && In(g, a)[0] in g.info && g.info[In(g, a)[0]].id == to
    requires Allowed(In(g, a)[0].kind, g.info[In(g, a)[0]].(id := i), Queue(to))
    ensures Sendable(Take(g, a))
    ensures var (h, n) := Send(Take(g, a), i); Invariant(h) && Quiet(h.state, n)
  {
    var p, k := In(g, a)[0], Take(g, a);
    TakeIs(g, a);
    TakeKeeps(g, a, p, k);
    var h := Send(k, i).0;
    SendIs(k, i);
    SendKeeps(k, i, p, to, h);
    SendQuiet(k, i, p, to, h);
  }

  lemma {:induction false} GiveBackWork(g: System, i: int)
    requires Invariant(g) && IsHandler(i) && Quiet(g.state, i) && In(g, Works(i)) != []
    ensures Sendable(Take(g, Works(i)))
    ensures var (h, n) := Send(Take(g, Works(i)), i); Invariant(h) && Quiet(h.state, n)
  {
    FirstOf(g, Works(i));
    SendFrom(g, i, Works(i), ID_WORKER);
  }

  lemma {:induction false} HandlerKeeps(g: System, i: int)
    requires Started(g, i) && IsHandler(i)
    ensures HandlerReady(Sorted(g, i), i)
    ensures var (h, n) := HandlerActs(Sorted(g, i), i); Invariant(h) && Quiet(h.state, n)
  {
    SortedKeeps(g, i);
    var k := Sorted(g, i);
    if In(k, Works(i)) != [] { FirstOf(k, Works(i)); }
    match Chosen(k, i)
    case Wait => SuspendKeeps(k, i);
    case CopyOne => SendPart(k, i);
    case GiveBack => GiveBackWork(k, i);
  }

  lemma {:induction false} DeviceKeeps(g: System, i: int)
    requires Started(g, i) && IsDevice(i)
    ensures In(g, Hand) == [] && In(g, Slot(i)) != [] ==> Sendable(Take(g, Slot(i)))
    ensures var (h, n) := DeviceRun(g, i); Invariant(h) && Quiet(h.state, n)
  {
    if In(g, Hand) != [] {
      var p, k := In(g, Hand)[0], Put(g, Slot(i));
      PutIs(g, Slot(i));
      PutKeeps(g, Slot(i), p, k);
      HoldKeeps(k, i);
    } else if In(g, Slot(i)) == [] {
      SuspendKeeps(g, i);
    } else {
      FirstOf(g, Slot(i));
      SendFrom(g, i, Slot(i), i - 2);
    }
  }

  lemma {:induction false} IdleKeeps(g: System)
    requires Invariant(g) && Quiet(g.state, ID_IDLE) && g.state[ID_IDLE] == STATE_RUNNING && g.count >= 1
    ensures var (h, n) := IdleRun(g); Invariant(h) && Quiet(h.state, n)
  {
    var h := g.(count := g.count - 1);
    if h.count == 0 {
      HoldKeeps(h, ID_IDLE);
    } else if g.seed % 2 == 0 {
      ReleaseKeeps(h.(seed := g.seed / 2), ID_DEVICE_A);
    } else {
      ReleaseKeeps(h.(seed := Xor(g.seed / 2, 0xD008)), ID_DEVICE_B);
    }
  }

  // ----- One run -----

  ghost predicate Ready(g: System, i: int) {
    && |g.state| == NUMBER_OF_IDS && 0 <= i < NUMBER_OF_IDS
    && (IsHandler(i) ==> HandlerReady(Sorted(g, i), i))
    && (IsDevice(i) ==> In(g, Hand) == [] && In(g, Slot(i)) != [] ==> Sendable(Take(g, Slot(i))))
  }

  ghost function TaskRun(g: System, i: int): (System, int)
    requires Ready(g, i)
  {
    if i == ID_IDLE then IdleRun(g)
    else if i == ID_WORKER then WorkerRun(g)
    else if IsHandler(i) then HandlerActs(Sorted(g, i), i)
    else DeviceRun(g, i)
  }

  /** Task i, which is neither held nor suspended, may run. */
  ghost predicate CanRun(g: System, i: int) {
    Invariant(g) && Quiet(g.state, i) && 0 <= i < NUMBER_OF_IDS && !HeldOrSuspended(g.state[i])
  }

  lemma {:induction false} StepReady(g: System, i: int)
    requires CanRun(g, i)
    ensures g.state[i] == STATE_SUSPENDED_RUNNABLE ==> In(g, Queue(i)) != []
    ensures Ready(Begin(g, i), i)
  {
    BeginStarts(g, i);
    var h := Begin(g, i);
    if IsHandler(i) { HandlerKeeps(h, i); }
    if IsDevice(i) { DeviceKeeps(h, i); }
  }

  /** The system after one run of task i, and the task to look at next, -1 for none. */
  ghost function Step(g: System, i: int): (System, int)
    requires CanRun(g, i)
  {
    StepReady(g, i);
    TaskRun(Begin(g, i), i)
  }

  /** Every run keeps the invariant and strict priority. */
  lemma {:induction false} StepKeeps(g: System, i: int)
    requires CanRun(g, i)
    ensures var (h, n) := Step(g, i); Invariant(h) && Quiet(h.state, n)
  {
    BeginStarts(g, i);
    StepReady(g, i);
    var h := Begin(g, i);
    if i == ID_IDLE { IdleKeeps(h); }
    else if i == ID_WORKER { WorkerKeeps(h); }
    else if IsHandler(i) { HandlerKeeps(h, i); }
    else { DeviceKeeps(h, i); }
  }
}
