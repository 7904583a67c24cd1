/** How much is done in a run: bounds for the two counters of the scheduler by the count of the idle task. */
module TaskThroughput {
  import opened Packets
  import opened TaskSystem
  import opened TaskInvariants
  import opened TaskRuns
  import opened TaskTermination
  import opened IdleSeeds
  import opened TaskDelivery
  import opened TaskProgress
  import opened TaskCrew

  // ----- What one run does to the counters -----

  /** How many devices are held. */
  function HeldDevices(state: seq<State>): int
    requires |state| == NUMBER_OF_IDS
  {
    (if state[ID_DEVICE_A].held then 1 else 0) + (if state[ID_DEVICE_B].held then 1 else 0)
  }

  /** The holds there can be: those there have been, without the present ones of the devices, and the count left. */
  ghost function Holds(g: System): int
    requires |g.state| == NUMBER_OF_IDS
  {
    g.holds - HeldDevices(g.state) + g.count
  }

  ghost predicate Counted(g: System, h: System) {
    && |g.state| == |h.state| == NUMBER_OF_IDS && g.queued <= h.queued && Holds(h) <= Holds(g)
  }

  lemma Transitive(g: System, h: System, k: System)
    requires Counted(g, h) && Counted(h, k)
    ensures Counted(g, k)
  {
  }

  lemma {:induction false} BeginCounted(g: System, j: int)
    requires CanRun(g, j)
    ensures Counted(g, Begin(g, j)) && Begin(g, j).queued == g.queued && !Begin(g, j).state[j].held
  {
    BeginStarts(g, j);
  }

  lemma {:induction false} SendCounted(k: System, j: int)
    requires Sendable(k) && |k.state| == NUMBER_OF_IDS
    ensures var h := Send(k, j).0; Counted(k, h) && h.queued == k.queued + 1
  {
  }

  lemma {:induction false} ActingCounted(k: System, j: int)
    requires HandlerReady(k, j) && |k.state| == NUMBER_OF_IDS
    ensures Counted(k, HandlerActs(k, j).0)
  {
    match Chosen(k, j)
    case Wait =>
    case CopyOne => SendCounted(Take(Copied(k, j), Parts(j)), j);
    case GiveBack => SendCounted(Take(k, Works(j)), j);
  }

  lemma {:induction false} SortedCounted(b: System, j: int)
    requires |b.state| == NUMBER_OF_IDS
    ensures Counted(b, Sorted(b, j))
  {
  }

  /** A device with a packet in its hands was not held before. */
  lemma {:induction false} DeviceCounted(b: System, j: int)
    requires |b.state| == NUMBER_OF_IDS && IsDevice(j) && !b.state[j].held
    requires In(b, Hand) == [] && In(b, Slot(j)) != [] ==> Sendable(Take(b, Slot(j)))
    ensures Counted(b, DeviceRun(b, j).0)
    ensures In(b, Hand) == [] && In(b, Slot(j)) != [] ==> DeviceRun(b, j).0.queued == b.queued + 1
  {
    if In(b, Hand) == [] && In(b, Slot(j)) != [] {
      SendCounted(Take(b, Slot(j)), j);
    }
  }

  lemma {:induction false} IdleCounted(g: System)
    requires |g.state| == NUMBER_OF_IDS
    ensures Counted(g, IdleRun(g).0)
  {
  }

  lemma {:induction false} WorkerCounted(b: System)
    requires Started(b, ID_WORKER)
    ensures Counted(b, WorkerRun(b).0)
  {
    if In(b, Hand) != [] {
      WorkerPacket(b);
      SendCounted(Filled(b), ID_WORKER);
    }
  }

  lemma {:induction false} HandlerCounted(b: System, j: int)
    requires Started(b, j) && IsHandler(j) && HandlerReady(Sorted(b, j), j)
    ensures Counted(b, HandlerActs(Sorted(b, j), j).0)
  {
    SortedCounted(b, j);
    ActingCounted(Sorted(b, j), j);
  }

  lemma {:induction false} StepCounted(g: System, j: int)
    requires CanRun(g, j)
    ensures Counted(g, Step(g, j).0)
  {
    hide IdleRun, WorkerRun, HandlerActs, DeviceRun, Begin, Sorted, Invariant, HandlerReady, Counted;
    BeginCounted(g, j);
    StepReady(g, j);
    BeginStarts(g, j);
    var b := Begin(g, j);
    if j == ID_IDLE {
      IdleCounted(g);
    } else if j == ID_WORKER {
      WorkerCounted(b);
    } else if IsHandler(j) {
      HandlerCounted(b, j);
    } else {
      DeviceCounted(b, j);
    }
    Transitive(g, b, Step(g, j).0);
  }

  /** A device that empties its slot queues a packet. */
  lemma {:induction false} SendingCounted(g: System, i: int, p: Packet)
    requires CanRun(g, i) && IsDevice(i) && In(g, Slot(i)) == [p]
    ensures Step(g, i).0.queued == g.queued + 1
  {
    StepReady(g, i);
    assert !g.state[i].suspended;
    assert Begin(g, i) == g;
    DeviceCounted(g, i);
  }

  // ----- Whole runs -----

  /** In every reachable state the crew is on duty and each handler that waits has a reason. */
  lemma {:induction false} AlwaysGoing(g: System, cur: int, k: nat, c: Crew)
    requires Turn(g, cur) && Going(g, c)
    ensures Going(After(g, cur, k).0, c)
    decreases k
  {
    hide Step, Invariant, Going, After, Listed;
    if k == 0 || cur < 0 {
      AfterNone(g, cur, k);
    } else {
      AfterOne(g, cur, k - 1);
      if HeldOrSuspended(g.state[cur]) {
        AlwaysGoing(g, cur - 1, k - 1, c);
      } else {
        StepGoing(g, cur, c);
        var (h, n) := Step(g, cur);
        AlwaysGoing(h, n, k - 1, c);
      }
    }
  }

  /** There are no more holds than the count allows, and no packet is ever taken off the counter. */
  lemma {:induction false} RunCounted(g: System, cur: int)
    requires Turn(g, cur)
    ensures Counted(g, Run(g, cur))
    decreases g.count, Measure(g), cur + 1
  {
    hide Step, Run, Invariant, Listed, Counted;
    if cur >= 0 {
      RunOne(g, cur);
      if HeldOrSuspended(g.state[cur]) {
        RunCounted(g, cur - 1);
      } else {
        NextTurn(g, cur);
        StepCounted(g, cur);
        var (h, n) := Step(g, cur);
        RunCounted(h, n);
        Transitive(g, h, Run(h, n));
      }
    } else {
      RunIsOver(g, cur);
    }
  }

  lemma RunIsOver(g: System, cur: int)
    requires Turn(g, cur) && cur < 0
    ensures Run(g, cur) == g && Counted(g, g)
  {
  }

  /** Wherever the run has got to, it queues a packet for every 17 units of the count from there on. */
  lemma {:induction false} KeepsQueueing(g: System, cur: int, c: Crew)
    requires Turn(g, cur) && Seeded(g) && Going(g, c)
    ensures 17 * Run(g, cur).queued >= 17 * g.queued + g.count - 17
    decreases g.count, Measure(g), cur + 1, 1
  {
    hide Step, Run, Invariant, Listed, Going, Counted;
    RunCounted(g, cur);
    CountedIs(g, Run(g, cur));
    if g.count > 17 {
      SomeTaskRuns(g, cur);
      RunOne(g, cur);
      if HeldOrSuspended(g.state[cur]) {
        KeepsQueueing(g, cur - 1, c);
      } else if cur == ID_IDLE {
        var i := NoStarvation(g, c);
        AlwaysDue(i == ID_DEVICE_B, g.seed);
        QueuesSoon(g, cur, c, i, In(g, Slot(i))[0], 17);
      } else {
        NextTurn(g, cur);
        StepSeeded(g, cur);
        StepGoing(g, cur, c);
        StepCounted(g, cur);
        StepDecreases(g, cur);
        var (h, n) := Step(g, cur);
        CountedIs(g, h);
        KeepsQueueing(h, n, c);
      }
    }
  }

  lemma CountedIs(g: System, h: System)
    requires Counted(g, h)
    ensures g.queued <= h.queued
  {
  }

  /** From a full slot of device i a packet is queued before w more runs of the idle task are over. */
  lemma {:induction false} QueuesSoon(g: System, cur: int, c: Crew, i: int, p: Packet, w: nat)
    requires Turn(g, cur) && Seeded(g) && Going(g, c) && |g.state| == NUMBER_OF_IDS
    requires IsDevice(i) && In(g, Slot(i)) == [p] && ReleasedWithin(g, i, w) && g.count > w
    ensures 17 * Run(g, cur).queued >= 17 * g.queued + g.count - w
    decreases g.count, Measure(g), cur + 1, 0
  {
    hide Step, Run, Invariant, Listed, Going, Counted, ReleasedWithin, In;
    SomeTaskRuns(g, cur);
    RunOne(g, cur);
    if HeldOrSuspended(g.state[cur]) {
      QueuesSoon(g, cur - 1, c, i, p, w);
      return;
    }
    NextTurn(g, cur);
    StepSeeded(g, cur);
    StepGoing(g, cur, c);
    StepCounted(g, cur);
    var (h, n) := Step(g, cur);
    CountedIs(g, h);
    var w' := SlotTurn(g, cur, i, p, w);
    if cur == i {
      SendingCounted(g, i, p);
      KeepsQueueing(h, n, c);
    } else {
      QueuesSoon(h, n, c, i, p, w');
    }
  }
}
