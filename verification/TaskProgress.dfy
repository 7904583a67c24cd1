/** What keeps happening in a run: the devices are released, and packets get away from them. */
module TaskProgress {
  import opened Packets
  import opened TaskSystem
  import opened TaskRuns
  import opened TaskTermination
  import opened IdleSeeds
  import opened TaskDelivery

  // ----- The loop, turn by turn -----

  /** Where the scheduling loop stands after k turns. */
  ghost function After(g: System, cur: int, k: nat): (r: (System, int))
    requires Turn(g, cur)
    ensures Turn(r.0, r.1)
    decreases k
  {
    if k == 0 || cur < 0 then (g, cur)
    else if HeldOrSuspended(g.state[cur]) then After(g, cur - 1, k - 1)
    else
      NextTurn(g, cur);
      After(Step(g, cur).0, Step(g, cur).1, k - 1)
  }

  /** One turn: the loop passes over a task that is held or suspended, and runs any other. */
  lemma {:induction false} AfterOne(g: System, cur: int, k: nat)
    requires Turn(g, cur) && cur >= 0
    ensures HeldOrSuspended(g.state[cur]) ==> Turn(g, cur - 1) && After(g, cur, k + 1) == After(g, cur - 1, k)
    ensures !HeldOrSuspended(g.state[cur]) ==>
        var (h, n) := Step(g, cur); Turn(h, n) && After(g, cur, k + 1) == After(h, n, k)
  {
    if !HeldOrSuspended(g.state[cur]) {
      NextTurn(g, cur);
    }
  }

  lemma {:induction false} RunOne(g: System, cur: int)
    requires Turn(g, cur) && cur >= 0
    ensures HeldOrSuspended(g.state[cur]) ==> Turn(g, cur - 1) && Run(g, cur) == Run(g, cur - 1)
    ensures !HeldOrSuspended(g.state[cur]) ==> var (h, n) := Step(g, cur); Turn(h, n) && Run(g, cur) == Run(h, n)
  {
    if !HeldOrSuspended(g.state[cur]) {
      NextTurn(g, cur);
    }
  }

  lemma AfterNone(g: System, cur: int, k: nat)
    requires Turn(g, cur) && (k == 0 || cur < 0)
    ensures After(g, cur, k) == (g, cur)
  {
  }

  /** The run goes on from there to the same end. */
  lemma {:induction false} AfterRuns(g: System, cur: int, k: nat)
    requires Turn(g, cur)
    ensures Run(After(g, cur, k).0, After(g, cur, k).1) == Run(g, cur)
    decreases k
  {
    hide Step, Run, Invariant, After, Listed;
    if k == 0 || cur < 0 {
      AfterNone(g, cur, k);
    } else {
      AfterOne(g, cur, k - 1);
      RunOne(g, cur);
      if HeldOrSuspended(g.state[cur]) {
        AfterRuns(g, cur - 1, k - 1);
      } else {
        NextTurn(g, cur);
        var (h, n) := Step(g, cur);
        AfterRuns(h, n, k - 1);
      }
    }
  }

  ghost predicate Seeded(g: System) {
    0 < g.seed < 0x1_0000
  }

  lemma {:induction false} StepSeeded(g: System, j: int)
    requires CanRun(g, j) && Seeded(g)
    ensures Seeded(Step(g, j).0)
  {
    if j == ID_IDLE {
      IdleReleases(g);
      SeedLasts(g.seed);
    } else {
      StepUntouched(g, j, if j == ID_DEVICE_A then ID_DEVICE_B else ID_DEVICE_A);
    }
  }

  /** In every reachable state the seed is a 16-bit word other than zero. */
  lemma {:induction false} AlwaysSeeded(g: System, cur: int, k: nat)
    requires Turn(g, cur) && Seeded(g)
    ensures Seeded(After(g, cur, k).0)
    decreases k
  {
    if k > 0 && cur >= 0 {
      if HeldOrSuspended(g.state[cur]) {
        AlwaysSeeded(g, cur - 1, k - 1);
      } else {
        NextTurn(g, cur);
        StepSeeded(g, cur);
        AlwaysSeeded(Step(g, cur).0, Step(g, cur).1, k - 1);
      }
    }
  }

  // ----- A packet gets away from its device -----

  /** Before w more runs of the idle task are over, device i is released, if it is not already. */
  predicate ReleasedWithin(g: System, i: int, w: nat)
    requires |g.state| == NUMBER_OF_IDS && IsDevice(i)
  {
    g.state[i].held ==> w > 0 && Due(i == ID_DEVICE_B, g.seed, w - 1)
  }

  lemma {:induction false} NextWait(g: System, i: int, p: Packet, w: nat) returns (w': nat)
    requires CanRun(g, ID_IDLE) && IsDevice(i) && In(g, Slot(i)) == [p] && ReleasedWithin(g, i, w) && g.count > w
    ensures var h := Step(g, ID_IDLE).0;
      |h.state| == NUMBER_OF_IDS && ReleasedWithin(h, i, w') && w' < w && In(h, Slot(i)) == [p] && h.count > w'
  {
    IdleReleases(g);
    assert g.state[i].held;
    if Bit(g.seed, 0) == (i == ID_DEVICE_B) {
      w' := 0;
    } else {
      DueSooner(i == ID_DEVICE_B, g.seed, w - 1);
      w' := w - 1;
    }
  }

  /** The packet p from the slot of device i has got to its handler while enough of the count is left. */
  ghost predicate GotAway(h: System, i: int, p: Packet, count: int) {
    p in h.where && h.where[p] == Queue(i - 2) && In(h, Slot(i)) == [] && h.count >= count
  }

  lemma {:induction false} SomeTaskRuns(g: System, cur: int)
    requires Turn(g, cur) && g.count > 0
    ensures cur >= 0 && |g.state| == NUMBER_OF_IDS
  {
  }

  /** What one turn does to a full slot: the packet gets away, or it comes closer to that. */
  lemma {:induction false} SlotTurn(g: System, cur: int, i: int, p: Packet, w: nat) returns (w': nat)
    requires Turn(g, cur) && cur >= 0 && !HeldOrSuspended(g.state[cur])
    requires IsDevice(i) && In(g, Slot(i)) == [p] && ReleasedWithin(g, i, w) && g.count > w
    ensures var h := Step(g, cur).0;
      if cur == i then GotAway(h, i, p, g.count)
      else
        && |h.state| == NUMBER_OF_IDS && In(h, Slot(i)) == [p] && ReleasedWithin(h, i, w')
        && h.count > w' && h.count - w' >= g.count - w
  {
    w' := w;
    if cur == i {
      DeviceSends(g, i, p);
    } else if cur == ID_IDLE {
      IdleReleases(g);
      w' := NextWait(g, i, p, w);
    } else {
      StepUntouched(g, cur, i);
      StepDecreases(g, cur);
    }
  }

  /** From a full slot of device i the packet gets to the handler before w runs of the idle task are over. */
  lemma {:induction false} GetsAway(g: System, cur: int, i: int, p: Packet, w: nat) returns (k: nat)
    requires Turn(g, cur) && |g.state| == NUMBER_OF_IDS
    requires IsDevice(i) && In(g, Slot(i)) == [p] && ReleasedWithin(g, i, w) && g.count > w
    ensures GotAway(After(g, cur, k).0, i, p, g.count - w)
    decreases g.count, Measure(g), cur + 1
  {
    hide Step, Invariant, After, Listed, ReleasedWithin, In;
    SomeTaskRuns(g, cur);
    if HeldOrSuspended(g.state[cur]) {
      AfterOne(g, cur, 0);
      k := GetsAway(g, cur - 1, i, p, w);
      AfterOne(g, cur, k);
      k := k + 1;
      return;
    }
    NextTurn(g, cur);
    var (h, n) := Step(g, cur);
    var w' := SlotTurn(g, cur, i, p, w);
    k := 0;
    if cur == i {
      AfterNone(h, n, k);
    } else {
      k := GetsAway(h, n, i, p, w');
    }
    AfterOne(g, cur, k);
    k := k + 1;
  }

  /** Wherever the run has got to, while 18 runs of the idle task are left no packet stays in a slot: it is on its way
      back to the handler before 17 of them are over. */
  lemma {:induction false} SlotsEmpty(g: System, cur: int, i: int, p: Packet) returns (k: nat)
    requires Turn(g, cur) && Seeded(g) && |g.state| == NUMBER_OF_IDS
    requires IsDevice(i) && In(g, Slot(i)) == [p] && g.count >= 18
    ensures GotAway(After(g, cur, k).0, i, p, g.count - 17)
  {
    AlwaysDue(i == ID_DEVICE_B, g.seed);
    k := GetsAway(g, cur, i, p, 17);
  }
}
