/** The task system as a state machine: what one run of a task does to the states of the tasks and to the
    places of the packets. */
module TaskSystem {
  import opened Packets

  const ID_IDLE := 0
  const ID_WORKER := 1
  const ID_HANDLER_A := 2
  const ID_HANDLER_B := 3
  const ID_DEVICE_A := 4
  const ID_DEVICE_B := 5
  const NUMBER_OF_IDS := 6

  const KIND_DEVICE := 0
  const KIND_WORK := 1

  /** The state word of a task: its bits 1, 2 and 4. */
  datatype State = State(runnable: bool, suspended: bool, held: bool)

  const STATE_RUNNING := State(false, false, false)
  const STATE_RUNNABLE := State(true, false, false)
  const STATE_SUSPENDED := State(false, true, false)
  const STATE_SUSPENDED_RUNNABLE := State(true, true, false)
  const STATE_HELD := State(false, false, true)

  predicate IsHandler(i: int) {
    i == ID_HANDLER_A || i == ID_HANDLER_B
  }

  predicate IsDevice(i: int) {
    i == ID_DEVICE_A || i == ID_DEVICE_B
  }

  predicate HeldOrSuspended(s: State) {
    s.held || s == STATE_SUSPENDED
  }

  // ----- The state -----

  /** Where a packet can be: the queue of a task, one of the two lists of a handler, the slot of a
      device, or in the hands of the task that is running. */
  datatype Place = Queue(id: int) | Works(id: int) | Parts(id: int) | Slot(id: int) | Hand

  /** The data of a packet that change. */
  datatype Info = Info(id: int, a1: int, a2: seq<int>)

  type Lists = map<Place, seq<Packet>>

  ghost function At(l: Lists, a: Place): seq<Packet> {
    if a in l then l[a] else []
  }

  /** The states of the tasks, where the packets are and in what order, their data, the fields of the idle task and of
      the worker, and how often a packet was queued and a task held. All the packets there are, in some order, are
      listed in all. */
  datatype System = System(
    all: seq<Packet>,
    state: seq<State>,
    lists: Lists,
    where: map<Packet, Place>,
    info: map<Packet, Info>,
    count: int, seed: nat, toHandler: int, letter: int,
    queued: int, holds: int)

  ghost function In(g: System, a: Place): seq<Packet> {
    At(g.lists, a)
  }

  // ----- Operations -----

  ghost function SetState(g: System, i: int, s: State): System
    requires 0 <= i < |g.state|
  {
    g.(state := g.state[i := s])
  }

  /** The first packet of a place comes to hand. */
  ghost function Take(g: System, a: Place): System
    requires In(g, a) != []
  {
    var l := In(g, a);
    g.(lists := g.lists[a := l[1..]][Hand := [l[0]]], where := g.where[l[0] := Hand])
  }

  /** The packet at hand goes to the end of a place. */
  ghost function Put(g: System, a: Place): System
    requires In(g, Hand) != []
  {
    var p := In(g, Hand)[0];
    g.(lists := g.lists[a := In(g, a) + [p]][Hand := []], where := g.where[p := a])
  }

  /** Before a task runs: a suspended task with packets takes the first of them. */
  ghost function Begin(g: System, i: int): System
    requires 0 <= i < |g.state|
    requires g.state[i] == STATE_SUSPENDED_RUNNABLE ==> In(g, Queue(i)) != []
  {
    if g.state[i] == STATE_SUSPENDED_RUNNABLE then
      SetState(Take(g, Queue(i)), i, if |In(g, Queue(i))| == 1 then STATE_RUNNING else STATE_RUNNABLE)
    else g
  }

  ghost function Suspend(g: System, i: int): (System, int)
    requires 0 <= i < |g.state|
  {
    (SetState(g, i, g.state[i].(suspended := true)), i)
  }

  ghost function HoldCurrent(g: System, i: int): (System, int)
    requires 0 <= i < |g.state|
  {
    (SetState(g.(holds := g.holds + 1), i, g.state[i].(held := true)), i - 1)
  }

  ghost function Release(g: System, i: int, cur: int): (System, int)
    requires 0 <= i < |g.state|
  {
    (SetState(g, i, g.state[i].(held := false)), if i > cur then i else cur)
  }

  /** The packet at hand has a destination. */
  ghost predicate Sendable(g: System) {
    In(g, Hand) != [] && In(g, Hand)[0] in g.info && 0 <= g.info[In(g, Hand)[0]].id < |g.state|
  }

  /** Queue the packet at hand to the task it names, with the running task as its sender. A task that had
      nothing queued becomes runnable, and runs next if its priority is higher. */
  ghost function Send(g: System, cur: int): (System, int)
    requires Sendable(g)
  {
    var p := In(g, Hand)[0];
    var to := g.info[p].id;
    var h := Put(g.(info := g.info[p := g.info[p].(id := cur)], queued := g.queued + 1), Queue(to));
    var s := if In(g, Queue(to)) == [] then g.state[to].(runnable := true) else g.state[to];
    (SetState(h, to, s), if In(g, Queue(to)) == [] && to > cur then to else cur)
  }

  // ----- Tasks -----

  /** The i-th letter after v, counting from 1 to 26 and around. */
  function Letter(v: int, i: int): int {
    (v + i) % 26 + 1
  }

  function Letters(v: int): seq<int> {
    [Letter(v, 0), Letter(v, 1), Letter(v, 2), Letter(v, 3)]
  }

  function OtherHandler(i: int): int {
    if i == ID_HANDLER_A then ID_HANDLER_B else ID_HANDLER_A
  }

  /** The packet at hand filled with the next letters and addressed to the other handler. */
  ghost function Filled(g: System): System
    requires In(g, Hand) != []
  {
    var to := OtherHandler(g.toHandler);
    g.(toHandler := to, letter := Letter(g.letter, 3), info := g.info[In(g, Hand)[0] := Info(to, 0, Letters(g.letter))])
  }

  ghost function WorkerRun(g: System): (System, int)
    requires |g.state| == NUMBER_OF_IDS
  {
    if In(g, Hand) == [] then Suspend(g, ID_WORKER) else Send(Filled(g), ID_WORKER)
  }

  /** The packet at hand joins one of the lists of the handler. */
  ghost function Sorted(g: System, i: int): System {
    if In(g, Hand) == [] then g
    else Put(g, if In(g, Hand)[0].kind == KIND_WORK then Works(i) else Parts(i))
  }

  /** The next letter of the first work packet goes out with the first device packet. */
  ghost function Copied(g: System, i: int): System
    requires In(g, Works(i)) != [] && In(g, Works(i))[0] in g.info && In(g, Parts(i)) != []
    requires In(g, Parts(i))[0] in g.info && In(g, Works(i))[0] != In(g, Parts(i))[0]
    requires 0 <= g.info[In(g, Works(i))[0]].a1 < |g.info[In(g, Works(i))[0]].a2|
  {
    var w, v := In(g, Works(i))[0], In(g, Parts(i))[0];
    var n := g.info[w].a1;
    g.(info := g.info[v := g.info[v].(a1 := g.info[w].a2[n])][w := g.info[w].(a1 := n + 1)])
  }

  ghost predicate Copyable(g: System, i: int) {
    && In(g, Works(i)) != [] && In(g, Works(i))[0] in g.info && In(g, Parts(i)) != []
    && In(g, Parts(i))[0] in g.info && In(g, Works(i))[0] != In(g, Parts(i))[0]
    && 0 <= g.info[In(g, Works(i))[0]].a1 < |g.info[In(g, Works(i))[0]].a2|
  }

  datatype Choice = Wait | CopyOne | GiveBack

  /** What a handler does once its lists are up to date. */
  ghost function Chosen(g: System, i: int): Choice
    requires In(g, Works(i)) != [] ==> In(g, Works(i))[0] in g.info
  {
    if In(g, Works(i)) == [] then Wait
    else if g.info[In(g, Works(i))[0]].a1 >= DATA_SIZE then GiveBack
    else if In(g, Parts(i)) == [] then Wait
    else CopyOne
  }

  ghost predicate HandlerReady(g: System, i: int) {
    && 0 <= i < |g.state| && (In(g, Works(i)) != [] ==> In(g, Works(i))[0] in g.info)
    && (Chosen(g, i).CopyOne? ==> Copyable(g, i) && Sendable(Take(Copied(g, i), Parts(i))))
    && (Chosen(g, i).GiveBack? ==> Sendable(Take(g, Works(i))))
  }

  ghost function HandlerActs(g: System, i: int): (System, int)
    requires HandlerReady(g, i)
  {
    match Chosen(g, i)
    case Wait => Suspend(g, i)
    case CopyOne => Send(Take(Copied(g, i), Parts(i)), i)
    case GiveBack => Send(Take(g, Works(i)), i)
  }

  ghost function DeviceRun(g: System, i: int): (System, int)
    requires 0 <= i < |g.state|
    requires In(g, Hand) == [] && In(g, Slot(i)) != [] ==> Sendable(Take(g, Slot(i)))
  {
    if In(g, Hand) != [] then HoldCurrent(Put(g, Slot(i)), i)
    else if In(g, Slot(i)) == [] then Suspend(g, i)
    else Send(Take(g, Slot(i)), i)
  }

  /** x ^ y on non-negative words. */
  function Xor(x: nat, y: nat): nat {
    if x == 0 then y
    else if y == 0 then x
    else (x % 2 + y % 2) % 2 + 2 * Xor(x / 2, y / 2)
  }

  ghost function IdleRun(g: System): (System, int)
    requires |g.state| == NUMBER_OF_IDS
  {
    var h := g.(count := g.count - 1);
    if h.count == 0 then HoldCurrent(h, ID_IDLE)
    else if g.seed % 2 == 0 then Release(h.(seed := g.seed / 2), ID_DEVICE_A, ID_IDLE)
    else Release(h.(seed := Xor(g.seed / 2, 0xD008)), ID_DEVICE_B, ID_IDLE)
  }

  // ----- What holds between any two runs -----

  /** The map says where each listed packet is. */
  ghost predicate Located(l: Lists, w: map<Packet, Place>) {
    forall a, k {:trigger w[At(l, a)[k]]} {:trigger At(l, a)[k] in w} :: 0 <= k < |At(l, a)| ==>
      At(l, a)[k] in w && w[At(l, a)[k]] == a
  }

  ghost predicate Once(l: Lists) {
    forall a {:trigger NoDuplicates(At(l, a))} :: NoDuplicates(At(l, a))
  }

  ghost predicate Found(l: Lists, w: map<Packet, Place>) {
    forall p :: p in w ==> p in At(l, w[p])
  }

  /** The packets of the map are those of the list. */
  ghost predicate Listed(all: seq<Packet>, w: map<Packet, Place>) {
    NoDuplicates(all) && (forall p :: p in all ==> p in w) && (forall p :: p in w ==> p in all)
  }

  /** Every packet is in exactly one place, once. */
  ghost predicate Placed(l: Lists, w: map<Packet, Place>) {
    Located(l, w) && Once(l) && Found(l, w)
  }

  /** The runnable bit says that the queue is not empty. */
  ghost predicate Mirrored(state: seq<State>, l: Lists) {
    && |state| == NUMBER_OF_IDS
    && forall i :: 0 <= i < NUMBER_OF_IDS ==> (state[i].runnable <==> At(l, Queue(i)) != [])
  }

  predicate AreLetters(s: seq<int>) {
    |s| == DATA_SIZE && forall k :: 0 <= k < DATA_SIZE ==> 1 <= s[k] <= 26
  }

  /** A device packet is only ever at its device or its handler, a work packet at the worker or a handler;
      each names the task it goes to next. */
  predicate Allowed(kind: int, d: Info, a: Place) {
    match a
    case Queue(i) =>
      if kind == KIND_WORK then i == ID_WORKER || (IsHandler(i) && d.id == ID_WORKER && d.a1 == 0 && AreLetters(d.a2))
      else kind == KIND_DEVICE && ((IsHandler(i) && d.id == i + 2) || (IsDevice(i) && d.id == i - 2))
    case Works(i) =>
      kind == KIND_WORK && IsHandler(i) && d.id == ID_WORKER && 0 <= d.a1 <= DATA_SIZE && AreLetters(d.a2)
    case Parts(i) => kind == KIND_DEVICE && IsHandler(i) && d.id == i + 2
    case Slot(i) => kind == KIND_DEVICE && IsDevice(i) && d.id == i - 2
    case Hand => kind == KIND_WORK || kind == KIND_DEVICE
  }

  ghost predicate AllAllowed(w: map<Packet, Place>, info: map<Packet, Info>) {
    forall p :: p in w ==> p in info && Allowed(p.kind, info[p], w[p])
  }

  /** A slot holds at most one packet, and then its device is not suspended, so it is sent no other. */
  ghost predicate SlotsFree(state: seq<State>, l: Lists) {
    && |state| == NUMBER_OF_IDS
    && forall i :: IsDevice(i) ==> |At(l, Slot(i))| <= 1 && (At(l, Slot(i)) != [] ==> !state[i].suspended)
  }

  /** The idle task runs until its count is used up, then it is held for good. */
  ghost predicate IdleCounts(s: State, count: int) {
    (s == STATE_RUNNING && count >= 1) || (s == STATE_HELD && count == 0)
  }

  /** What holds all the time. */
  ghost predicate Consistent(g: System) {
    && Placed(g.lists, g.where) && Mirrored(g.state, g.lists) && AllAllowed(g.where, g.info)
    && SlotsFree(g.state, g.lists) && IsHandler(g.toHandler) && 0 <= g.letter <= 26
  }

  ghost predicate Invariant(g: System) {
    Consistent(g) && In(g, Hand) == [] && IdleCounts(g.state[ID_IDLE], g.count)
  }

  /** Strict priority: every task above the current one is held or suspended. */
  ghost predicate Quiet(state: seq<State>, cur: int) {
    |state| == NUMBER_OF_IDS && -1 <= cur < NUMBER_OF_IDS
    && forall i :: cur < i < NUMBER_OF_IDS ==> HeldOrSuspended(state[i])
  }
}
