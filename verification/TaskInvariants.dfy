/** Every run of a task keeps the invariant of the system and strict priority. */
module TaskInvariants {
  import opened Packets
  import opened TaskSystem

  // ----- Moving one packet -----

  type Where = map<Packet, Place>

  /** Taking the first packet p of a place, the rest being t. */
  ghost predicate Taken(l: Lists, a: Place, p: Packet, t: seq<Packet>, l': Lists) {
    && a != Hand && At(l, a) == [p] + t && At(l, Hand) == []
    && At(l', a) == t && At(l', Hand) == [p]
    && forall b {:trigger At(l', b)} :: b != a && b != Hand ==> At(l', b) == At(l, b)
  }

  /** h is g after the first packet p of a has come to hand. */
  ghost predicate Takes(g: System, a: Place, p: Packet, h: System) {
    && In(g, a) != [] && p == In(g, a)[0] && Taken(g.lists, a, p, In(g, a)[1..], h.lists)
    && h.where == g.where[p := Hand] && h.info == g.info && h.state == g.state && h.all == g.all
    && h.count == g.count && h.toHandler == g.toHandler && h.letter == g.letter
    && h.queued == g.queued && h.holds == g.holds
  }

  lemma {:induction false} TakeIs(g: System, a: Place)
    requires In(g, a) != [] && a != Hand && In(g, Hand) == []
    ensures Takes(g, a, In(g, a)[0], Take(g, a))
  {}

  lemma {:induction false} TakenLocated(l: Lists, w: Where, a: Place, p: Packet, t: seq<Packet>, l': Lists)
    requires Located(l, w) && NoDuplicates(At(l, a)) && Taken(l, a, p, t, l')
    ensures Located(l', w[p := Hand])
  {
    assert At(l, a)[0] == p;
    forall b, k | 0 <= k < |At(l', b)| ensures At(l', b)[k] in w[p := Hand] && w[p := Hand][At(l', b)[k]] == b {
      if b == a { assert At(l, a)[k + 1] == t[k]; }
      else if b != Hand { assert At(l', b)[k] == At(l, b)[k]; }
    }
  }

  lemma {:induction false} TakenOnce(l: Lists, a: Place, p: Packet, t: seq<Packet>, l': Lists)
    requires Once(l) && Taken(l, a, p, t, l')
    ensures Once(l')
  {
    forall b ensures NoDuplicates(At(l', b)) {
      assert NoDuplicates(At(l, b)) && NoDuplicates(At(l, a));
      if b == a {
        forall i, j | 0 <= i < j < |t| ensures t[i] != t[j] {
          assert At(l, a)[i + 1] == t[i] && At(l, a)[j + 1] == t[j];
        }
      }
    }
  }

  lemma {:induction false} TakenFound(l: Lists, w: Where, a: Place, p: Packet, t: seq<Packet>, l': Lists)
    requires Found(l, w) && Taken(l, a, p, t, l')
    ensures Found(l', w[p := Hand])
  {
    var w' := w[p := Hand];
    forall q | q in w' ensures q in At(l', w'[q]) {
      if q != p {
        assert q in At(l, w[q]);
        if w[q] == a { assert q in t; }
      }
    }
  }

  lemma {:induction false} TakePlaced(g: System, a: Place, p: Packet, h: System)
    requires Placed(g.lists, g.where) && Takes(g, a, p, h)
    ensures Placed(h.lists, h.where)
  {
    TakenLocated(g.lists, g.where, a, p, In(g, a)[1..], h.lists);
    TakenOnce(g.lists, a, p, In(g, a)[1..], h.lists);
    TakenFound(g.lists, g.where, a, p, In(g, a)[1..], h.lists);
  }

  /** Putting the packet p at hand at the end of a place. */
  ghost predicate Added(l: Lists, a: Place, p: Packet, l': Lists) {
    && a != Hand && At(l, Hand) == [p]
    && At(l', a) == At(l, a) + [p] && At(l', Hand) == []
    && forall b {:trigger At(l', b)} :: b != a && b != Hand ==> At(l', b) == At(l, b)
  }

  /** h is g after the packet p at hand has gone to the end of a. */
  ghost predicate Puts(g: System, a: Place, p: Packet, h: System) {
    Added(g.lists, a, p, h.lists) && h.where == g.where[p := a]
  }

  lemma {:induction false} PutIs(g: System, a: Place)
    requires |In(g, Hand)| == 1 && a != Hand
    ensures Puts(g, a, In(g, Hand)[0], Put(g, a))
  {}

  lemma {:induction false} AddedLocated(l: Lists, w: Where, a: Place, p: Packet, l': Lists)
    requires Located(l, w) && Added(l, a, p, l')
    ensures Located(l', w[p := a])
  {
    assert At(l, Hand)[0] in w && w[At(l, Hand)[0]] == Hand;
    forall b, k | 0 <= k < |At(l', b)| ensures At(l', b)[k] in w[p := a] && w[p := a][At(l', b)[k]] == b {
      if b == a {
        if k < |At(l, a)| { assert At(l', a)[k] == At(l, a)[k] && At(l, a)[k] in w; }
      } else {
        assert At(l', b)[k] == At(l, b)[k] && At(l, b)[k] in w && w[At(l, b)[k]] == b;
      }
    }
  }

  lemma {:induction false} AddedOnce(l: Lists, w: Where, a: Place, p: Packet, l': Lists)
    requires Located(l, w) && Once(l) && Added(l, a, p, l')
    ensures Once(l')
  {
    assert At(l, Hand)[0] == p;
    forall b ensures NoDuplicates(At(l', b)) {
      assert NoDuplicates(At(l, b)) && NoDuplicates(At(l, a));
      if b == a {
        forall i, j | 0 <= i < j < |At(l', a)| ensures At(l', a)[i] != At(l', a)[j] {
          assert At(l', a)[i] == At(l, a)[i];
          if j < |At(l, a)| { assert At(l', a)[j] == At(l, a)[j]; } else { assert w[At(l, a)[i]] == a; }
        }
      }
    }
  }

  lemma {:induction false} AddedFound(l: Lists, w: Where, a: Place, p: Packet, l': Lists)
    requires Found(l, w) && Added(l, a, p, l')
    ensures Found(l', w[p := a])
  {
    var w' := w[p := a];
    forall q | q in w' ensures q in At(l', w'[q]) {
      if q == p {
        assert At(l', a)[|At(l, a)|] == p;
      } else {
        assert q in At(l, w[q]);
      }
    }
  }

  lemma {:induction false} PutPlaced(g: System, a: Place, p: Packet, h: System)
    requires Placed(g.lists, g.where) && Puts(g, a, p, h)
    ensures Placed(h.lists, h.where)
  {
    AddedLocated(g.lists, g.where, a, p, h.lists);
    AddedOnce(g.lists, g.where, a, p, h.lists);
    AddedFound(g.lists, g.where, a, p, h.lists);
  }

  /** What is known of a packet that lies somewhere. */
  lemma {:induction false} FirstOf(g: System, a: Place)
    requires Placed(g.lists, g.where) && AllAllowed(g.where, g.info) && In(g, a) != []
    ensures In(g, a)[0] in g.where && g.where[In(g, a)[0]] == a && In(g, a)[0] in g.info
    ensures Allowed(In(g, a)[0].kind, g.info[In(g, a)[0]], a)
    ensures In(g, a)[0].kind == KIND_WORK || In(g, a)[0].kind == KIND_DEVICE
  {
    var p := At(g.lists, a)[0];
    assert p in g.where && g.where[p] == a;
    KindKnown(p.kind, g.info[p], a);
  }

  lemma {:induction false} KindKnown(kind: int, d: Info, a: Place)
    requires Allowed(kind, d, a)
    ensures kind == KIND_WORK || kind == KIND_DEVICE
  {}

  lemma {:induction false} MovedAllowed(w: Where, info: map<Packet, Info>, p: Packet, d: Info, a: Place)
    requires AllAllowed(w, info) && p in w && Allowed(p.kind, d, a)
    ensures AllAllowed(w[p := a], info[p := d])
  {}

  /** Taking from a place that is not a queue. */
  lemma {:induction false} TakeKeeps(g: System, a: Place, p: Packet, h: System)
    requires Consistent(g) && !a.Queue? && Takes(g, a, p, h)
    ensures Consistent(h) && In(h, Hand) == [p]
  {
    TakePlaced(g, a, p, h);
    FirstOf(g, a);
    PlaceAllowed(g.where, g.info, p, Hand);
    TakenMirrored(g.state, g.lists, a, p, In(g, a)[1..], h.lists);
    TakenSlots(g.state, g.lists, a, p, In(g, a)[1..], h.lists);
  }

  lemma {:induction false} PlaceAllowed(w: Where, info: map<Packet, Info>, p: Packet, a: Place)
    requires AllAllowed(w, info) && p in w && Allowed(p.kind, info[p], a)
    ensures AllAllowed(w[p := a], info)
  {}

  lemma {:induction false} TakenMirrored(state: seq<State>, l: Lists, a: Place, p: Packet, t: seq<Packet>, l': Lists)
    requires Mirrored(state, l) && !a.Queue? && Taken(l, a, p, t, l')
    ensures Mirrored(state, l')
  {}

  lemma {:induction false} AddedMirrored(state: seq<State>, l: Lists, a: Place, p: Packet, l': Lists)
    requires Mirrored(state, l) && !a.Queue? && Added(l, a, p, l')
    ensures Mirrored(state, l')
  {}

  lemma {:induction false} TakenSlots(state: seq<State>, l: Lists, a: Place, p: Packet, t: seq<Packet>, l': Lists)
    requires SlotsFree(state, l) && Taken(l, a, p, t, l')
    ensures SlotsFree(state, l')
  {}

  /** Putting into a list of a handler or into a slot that is free, the device not being suspended. */
  lemma {:induction false} PutKeeps(g: System, a: Place, p: Packet, h: System)
    requires Consistent(g) && !a.Queue? && Puts(g, a, p, h) && p in g.info && Allowed(p.kind, g.info[p], a)
    requires a.Slot? && 0 <= a.id < NUMBER_OF_IDS ==> In(g, a) == [] && !g.state[a.id].suspended
    requires h.info == g.info && h.state == g.state && h.toHandler == g.toHandler && h.letter == g.letter
    ensures Consistent(h) && In(h, Hand) == []
  {
    PutPlaced(g, a, p, h);
    FirstOf(g, Hand);
    PlaceAllowed(g.where, g.info, p, a);
    AddedMirrored(g.state, g.lists, a, p, h.lists);
    AddedSlots(g.state, g.lists, a, p, h.lists);
  }

  lemma {:induction false} AddedSlots(state: seq<State>, l: Lists, a: Place, p: Packet, l': Lists)
    requires SlotsFree(state, l) && Added(l, a, p, l')
    requires a.Slot? && 0 <= a.id < NUMBER_OF_IDS ==> At(l, a) == [] && !state[a.id].suspended
    ensures SlotsFree(state, l')
  {}

  // ----- The start of a run -----

  /** A suspended task with packets takes the first of them. */
  lemma {:induction false} BeginKeeps(g: System, i: int, p: Packet, k: System, h: System)
    requires Invariant(g) && 0 <= i < NUMBER_OF_IDS && Takes(g, Queue(i), p, k)
    requires h == SetState(k, i, if |In(g, Queue(i))| == 1 then STATE_RUNNING else STATE_RUNNABLE)
    ensures Consistent(h) && !h.state[i].suspended && In(h, Hand) == [p]
  {
    TakePlaced(g, Queue(i), p, k);
    FirstOf(g, Queue(i));
    PlaceAllowed(g.where, g.info, p, Hand);
    BeginMirrored(g.state, g.lists, i, p, In(g, Queue(i))[1..], k.lists);
  }

  lemma {:induction false} BeginMirrored(state: seq<State>, l: Lists, i: int, p: Packet, t: seq<Packet>, l': Lists)
    requires Mirrored(state, l) && SlotsFree(state, l) && 0 <= i < NUMBER_OF_IDS && Taken(l, Queue(i), p, t, l')
    ensures var s := state[i := if t == [] then STATE_RUNNING else STATE_RUNNABLE];
      Mirrored(s, l') && SlotsFree(s, l') && !s[i].suspended
  {}

  // ----- How a run ends -----

  /** A new state of one task that keeps its runnable bit, and clears or keeps the suspended bit of a
      device whose slot is full. */
  lemma {:induction false} StateKeeps(state: seq<State>, l: Lists, i: int, s: State)
    requires Mirrored(state, l) && SlotsFree(state, l) && 0 <= i < NUMBER_OF_IDS
    requires s.runnable == state[i].runnable
    requires IsDevice(i) ==> s.suspended == state[i].suspended || At(l, Slot(i)) == []
    ensures Mirrored(state[i := s], l) && SlotsFree(state[i := s], l)
  {}

  lemma {:induction false} SuspendKeeps(g: System, i: int)
    requires Invariant(g) && Quiet(g.state, i) && 0 < i < NUMBER_OF_IDS && (IsDevice(i) ==> In(g, Slot(i)) == [])
    ensures var (h, n) := Suspend(g, i); Invariant(h) && Quiet(h.state, n)
  {
    StateKeeps(g.state, g.lists, i, g.state[i].(suspended := true));
  }

  lemma {:induction false} HoldKeeps(g: System, i: int)
    requires Consistent(g) && In(g, Hand) == [] && Quiet(g.state, i) && 0 <= i < NUMBER_OF_IDS
    requires if i == ID_IDLE then g.state[i] == STATE_RUNNING && g.count == 0 else IdleCounts(g.state[ID_IDLE], g.count)
    ensures var (h, n) := HoldCurrent(g, i); Invariant(h) && Quiet(h.state, n)
  {
    StateKeeps(g.state, g.lists, i, g.state[i].(held := true));
  }

  lemma {:induction false} ReleaseKeeps(g: System, i: int)
    requires Invariant(g) && Quiet(g.state, ID_IDLE) && IsDevice(i)
    ensures var (h, n) := Release(g, i, ID_IDLE); Invariant(h) && Quiet(h.state, n)
  {
    StateKeeps(g.state, g.lists, i, g.state[i].(held := false));
  }

  /** h is g after the packet p at hand has been queued to task i. */
  ghost predicate Sends(g: System, cur: int, p: Packet, i: int, h: System) {
    && p in g.info && 0 <= i < |g.state| && g.info[p].id == i && Puts(g, Queue(i), p, h)
    && h.info == g.info[p := g.info[p].(id := cur)]
    && h.state == g.state[i := if In(g, Queue(i)) == [] then g.state[i].(runnable := true) else g.state[i]]
    && h.all == g.all && h.count == g.count && h.seed == g.seed && h.toHandler == g.toHandler && h.letter == g.letter
    && h.queued == g.queued + 1 && h.holds == g.holds
  }

  lemma {:induction false} SendIs(g: System, cur: int)
    requires |In(g, Hand)| == 1 && Sendable(g)
    ensures var p := In(g, Hand)[0]; Sends(g, cur, p, g.info[p].id, Send(g, cur).0)
  {
    PutIs(g, Queue(g.info[In(g, Hand)[0]].id));
  }

  /** Sending the packet at hand: the destination becomes runnable exactly when it had nothing queued. */
  lemma {:induction false} SendKeeps(g: System, cur: int, p: Packet, i: int, h: System)
    requires Consistent(g) && Sends(g, cur, p, i, h) && i != ID_IDLE && Allowed(p.kind, g.info[p].(id := cur), Queue(i))
    ensures Consistent(h) && In(h, Hand) == [] && h.state[ID_IDLE] == g.state[ID_IDLE]
  {
    PutPlaced(g, Queue(i), p, h);
    FirstOf(g, Hand);
    MovedAllowed(g.where, g.info, p, g.info[p].(id := cur), Queue(i));
    SendMirrored(g.state, g.lists, i, p, h.lists);
  }

  /** The task to run next is the highest that is neither held nor suspended, as far as the sender can know. */
  lemma {:induction false} SendQuiet(g: System, cur: int, p: Packet, i: int, h: System)
    requires Sends(g, cur, p, i, h) && Quiet(g.state, cur) && 0 < cur && Mirrored(g.state, g.lists)
    ensures Quiet(h.state, if In(g, Queue(i)) == [] && i > cur then i else cur)
  {}

  lemma {:induction false} SendMirrored(state: seq<State>, l: Lists, i: int, p: Packet, l': Lists)
    requires Mirrored(state, l) && SlotsFree(state, l) && 0 <= i < NUMBER_OF_IDS && Added(l, Queue(i), p, l')
    ensures var s := state[i := if At(l, Queue(i)) == [] then state[i].(runnable := true) else state[i]];
      Mirrored(s, l') && SlotsFree(s, l')
  {}
}
