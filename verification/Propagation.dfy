/** What the downstream propagation of stay flags and constant values keeps. */
module Propagation {
  import opened OrderedCollections
  import opened Constraints
  import opened PlanOrder

  /** An equality of a variable with itself. */
  predicate Reflexive(c: Constraint) {
    c.relation.Equality? && c.relation.v1 == c.relation.v2
  }

  /** A variable lists each constraint once, or for an equality with itself twice. */
  ghost predicate ListedOnce(list: seq<Constraint>) {
    forall i, j | 0 <= i < j < |list| && list[i] == list[j] :: Reflexive(list[i])
  }

  ghost predicate Distinct(list: seq<Constraint>) {
    forall i, j | 0 <= i < j < |list| :: list[i] != list[j]
  }

  /** The links of the graph are in order; the flags and values may not be. */
  ghost predicate Sound(vars: set<Variable>, cons: set<Constraint>)
    reads Lists(vars)`elms, vars`determinedBy, cons`satisfied, cons`direction
  {
    && Wired(vars, cons)
    && Determined(vars, cons)
    && (forall c | c in cons :: c.Variables() <= vars)
    && (forall v | v in vars :: ListedOnce(v.constraints.elms))
  }

  /** Flag and strength of the output are right, and a constant output has been computed. */
  ghost predicate Settled(c: Constraint)
    reads c`satisfied, c`direction, c.Variables()`stay, c.Variables()`value, c.Variables()`walkStrength
  {
    StayFlag(c) && StrengthRight(c) && (c.IsSatisfied() && c.Output().stay ==> c.Holds())
  }

  /** A graph between two calls of the planner. */
  ghost predicate Stable(vars: set<Variable>, cons: set<Constraint>)
    reads Lists(vars)`elms, vars`determinedBy, vars`stay, vars`value, vars`walkStrength, cons`satisfied, cons`direction
  {
    Sound(vars, cons) && forall c | c in cons :: c.Variables() <= vars && Settled(c)
  }

  lemma {:induction false} StableIsDataflow(vars: set<Variable>, cons: set<Constraint>)
    requires Stable(vars, cons)
    ensures Dataflow(vars, cons)
  {
  }

  /** The variable that d computes was reached from the output of c. */
  ghost predicate From(c: Constraint, d: Constraint, reached: set<Variable>)
    reads d`direction
  {
    d == c || (d.relation.Equality? && d.Input() in reached)
  }

  /** The list holds what is still to be recalculated, each constraint once. */
  ghost predicate Queued(todo: seq<Constraint>, c: Constraint, reached: set<Variable>, cons: set<Constraint>)
    reads cons`satisfied, cons`direction
  {
    && Distinct(todo)
    && (forall d | d in todo :: d in cons && d.IsSatisfied() && d.Output() !in reached && From(c, d, reached))
  }

  /** The reached variables form a tree below the output of c, and none carries the mark. */
  ghost predicate Tree(c: Constraint, reached: set<Variable>, mark: nat, vars: set<Variable>, cons: set<Constraint>)
    reads vars`determinedBy, vars`mark, cons`direction
  {
    && c in cons && reached <= vars
    && (c.relation.Equality? ==> c.Input() in vars && c.Input().mark == mark)
    && (forall v | v in reached :: v.mark != mark && v.determinedBy != null &&
          v.determinedBy in cons && From(c, v.determinedBy, reached))
  }

  /** The tree is complete up to the queue. */
  ghost predicate Covered(todo: seq<Constraint>, c: Constraint, reached: set<Variable>, cons: set<Constraint>)
    reads cons`satisfied, cons`direction
  {
    forall d | d in cons && d.IsSatisfied() && From(c, d, reached) :: d.Output() in reached || d in todo
  }

  /** Whatever is not settled is queued. */
  ghost predicate SettledBut(todo: seq<Constraint>, vars: set<Variable>, cons: set<Constraint>)
    reads cons`satisfied, cons`direction, vars`stay, vars`value, vars`walkStrength
  {
    forall d | d in cons :: d.Variables() <= vars && (Settled(d) || d in todo)
  }

  lemma {:induction false} DistinctTogether(a: seq<Constraint>, b: seq<Constraint>)
    requires Distinct(a) && Distinct(b) && forall e | e in b :: e !in a
    ensures Distinct(a + b)
  {
    var s := a + b;
    forall i, j | 0 <= i < j < |s| ensures s[i] != s[j] {
      assert i >= |a| ==> s[i] == b[i - |a|];
      assert j >= |a| ==> s[j] == b[j - |a|] && s[j] in b;
      assert i < |a| ==> s[i] == a[i] && s[i] in a;
    }
  }

  lemma {:induction false} ConsumingDistinct(list: seq<Constraint>, determining: Constraint?,
                                             satisfied: set<Constraint>)
    requires ListedOnce(list)
    requires forall d | d in list && d in satisfied && Reflexive(d) :: d == determining
    ensures Distinct(Consuming(list, determining, satisfied))
  {
    if list != [] {
      var n := |list| - 1;
      ConsumingDistinct(list[..n], determining, satisfied);
      ConsumingElements(list[..n], determining, satisfied);
      if list[n] != determining && list[n] in satisfied {
        assert list[n] !in list[..n];
      }
    }
  }

  /** A satisfied constraint listed by v, other than its determining one, reads v. */
  lemma {:induction false} ConsumersRead(v: Variable, vars: set<Variable>, cons: set<Constraint>)
    requires Sound(vars, cons) && v in vars
    ensures var list := Consuming(v.constraints.elms, v.determinedBy, Satisfied(cons));
      && Distinct(list)
      && (forall e | e in list :: e in cons && e.IsSatisfied() && e.relation.Equality? && e.Input() == v &&
            e.Output() != v)
      && (forall e | e in cons && e.IsSatisfied() && e.relation.Equality? && e.Input() == v && e.Output() != v ::
            e in list)
  {
    ConsumingElements(v.constraints.elms, v.determinedBy, Satisfied(cons));
    forall d | d in v.constraints.elms && d in Satisfied(cons) && Reflexive(d) ensures d == v.determinedBy {
      assert d.Output() == v;
    }
    ConsumingDistinct(v.constraints.elms, v.determinedBy, Satisfied(cons));
  }

  lemma {:induction false} RestOfQueue(todo: seq<Constraint>, d: Constraint, c: Constraint, reached: set<Variable>,
                                       vars: set<Variable>, cons: set<Constraint>)
    requires Sound(vars, cons) && Queued(todo + [d], c, reached, cons)
    ensures d in cons && d.IsSatisfied() && d.Output() in vars && d.Output() !in reached && From(c, d, reached)
    ensures Queued(todo, c, reached + {d.Output()}, cons)
    ensures forall e | e in todo :: From(c, e, reached)
  {
    var all := todo + [d];
    assert all[|todo|] == d && d in all;
    forall i, j | 0 <= i < j < |todo| ensures todo[i] != todo[j] {
      assert all[i] == todo[i] && all[j] == todo[j];
    }
    forall e | e in todo
      ensures e in cons && e.IsSatisfied() && From(c, e, reached) && e.Output() !in reached + {d.Output()}
    {
      var i :| 0 <= i < |todo| && todo[i] == e;
      assert all[i] == e && e in all;
      if e.Output() == d.Output() {
        OutputIsOwn(e, d, vars, cons);
      }
    }
  }

  /** What reads a variable reached for the first time is not in the queue and has a new output. */
  lemma {:induction false} NewReader(e: Constraint, d: Constraint, c: Constraint, reached: set<Variable>, mark: nat,
                                     vars: set<Variable>, cons: set<Constraint>)
    requires Sound(vars, cons) && Tree(c, reached, mark, vars, cons)
    requires d in cons && d.IsSatisfied() && d.Output() !in reached && d.Output().mark != mark
    requires e in cons && e.IsSatisfied() && e.relation.Equality? && e.Input() == d.Output() && e.Output() != d.Output()
    ensures !From(c, e, reached) && e.Output() !in reached + {d.Output()} && From(c, e, reached + {d.Output()})
  {
    assert e != c;
    assert e.Output().determinedBy == e;
  }

  lemma {:induction false} ReachQueue(todo: seq<Constraint>, d: Constraint, c: Constraint, reached: set<Variable>,
                                      mark: nat, vars: set<Variable>, cons: set<Constraint>)
    requires Sound(vars, cons) && Queued(todo + [d], c, reached, cons) && Tree(c, reached, mark, vars, cons)
    requires d.Output().mark != mark
    ensures var v := d.Output();
      Queued(todo + Consuming(v.constraints.elms, v.determinedBy, Satisfied(cons)), c, reached + {v}, cons)
  {
    var v := d.Output();
    RestOfQueue(todo, d, c, reached, vars, cons);
    var list := Consuming(v.constraints.elms, v.determinedBy, Satisfied(cons));
    ConsumersRead(v, vars, cons);
    forall e | e in list
      ensures e !in todo && e.Output() !in reached + {v} && From(c, e, reached + {v}) && e in cons && e.IsSatisfied()
    {
      NewReader(e, d, c, reached, mark, vars, cons);
    }
    DistinctTogether(todo, list);
  }

  lemma {:induction false} ReachTree(todo: seq<Constraint>, d: Constraint, c: Constraint, reached: set<Variable>,
                                     mark: nat, vars: set<Variable>, cons: set<Constraint>)
    requires Sound(vars, cons) && Queued(todo + [d], c, reached, cons) && Tree(c, reached, mark, vars, cons)
    requires Covered(todo + [d], c, reached, cons) && d.Output().mark != mark
    ensures var v := d.Output();
      && v in vars && v !in reached && Tree(c, reached + {v}, mark, vars, cons)
      && Covered(todo + Consuming(v.constraints.elms, v.determinedBy, Satisfied(cons)), c, reached + {v}, cons)
  {
    var v := d.Output();
    assert d in todo + [d];
    ConsumersRead(v, vars, cons);
  }

  /** Recalculating d can only upset what reads its output. */
  lemma {:induction false} OnlyReadersUpset(d: Constraint, e: Constraint, vars: set<Variable>, cons: set<Constraint>)
    requires Sound(vars, cons) && d in cons && d.IsSatisfied() && e in cons && e != d && e.IsSatisfied()
    ensures var v := d.Output();
      e.Output() != v &&
      (v in e.Variables() ==> e in Consuming(v.constraints.elms, v.determinedBy, Satisfied(cons)))
  {
    ConsumersRead(d.Output(), vars, cons);
    if e.Output() == d.Output() {
      OutputIsOwn(e, d, vars, cons);
    }
  }

  /** The constraints in more are all that could be upset by recalculating d. */
  ghost predicate Readers(d: Constraint, more: seq<Constraint>, cons: set<Constraint>)
    reads d`direction, cons`satisfied, cons`direction
  {
    forall e | e in cons && e != d && e.IsSatisfied() && d.Output() in e.Variables() :: e in more
  }

  lemma {:induction false} ConsumersAreReaders(d: Constraint, vars: set<Variable>, cons: set<Constraint>)
    requires Sound(vars, cons) && d in cons && d.IsSatisfied()
    ensures var v := d.Output();
      && v in vars && v.constraints in Lists(vars) && (forall e | e in v.constraints.elms :: e in cons)
      && Readers(d, Consuming(v.constraints.elms, v.determinedBy, Satisfied(cons)), cons)
  {
    forall e | e in cons && e != d && e.IsSatisfied() && d.Output() in e.Variables()
      ensures e in Consuming(d.Output().constraints.elms, d.Output().determinedBy, Satisfied(cons))
    {
      OnlyReadersUpset(d, e, vars, cons);
    }
  }

  /** A queued constraint whose output carries the mark closes a cycle, or meets a variable already dealt with. */
  ghost predicate MeetsMark(c: Constraint, reached: set<Variable>, mark: nat, vars: set<Variable>,
                            cons: set<Constraint>)
    reads vars`mark, cons`satisfied, cons`direction
  {
    exists d | d in cons :: d.IsSatisfied() && From(c, d, reached) && d.Output() in vars && d.Output().mark == mark
  }

  lemma {:induction false} MarkMet(d: Constraint, c: Constraint, reached: set<Variable>, mark: nat,
                                   vars: set<Variable>, cons: set<Constraint>)
    requires d in cons && d.IsSatisfied() && From(c, d, reached) && d.Output() in vars && d.Output().mark == mark
    ensures MeetsMark(c, reached, mark, vars, cons)
  {
  }

  /** A set of variables that nothing flows out of, with the output of c in it. */
  ghost predicate Enclosed(c: Constraint, within: set<Variable>, cons: set<Constraint>)
    reads c`direction, cons`satisfied, cons`direction
  {
    && c.Output() in within
    && forall d | d in cons && d.IsSatisfied() && d.relation.Equality? && d.Input() in within :: d.Output() in within
  }

  lemma {:induction false} StaysWithin(d: Constraint, c: Constraint, reached: set<Variable>, within: set<Variable>,
                                       cons: set<Constraint>)
    requires Enclosed(c, within, cons) && reached <= within && d in cons && d.IsSatisfied() && From(c, d, reached)
    ensures d.Output() in within
  {
  }

  /** What the work list of a propagation keeps. */
  ghost predicate Reaching(todo: seq<Constraint>, c: Constraint, reached: set<Variable>, within: set<Variable>,
                           mark: nat,
                           vars: set<Variable>, cons: set<Constraint>)
    reads vars`determinedBy, vars`mark, c`direction, cons`satisfied, cons`direction
  {
    && Queued(todo, c, reached, cons) && Tree(c, reached, mark, vars, cons) && Covered(todo, c, reached, cons)
    && (Enclosed(c, within, cons) ==> reached <= within)
  }

  lemma {:induction false} ReachStarts(c: Constraint, within: set<Variable>, mark: nat, vars: set<Variable>,
                                       cons: set<Constraint>)
    requires Sound(vars, cons) && c in cons && c.IsSatisfied()
    requires c.relation.Equality? ==> c.Input().mark == mark
    ensures Reaching([c], c, {}, within, mark, vars, cons) && [] + [c] == [c]
  {
    assert c in [c];
    assert c.relation.Equality? ==> c.Input() in c.Variables();
  }

  lemma {:induction false} ReachingParts(todo: seq<Constraint>, c: Constraint, reached: set<Variable>,
                                         within: set<Variable>, mark: nat, vars: set<Variable>, cons: set<Constraint>)
    requires Reaching(todo, c, reached, within, mark, vars, cons)
    ensures Tree(c, reached, mark, vars, cons) && Covered(todo, c, reached, cons)
    ensures Enclosed(c, within, cons) ==> reached <= within
  {
  }

  lemma {:induction false} NextReached(todo: seq<Constraint>, d: Constraint, c: Constraint, reached: set<Variable>,
                                       within: set<Variable>, mark: nat, vars: set<Variable>, cons: set<Constraint>)
    requires Sound(vars, cons) && Reaching(todo + [d], c, reached, within, mark, vars, cons)
    ensures d in cons && d.IsSatisfied() && d.Output() in vars && d.Output() !in reached && From(c, d, reached)
    ensures var v := d.Output();
      v.mark != mark ==>
        Reaching(todo + Consuming(v.constraints.elms, v.determinedBy, Satisfied(cons)), c, reached + {v}, within, mark,
                 vars, cons)
  {
    RestOfQueue(todo, d, c, reached, vars, cons);
    if d.Output().mark != mark {
      ReachQueue(todo, d, c, reached, mark, vars, cons);
      ReachTree(todo, d, c, reached, mark, vars, cons);
      if Enclosed(c, within, cons) {
        StaysWithin(d, c, reached, within, cons);
      }
    }
  }

  lemma {:induction false} MarkWithin(c: Constraint, reached: set<Variable>, within: set<Variable>, mark: nat,
                                      vars: set<Variable>, cons: set<Constraint>)
    requires Enclosed(c, within, cons) && reached <= within && MeetsMark(c, reached, mark, vars, cons)
    ensures exists v | v in within :: v in vars && v.mark == mark
  {
    var d: Constraint :| d in cons && d.IsSatisfied() && From(c, d, reached) && d.Output() in vars &&
      d.Output().mark == mark;
    assert d.Output() in within;
  }

  /** After a propagation that succeeded the output of c is one of the variables reached, and carries no mark yet. */
  lemma {:induction false} OutputReached(c: Constraint, reached: set<Variable>, mark: nat, vars: set<Variable>,
                                         cons: set<Constraint>)
    requires Tree(c, reached, mark, vars, cons) && Covered([], c, reached, cons) && c.IsSatisfied()
    ensures c.Output() in reached && c.Output().mark != mark
  {
    assert c in cons && From(c, c, reached);
  }

  lemma {:induction false} SettledIsStable(vars: set<Variable>, cons: set<Constraint>)
    requires Sound(vars, cons) && SettledBut([], vars, cons)
    ensures Stable(vars, cons)
  {
  }

  lemma {:induction false} StableIsSettled(vars: set<Variable>, cons: set<Constraint>)
    requires Stable(vars, cons)
    ensures Sound(vars, cons) && SettledBut([], vars, cons)
  {
  }

  lemma {:induction false} StableOutputs(vars: set<Variable>, cons: set<Constraint>)
    requires Stable(vars, cons)
    ensures forall e | e in cons && e.IsSatisfied() :: e.Output() in vars && e.Output().determinedBy == e
    ensures forall v | v in vars && v.determinedBy != null ::
        v.determinedBy.IsSatisfied() && v.determinedBy.Output() == v
  {
  }

  lemma {:induction false} StableSettled(c: Constraint, vars: set<Variable>, cons: set<Constraint>)
    requires Stable(vars, cons) && c in cons
    ensures Settled(c)
  {
  }

  lemma {:induction false} StableVariables(c: Constraint, vars: set<Variable>, cons: set<Constraint>)
    requires Stable(vars, cons) && c in cons
    ensures c.Variables() <= vars
  {
  }

  /** Stable but for c, which has chosen how to be enforced and does not determine its output yet. */
  ghost predicate Suspended(c: Constraint, vars: set<Variable>, cons: set<Constraint>)
    reads Lists(vars)`elms, vars`determinedBy, vars`stay, vars`value, vars`walkStrength
    reads (cons - {c})`satisfied, (cons - {c})`direction
  {
    && Wired(vars, cons)
    && Determined(vars, cons - {c})
    && (forall d | d in cons :: d.Variables() <= vars && (d == c || Settled(d)))
    && (forall v | v in vars :: ListedOnce(v.constraints.elms))
  }

  lemma {:induction false} SuspendedOrStable(c: Constraint, vars: set<Variable>, cons: set<Constraint>)
    requires c in cons && !c.IsSatisfied()
    ensures Stable(vars, cons) <==> Suspended(c, vars, cons)
  {
    if Suspended(c, vars, cons) {
      assert Settled(c) by { assert c.Variables() <= vars; }
      forall v | v in vars && v.determinedBy != null ensures v.determinedBy in cons {
        assert v.determinedBy in cons - {c};
      }
    }
    if Stable(vars, cons) {
      forall d | d in cons - {c} && d.IsSatisfied() ensures d.Output().determinedBy == d {
        assert d in cons;
      }
    }
  }

  lemma {:induction false} SuspendedOutput(c: Constraint, vars: set<Variable>, cons: set<Constraint>)
    requires Suspended(c, vars, cons) && c in cons
    ensures c.Output() in vars && (c.relation.Equality? ==> c.Input() in vars)
    ensures c.Output().determinedBy != null ==> c.Output().determinedBy in cons && c.Output().determinedBy != c
  {
    assert c.Output() in c.Variables();
    assert c.relation.Equality? ==> c.Input() in c.Variables();
    if c.Output().determinedBy != null {
      assert c.Output().determinedBy in cons - {c};
    }
  }

  /** As Suspended, once nothing else computes the output of c. */
  ghost predicate Vacated(c: Constraint, vars: set<Variable>, cons: set<Constraint>)
    reads Lists(vars)`elms, vars`determinedBy, vars`stay, vars`value, vars`walkStrength, c`direction
    reads cons`satisfied, cons`direction
  {
    && Wired(vars, cons)
    && (forall d | d in cons :: d.Variables() <= vars && (d == c || Settled(d)))
    && (forall v | v in vars :: ListedOnce(v.constraints.elms))
    && (forall d | d in cons && d != c && d.IsSatisfied() ::
          d.Output() in vars && d.Output() != c.Output() && d.Output().determinedBy == d)
    && (forall v | v in vars && v != c.Output() && v.determinedBy != null ::
          v.determinedBy in cons && v.determinedBy != c && v.determinedBy.IsSatisfied() && v.determinedBy.Output() == v)
  }

  /** No variable carries a mark above the given one. */
  ghost predicate MarksUpTo(mark: nat, vars: set<Variable>)
    reads vars`mark
  {
    forall v | v in vars :: v.mark <= mark
  }

  /** The next mark is new to all variables. */
  lemma HigherMark(mark: nat, vars: set<Variable>)
    requires MarksUpTo(mark, vars)
    ensures MarksUpTo(mark + 1, vars) && forall v | v in vars :: v.mark != mark + 1
  {
  }

  ghost function Marked(mark: nat, vars: set<Variable>): (r: set<Variable>)
    reads vars`mark
    ensures r <= vars
  {
    set v | v in vars && v.mark == mark
  }

  /** Wired for cons, except that the variables in at list c as well. */
  ghost predicate PartWired(c: Constraint, at: set<Variable>, vars: set<Variable>, cons: set<Constraint>)
    reads Lists(vars)`elms
  {
    && (forall v, w | v in vars && w in vars && v != w :: v.constraints != w.constraints)
    && (forall d | d in cons :: forall v | v in d.Variables() :: v in vars && d in v.constraints.elms)
    && (forall v | v in vars :: forall d | d in v.constraints.elms ::
          (d in cons && v in d.Variables()) || (d == c && v in at))
    && (forall v | v in at :: v in vars && c in v.constraints.elms)
    && (forall v | v in vars :: ListedOnce(v.constraints.elms))
  }

  /** The part of Stable that does not depend on the lists. */
  ghost predicate Flowing(vars: set<Variable>, cons: set<Constraint>)
    reads vars`determinedBy, vars`stay, vars`value, vars`walkStrength, cons`satisfied, cons`direction
  {
    Determined(vars, cons) && forall c | c in cons :: c.Variables() <= vars && Settled(c)
  }

  lemma {:induction false} PartWiredStarts(c: Constraint, vars: set<Variable>, cons: set<Constraint>)
    requires Stable(vars, cons)
    ensures PartWired(c, {}, vars, cons) && Flowing(vars, cons)
  {
  }

  lemma {:induction false} PartWiredDone(c: Constraint, vars: set<Variable>, cons: set<Constraint>)
    requires PartWired(c, c.Variables(), vars, cons) && Flowing(vars, cons) && c !in cons && !c.IsSatisfied()
    ensures Stable(vars, cons + {c})
  {
    assert Determined(vars, cons + {c});
    assert Wired(vars, cons + {c});
  }

  lemma {:induction false} WithoutListedOnce(list: seq<Constraint>, c: Constraint)
    requires ListedOnce(list)
    ensures ListedOnce(Without(list, c))
  {
    if list != [] {
      var n := |list| - 1;
      WithoutListedOnce(list[..n], c);
      var kept := Without(list[..n], c);
      forall i | 0 <= i < |kept| && kept[i] == list[n] ensures Reflexive(list[n]) {
        WithoutKeeps(list[..n], c, kept[i]);
        assert list[n] in list[..n];
      }
    }
  }

  /** As Flowing, except that c may still determine the variables in at. */
  ghost predicate PartFlowing(c: Constraint, at: set<Variable>, vars: set<Variable>, cons: set<Constraint>)
    reads vars`determinedBy, vars`stay, vars`value, vars`walkStrength, cons`satisfied, cons`direction
  {
    && (forall d | d in cons && d.IsSatisfied() :: d.Output() in vars && d.Output().determinedBy == d)
    && (forall v | v in vars && v.determinedBy != null ::
          if v.determinedBy == c then v in at
          else v.determinedBy in cons && v.determinedBy.IsSatisfied() && v.determinedBy.Output() == v)
    && (forall d | d in cons :: d.Variables() <= vars && Settled(d))
  }

  lemma {:induction false} RemovalStarts(c: Constraint, vars: set<Variable>, cons: set<Constraint>)
    requires Stable(vars, cons) && c in cons
    ensures c.Variables() <= vars
    ensures PartWired(c, c.Variables(), vars, cons - {c}) && PartFlowing(c, c.Variables(), vars, cons - {c})
  {
    assert c.Output() in c.Variables();
  }

  lemma {:induction false} RemovalDone(c: Constraint, vars: set<Variable>, rest: set<Constraint>)
    requires PartWired(c, {}, vars, rest) && PartFlowing(c, {}, vars, rest) && c !in rest
    ensures Stable(vars, rest)
  {
    assert Determined(vars, rest);
    assert Wired(vars, rest);
  }

  /** A stay or edit constraint overrides one on the same variable exactly if it is stronger. */
  lemma {:induction false} UnaryOverrides(c: Constraint, d: Constraint, mark: nat, vars: set<Variable>,
                                          cons: set<Constraint>)
    requires Stable(vars, cons) && d in cons && d.IsSatisfied() && MarksUpTo(mark, vars)
    requires !c.relation.Equality? && !d.relation.Equality? && c.relation.myOutput == d.relation.myOutput
    ensures Refuses(c, mark + 1) <==> c.strength >= d.strength
  {
    StableSettled(d, vars, cons);
    StableVariables(d, vars, cons);
    assert d.relation.myOutput in d.Variables();
  }

  /** Before there are any variables and constraints. */
  lemma NothingIsStable()
    ensures Stable({}, {})
  {
  }

  /** What a plan writes is not settled for good, so a stable graph stays stable when only that changes. */
  ghost predicate OnlyMoving(written: set<Variable>, vars: set<Variable>)
    reads vars`stay
  {
    written <= vars && forall v | v in written :: !v.stay
  }

  lemma {:induction false} PlanOnlyMoves(plan: seq<Constraint>, vars: set<Variable>, cons: set<Constraint>)
    requires Stable(vars, cons) && forall c | c in plan :: c in cons && Moving(c)
    ensures OnlyMoving(Outputs(plan), vars) && Written(plan) <= Outputs(plan)
  {
    forall c | c in plan ensures c.Output() in vars {
      assert c.Output() in c.Variables();
    }
  }

  lemma {:induction false} NewVariableStable(v: Variable, vars: set<Variable>, cons: set<Constraint>)
    requires Stable(vars, cons) && v !in vars && v.constraints !in Lists(vars) && v.constraints.elms == []
    requires v.determinedBy == null
    ensures Stable(vars + {v}, cons)
  {
    assert Wired(vars + {v}, cons);
    assert Determined(vars + {v}, cons);
  }
}
