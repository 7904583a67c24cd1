/** Satisfying a constraint and propagating the consequences downstream. */
module Solving {
  import opened OrderedCollections
  import opened Constraints
  import opened PlanOrder
  import opened Planning
  import opened Propagation
  import opened Chains

  /** Recalculate d: it is settled now, and only its readers may have to follow. */
  method Resettle(d: Constraint, ghost queue: seq<Constraint>, ghost more: seq<Constraint>, ghost vars: set<Variable>,
                  ghost cons: set<Constraint>)
    requires d in cons && d.IsSatisfied() && SettledBut(queue + [d], vars, cons) && Readers(d, more, cons)
    modifies d.Output()`walkStrength, d.Output()`stay, d.Output()`value
    ensures SettledBut(queue + more, vars, cons)
  {
    d.Recalculate();
    forall e | e in cons ensures Settled(e) || e in queue + more {
      assert e in queue + [d] ==> e in queue || e == d;
      assert old(Settled(e)) || e in queue + [d];
    }
  }

  /** Recalculate d and queue what reads its output. */
  method Visit(d: Constraint, todo: OrderedCollection<Constraint>, ghost vars: set<Variable>,
               ghost cons: set<Constraint>)
    requires Sound(vars, cons) && todo !in Lists(vars) && d in cons && d.IsSatisfied()
    requires SettledBut(todo.elms + [d], vars, cons)
    modifies todo`elms, d.Output()`walkStrength, d.Output()`stay, d.Output()`value
    ensures todo.elms ==
        old(todo.elms + Consuming(d.Output().constraints.elms, d.Output().determinedBy, Satisfied(cons)))
    ensures SettledBut(todo.elms, vars, cons)
  {
    hide Sound, SettledBut, Readers, Consuming;
    var v := d.Output();
    ConsumersAreReaders(d, vars, cons);
    ghost var more := Consuming(v.constraints.elms, v.determinedBy, Satisfied(cons));
    Resettle(d, todo.elms, more, vars, cons);
    AddConstraintsConsumingTo(v, todo, cons);
  }

  /** Bring everything downstream of c up to date. It fails where it meets a marked variable. The variables it
      recalculates are the tree below the output of c; no other one changes. */
  method AddPropagate(c: Constraint, mark: nat, ghost within: set<Variable>, ghost vars: set<Variable>,
                      ghost cons: set<Constraint>)
    returns (ok: bool, ghost reached: set<Variable>)
    requires Sound(vars, cons) && c in cons && c.IsSatisfied() && SettledBut([c], vars, cons)
    requires c.relation.Equality? ==> c.Input().mark == mark
    modifies vars`walkStrength, vars`stay, vars`value
    ensures Sound(vars, cons) && Tree(c, reached, mark, vars, cons)
    ensures ok ==> Stable(vars, cons) && Covered([], c, reached, cons)
    ensures !ok ==> MeetsMark(c, reached, mark, vars, cons)
    ensures Enclosed(c, within, cons) ==> reached <= within
    ensures forall v | v in vars - reached ::
        v.stay == old(v.stay) && v.value == old(v.value) && v.walkStrength == old(v.walkStrength)
  {
    hide Sound, SettledBut, Reaching, Tree, Covered, Enclosed, Consuming, Stable, MeetsMark, From;
    ghost var lists := Lists(vars);
    var todo := new OrderedCollection<Constraint>();
    todo.Add(c);
    assert todo !in lists;
    reached := {};
    ReachStarts(c, within, mark, vars, cons);
    while |todo.elms| > 0
      invariant fresh(todo) && todo !in lists && Sound(vars, cons) && SettledBut(todo.elms, vars, cons)
      invariant Reaching(todo.elms, c, reached, within, mark, vars, cons)
      invariant forall v | v in vars - reached ::
          v.stay == old(v.stay) && v.value == old(v.value) && v.walkStrength == old(v.walkStrength)
      decreases vars - reached
    {
      var d := todo.RemoveFirst();
      NextReached(todo.elms, d, c, reached, within, mark, vars, cons);
      if d.Output().mark == mark {
        MarkMet(d, c, reached, mark, vars, cons);
        ReachingParts(todo.elms + [d], c, reached, within, mark, vars, cons);
        ok := false;
        return;
      }
      ghost var v := d.Output();
      Visit(d, todo, vars, cons);
      reached := reached + {v};
    }
    SettledIsStable(vars, cons);
    ReachingParts([], c, reached, within, mark, vars, cons);
    ok := true;
  }

  method Override(c: Constraint, ghost vars: set<Variable>, ghost cons: set<Constraint>)
    returns (overridden: Constraint?)
    requires Suspended(c, vars, cons) && c in cons && c.Output() in vars
    requires c.Output().determinedBy != null ==> c.Output().determinedBy in cons && c.Output().determinedBy != c
    modifies (cons - {c})`satisfied, (cons - {c})`direction
    ensures Vacated(c, vars, cons) && overridden == c.Output().determinedBy
    ensures forall d | d in cons && d != overridden ::
        d.satisfied == old(d.satisfied) && d.direction == old(d.direction)
    ensures overridden != null ==> overridden in cons && overridden != c && !overridden.IsSatisfied()
  {
    overridden := c.Output().determinedBy;
    if overridden != null {
      overridden.MarkUnsatisfied();
    }
    assert Wired(vars, cons);
    assert forall d | d in cons && d != c && d.IsSatisfied() :: d.Output().determinedBy == d;
  }

  /** c takes over its output from whatever determined it. */
  method Install(c: Constraint, ghost vars: set<Variable>, ghost cons: set<Constraint>)
    requires Vacated(c, vars, cons) && c in cons && c.IsSatisfied() && c.Output() in vars
    modifies c.Output()`determinedBy
    ensures Sound(vars, cons) && SettledBut([c], vars, cons)
  {
    hide Wired, ListedOnce, Settled;
    c.Output().determinedBy := c;
  }

  datatype Outcome =
    | Unsatisfiable
    | Enforced(overridden: Constraint?)
    | Cyclic

  /** What an attempt to enforce c leaves behind, unless it met a cycle: a stable graph. */
  ghost predicate Attempted(outcome: Outcome, c: Constraint, vars: set<Variable>, cons: set<Constraint>)
    reads Lists(vars)`elms, vars`determinedBy, vars`stay, vars`value, vars`walkStrength, c`satisfied, c`direction
    reads cons`satisfied, cons`direction
  {
    match outcome
    case Unsatisfiable => Stable(vars, cons) && !c.IsSatisfied()
    case Enforced(overridden) =>
      && Stable(vars, cons) && c.IsSatisfied()
      && (overridden != null ==> overridden in cons && overridden != c && !overridden.IsSatisfied())
    case Cyclic => Sound(vars, cons) && c.IsSatisfied()
  }

  /** Mark the input of c and let c determine its output. */
  method TakeOver(c: Constraint, mark: nat, ghost vars: set<Variable>, ghost cons: set<Constraint>)
    returns (overridden: Constraint?)
    requires Suspended(c, vars, cons) && c in cons && c.IsSatisfied() && MarksUpTo(mark, vars)
    modifies (if c.relation.Equality? then {c.Input()} else {})`mark, c.Output()`determinedBy
    modifies (cons - {c})`satisfied, (cons - {c})`direction
    ensures Sound(vars, cons) && SettledBut([c], vars, cons) && MarksUpTo(mark, vars)
    ensures c.relation.Equality? ==> c.Input().mark == mark
    ensures overridden == old(c.Output().determinedBy)
    ensures overridden != null ==> overridden in cons && overridden != c && !overridden.IsSatisfied()
    ensures forall d | d in cons && d != overridden ::
        d.satisfied == old(d.satisfied) && d.direction == old(d.direction)
  {
    hide Suspended, Vacated, Sound, SettledBut;
    ghost var lists := Lists(vars);
    SuspendedOutput(c, vars, cons);
    c.MarkInputs(mark);
    overridden := Override(c, vars, cons);
    Install(c, vars, cons);
  }

  /** Enforce c, which has chosen how; the constraint it overrides, if any. Success puts the mark on the output,
      which did not carry it. Nothing changes that nothing flows into from there, and a cycle is only met if a
      marked variable is there. */
  method Enforce(c: Constraint, mark: nat, ghost within: set<Variable>, ghost vars: set<Variable>,
                 ghost cons: set<Constraint>)
    returns (outcome: Outcome)
    requires Suspended(c, vars, cons) && c in cons && c.IsSatisfied() && MarksUpTo(mark, vars)
    modifies c.Variables()`mark, c.Output()`determinedBy, vars`walkStrength, vars`stay, vars`value
    modifies (cons - {c})`satisfied, (cons - {c})`direction
    ensures !outcome.Unsatisfiable? && Attempted(outcome, c, vars, cons) && MarksUpTo(mark, vars)
    ensures outcome.Enforced? ==> outcome.overridden == old(c.Output().determinedBy)
    ensures var o := old(c.Output().determinedBy); o != null ==> o in cons && o != c && !o.IsSatisfied()
    ensures outcome.Enforced? ==> old(c.Output().mark) != mark && c.Output().mark == mark
    ensures forall v | v in vars && old(v.mark) == mark :: v.mark == mark
    ensures forall d | d in cons && d != old(c.Output().determinedBy) ::
        d.satisfied == old(d.satisfied) && d.direction == old(d.direction)
    ensures Enclosed(c, within, cons) ==> forall v | v in vars - within ::
        v.stay == old(v.stay) && v.value == old(v.value) && v.walkStrength == old(v.walkStrength)
    ensures Enclosed(c, within, cons) && outcome.Cyclic? ==>
        exists v | v in within :: v in vars && (old(v.mark) == mark || (c.relation.Equality? && v == c.Input()))
  {
    hide Suspended, Sound, SettledBut, Stable, Tree, Covered, MeetsMark, From, Enclosed;
    ghost var lists := Lists(vars);
    SuspendedOutput(c, vars, cons);
    var out := c.Output();
    var overridden := TakeOver(c, mark, vars, cons);
    ghost var reached: set<Variable>;
    var ok: bool;
    ok, reached := AddPropagate(c, mark, within, vars, cons);
    if ok {
      OutputReached(c, reached, mark, vars, cons);
    } else if Enclosed(c, within, cons) {
      MarkWithin(c, reached, within, mark, vars, cons);
    }
    out.mark := mark;
    return if ok then Enforced(overridden) else Cyclic;
  }

  /** Choose how to enforce c, and enforce it. Where a cycle is met the planner goes on to retract c, which is not
      part of this model. */
  method Satisfy(c: Constraint, mark: nat, ghost within: set<Variable>, ghost vars: set<Variable>,
                 ghost cons: set<Constraint>)
    returns (outcome: Outcome)
    requires Stable(vars, cons) && c in cons && !c.IsSatisfied() && MarksUpTo(mark, vars)
    modifies c.Variables()`mark, c.Variables()`determinedBy, vars`walkStrength, vars`stay, vars`value
    modifies cons`satisfied, cons`direction
    ensures Attempted(outcome, c, vars, cons) && MarksUpTo(mark, vars)
    ensures outcome.Unsatisfiable? <==> old(Refuses(c, mark))
    ensures c.relation.Equality? ==> c.direction == old(ChosenDirection(c))
    ensures outcome.Enforced? ==> var v := c.Output(); outcome.overridden == old(v.determinedBy)
    ensures !outcome.Unsatisfiable? ==>
        var v := c.Output(); var o := old(v.determinedBy); o != null ==> o in cons && o != c && !o.IsSatisfied()
    ensures outcome.Enforced? ==> var v := c.Output(); old(v.mark) != mark && v.mark == mark
    ensures forall v | v in vars && old(v.mark) == mark :: v.mark == mark
    ensures outcome.Unsatisfiable? ==> forall v | v in vars :: v.mark == old(v.mark)
    ensures forall v | v in vars && (outcome.Unsatisfiable? || v != c.Output()) :: v.determinedBy == old(v.determinedBy)
    ensures var v := c.Output();
      forall d | d in cons && d != c && (outcome.Unsatisfiable? || d != old(v.determinedBy)) ::
        d.satisfied == old(d.satisfied) && d.direction == old(d.direction)
    ensures outcome.Unsatisfiable? || Enclosed(c, within, cons) ==> forall v | v in vars - within ::
        v.stay == old(v.stay) && v.value == old(v.value) && v.walkStrength == old(v.walkStrength)
    ensures Enclosed(c, within, cons) && outcome.Cyclic? ==>
        exists v | v in within :: v in vars && (old(v.mark) == mark || (c.relation.Equality? && v == c.Input()))
  {
    hide Suspended, Stable, MarksUpTo, Enclosed;
    ghost var lists := Lists(vars);
    StableVariables(c, vars, cons);
    SuspendedOrStable(c, vars, cons);
    c.ChooseMethod(mark);
    if !c.IsSatisfied() {
      SuspendedOrStable(c, vars, cons);
      return Unsatisfiable;
    }
    outcome := Enforce(c, mark, within, vars, cons);
  }

  ghost predicate RequiredEquality(c: Constraint) {
    c.relation.Equality? && c.strength == REQUIRED
  }

  /** c is enforced, and the mark on its output keeps anything else from taking it over in the same pass. */
  ghost predicate Kept(c: Constraint, mark: nat)
    reads c`satisfied, c`direction, c.Variables()`mark
  {
    c.IsSatisfied() && c.Output().mark == mark
  }

  /** One round of IncrementalAdd. Only c and what it overrides change their state, and what the pass has enforced
      stays; if it enforces c it marks one more variable. Along a chain it carries the mark one place further. */
  method Round(c: Constraint, mark: nat, ghost s: Sweep, ghost k: int, ghost vars: set<Variable>,
               ghost cons: set<Constraint>)
    returns (outcome: Outcome)
    requires Stable(vars, cons) && c in cons && !c.IsSatisfied() && MarksUpTo(mark, vars)
    requires s.Along? ==> Laid(s, vars, cons) && -1 <= k <= |s.links| && Swept(s, k, mark) && c == NextOf(s, k)
    modifies vars`mark, vars`determinedBy, vars`walkStrength, vars`stay, vars`value, cons`satisfied, cons`direction
    ensures Attempted(outcome, c, vars, cons) && MarksUpTo(mark, vars)
    ensures outcome.Unsatisfiable? <==> old(Refuses(c, mark))
    ensures outcome.Unsatisfiable? ==> !RequiredEquality(c)
    ensures outcome.Enforced? && outcome.overridden != null ==> old(outcome.overridden.IsSatisfied())
    ensures outcome.Enforced? ==> old(Marked(mark, vars)) < Marked(mark, vars) && Kept(c, mark)
    ensures forall e | e in cons && old(Kept(e, mark)) :: outcome.Cyclic? || Kept(e, mark)
    ensures !outcome.Cyclic? ==> forall d | d in cons && d != c ::
        d.IsSatisfied() <==> old(d.IsSatisfied()) && (outcome.Unsatisfiable? || d != outcome.overridden)
    ensures s.Along? && k < |s.links| ==>
        outcome.Enforced? && outcome.overridden == NextOf(s, k + 1) && Swept(s, k + 1, mark)
    ensures s.Along? && k == |s.links| ==> outcome.Unsatisfiable? && Swept(s, k, mark)
    ensures s.Along? ==> forall v | v in vars && v !in s.path ::
        v.walkStrength == old(v.walkStrength) && v.determinedBy == old(v.determinedBy)
  {
    hide Stable, Sound, Swept, Enclosed, Refuses, ChosenDirection, MarksUpTo;
    ghost var turning := s.Along? && k < |s.links|;
    StableVariables(c, vars, cons);
    StableOutputs(vars, cons);
    if RequiredEquality(c) {
      RequiredNeverRefuses(c, mark);
    }
    if turning {
      NextChoice(s, k, mark, vars, cons);
    } else if s.Along? {
      EndRefuses(s, mark, vars, cons);
    }
    outcome := Satisfy(c, mark, if turning then {s.path[k + 1]} else {}, vars, cons);
    if turning {
      assert c.Output() == s.path[k + 1] && (c.relation.Equality? ==> c.Input() != s.path[k + 1]);
      NextEnclosed(s, k, vars, cons);
      Turned(Stage(s, k, vars, cons), mark);
    } else if s.Along? {
      Stopped(Stage(s, k, vars, cons), mark);
    }
    if outcome.Enforced? {
      assert c.Output() in Marked(mark, vars) - old(Marked(mark, vars));
    }
  }

  /** Enforce c, then whatever it overrides, and so on. Every round marks one more variable, so the rounds end. Unless
      a cycle is met, c joins the satisfied constraints and at most one constraint is lost: the one at which the
      rounds end. That is c itself exactly if nothing weaker is in its place, and never a required equality. Along a
      chain no cycle is met, and nothing else changes. */
  method IncrementalAdd(planner: Planner, c: Constraint, ghost s: Sweep, ghost vars: set<Variable>,
                        ghost cons: set<Constraint>)
    returns (outcome: Outcome, ghost lost: Constraint?)
    requires Stable(vars, cons) && c in cons && !c.IsSatisfied() && MarksUpTo(planner.currentMark, vars)
    requires s.Along? ==>
        Laid(s, vars, cons) && |s.path| == |s.links| + 1 && c == s.start && Swept(s, -1, planner.currentMark + 1)
    modifies planner`currentMark
    modifies vars`mark, vars`determinedBy, vars`walkStrength, vars`stay, vars`value, cons`satisfied, cons`direction
    ensures planner.currentMark == old(planner.currentMark) + 1 && MarksUpTo(planner.currentMark, vars)
    ensures outcome.Cyclic? || Stable(vars, cons)
    ensures outcome.Enforced? ==> outcome.overridden == null
    ensures outcome.Unsatisfiable? <==> lost != null
    ensures !outcome.Cyclic? ==> forall d | d in cons ::
        d.IsSatisfied() <==> d != lost && (d == c || old(d.IsSatisfied()))
    ensures lost != null ==> lost in cons && !RequiredEquality(lost)
    ensures lost == c <==> old(Refuses(c, planner.currentMark + 1))
    ensures s.Along? ==> !outcome.Cyclic? && Swept(s, |s.links|, planner.currentMark)
    ensures s.Along? ==> forall v | v in vars && v !in s.path ::
        v.walkStrength == old(v.walkStrength) && v.determinedBy == old(v.determinedBy)
  {
    hide Stable, Sound, Swept, Refuses, ChosenDirection, MarksUpTo, Laid;
    ghost var lists := Lists(vars);
    var mark := planner.NewMark();
    HigherMark(mark - 1, vars);
    SameRefusal(c, mark);
    outcome := Round(c, mark, s, -1, vars, cons);
    ghost var k, gone := 0, if outcome.Enforced? then outcome.overridden else if outcome.Cyclic? then null else c;
    while outcome.Enforced? && outcome.overridden != null
      invariant planner.currentMark == mark && MarksUpTo(mark, vars) && (outcome.Cyclic? || Stable(vars, cons))
      invariant gone != null ==> gone in cons && !gone.IsSatisfied() && (gone == c || old(gone.IsSatisfied()))
      invariant match outcome
                case Enforced(overridden) => gone == overridden
                case Unsatisfiable => gone != null
                case Cyclic => gone == null
      invariant !outcome.Cyclic? ==> forall d | d in cons ::
          d.IsSatisfied() <==> d != gone && (d == c || old(d.IsSatisfied()))
      invariant outcome.Unsatisfiable? ==> !RequiredEquality(gone)
      invariant if old(Refuses(c, planner.currentMark + 1)) then gone == c && outcome.Unsatisfiable?
                else outcome.Cyclic? || Kept(c, mark)
      invariant s.Along? ==> 0 <= k <= |s.links| && !outcome.Cyclic?
      invariant s.Along? && outcome.Enforced? ==> gone == NextOf(s, k) && Swept(s, k, mark)
      invariant s.Along? && outcome.Unsatisfiable? ==> Swept(s, |s.links|, mark)
      invariant s.Along? ==> forall v | v in vars && v !in s.path ::
          v.walkStrength == old(v.walkStrength) && v.determinedBy == old(v.determinedBy)
      decreases outcome.Enforced?, vars - Marked(mark, vars)
    {
      ghost var marked := Marked(mark, vars);
      outcome := Round(outcome.overridden, mark, s, k, vars, cons);
      if outcome.Enforced? {
        assert vars - Marked(mark, vars) < vars - marked;
        gone := outcome.overridden;
      } else if outcome.Cyclic? {
        gone := null;
      }
      k := if s.Along? && k < |s.links| then k + 1 else k;
    }
    lost := gone;
  }

  method ListAt(c: Constraint, v: Variable, ghost at: set<Variable>, ghost vars: set<Variable>,
                ghost cons: set<Constraint>)
    requires PartWired(c, at, vars, cons) && c !in cons && v in vars && v in c.Variables() && (v in at ==> Reflexive(c))
    modifies v.constraints`elms
    ensures PartWired(c, at + {v}, vars, cons)
  {
    v.constraints.Add(c);
  }

  /** Make a new constraint known to its variables. */
  method AddToGraph(c: Constraint, ghost vars: set<Variable>, ghost cons: set<Constraint>)
    requires Stable(vars, cons) && c !in cons && c.Variables() <= vars
    modifies c`satisfied, c`direction, Lists(vars)`elms
    ensures Stable(vars, cons + {c}) && !c.IsSatisfied()
  {
    hide Stable, PartWired, Flowing;
    PartWiredStarts(c, vars, cons);
    match c.relation {
      case Equality(v1, v2) =>
        ListAt(c, v1, {}, vars, cons);
        ListAt(c, v2, {} + {v1}, vars, cons);
        assert {} + {v1} + {v2} == c.Variables();
        c.direction := NoDirection;
      case _ =>
        ListAt(c, c.relation.myOutput, {}, vars, cons);
        assert {} + {c.relation.myOutput} == c.Variables();
        c.satisfied := false;
    }
    PartWiredDone(c, vars, cons);
  }

  /** Make a new constraint known to its variables and enforce it. */
  method AddConstraint(planner: Planner, c: Constraint, ghost s: Sweep, ghost vars: set<Variable>,
                       ghost cons: set<Constraint>)
    returns (outcome: Outcome, ghost lost: Constraint?)
    requires Stable(vars, cons) && c !in cons && c.Variables() <= vars && MarksUpTo(planner.currentMark, vars)
    requires s.Along? ==> Laid(s, vars, cons + {c}) && |s.path| == |s.links| + 1 && c == s.start
    requires s.Along? ==> Swept(s, -1, planner.currentMark + 1)
    modifies planner`currentMark, Lists(vars)`elms
    modifies vars`mark, vars`determinedBy, vars`walkStrength, vars`stay, vars`value
    modifies (cons + {c})`satisfied, (cons + {c})`direction
    ensures planner.currentMark == old(planner.currentMark) + 1 && MarksUpTo(planner.currentMark, vars)
    ensures outcome.Cyclic? || Stable(vars, cons + {c})
    ensures outcome.Enforced? ==> outcome.overridden == null
    ensures outcome.Unsatisfiable? <==> lost != null
    ensures !outcome.Cyclic? ==> forall d | d in cons + {c} ::
        d.IsSatisfied() <==> d != lost && (d == c || old(d.IsSatisfied()))
    ensures lost != null ==> lost in cons + {c} && !RequiredEquality(lost)
    ensures lost == c <==> old(Refuses(c, planner.currentMark + 1))
    ensures s.Along? ==> !outcome.Cyclic? && Swept(s, |s.links|, planner.currentMark)
    ensures s.Along? ==> forall v | v in vars && v !in s.path ::
        v.walkStrength == old(v.walkStrength) && v.determinedBy == old(v.determinedBy)
  {
    hide Stable, MarksUpTo, Laid, Refuses, Sound, ChosenDirection, Swept;
    ghost var lists := Lists(vars);
    AddToGraph(c, vars, cons);
    SameRefusal(c, planner.currentMark + 1);
    if s.Along? {
      StillUnstarted(Stage(s, -1, vars, cons + {c}), planner.currentMark + 1);
    }
    outcome, lost := IncrementalAdd(planner, c, s, vars, cons + {c});
  }

  method Unlist(v: Variable, c: Constraint, ghost at: set<Variable>, ghost vars: set<Variable>,
                ghost rest: set<Constraint>)
    requires PartWired(c, at, vars, rest) && c !in rest && v in vars
    modifies v.constraints`elms
    ensures PartWired(c, at - {v}, vars, rest)
  {
    WithoutListedOnce(v.constraints.elms, c);
    forall d | d in v.constraints.elms ensures d in Without(v.constraints.elms, c) <==> d != c {
      WithoutKeeps(v.constraints.elms, c, d);
    }
    forall d | d in Without(v.constraints.elms, c) ensures d in v.constraints.elms {
      WithoutKeeps(v.constraints.elms, c, d);
    }
    v.constraints.Remove(c);
  }

  /** Remove all traces of c from v. */
  method RemoveConstraint(v: Variable, c: Constraint, ghost at: set<Variable>, ghost vars: set<Variable>,
                          ghost rest: set<Constraint>)
    requires PartWired(c, at, vars, rest) && PartFlowing(c, at, vars, rest) && c !in rest && v in vars
    modifies v.constraints`elms, v`determinedBy
    ensures PartWired(c, at - {v}, vars, rest) && PartFlowing(c, at - {v}, vars, rest)
  {
    hide PartWired;
    Unlist(v, c, at, vars, rest);
    if v.determinedBy == c {
      v.determinedBy := null;
    }
  }

  /** Take c out of the graph; what is left is stable. */
  method RemoveFromGraph(c: Constraint, ghost vars: set<Variable>, ghost cons: set<Constraint>)
    requires Stable(vars, cons) && c in cons
    modifies c`satisfied, c`direction, Lists(vars)`elms, vars`determinedBy
    ensures Stable(vars, cons - {c}) && !c.IsSatisfied()
  {
    hide Stable, PartWired, PartFlowing;
    RemovalStarts(c, vars, cons);
    ghost var rest := cons - {c};
    match c.relation {
      case Equality(v1, v2) =>
        RemoveConstraint(v1, c, {v1, v2}, vars, rest);
        RemoveConstraint(v2, c, {v1, v2} - {v1}, vars, rest);
        assert {v1, v2} - {v1} - {v2} == {};
        c.direction := NoDirection;
      case _ =>
        RemoveConstraint(c.relation.myOutput, c, {c.relation.myOutput}, vars, rest);
        assert {c.relation.myOutput} - {c.relation.myOutput} == {};
        c.satisfied := false;
    }
    RemovalDone(c, vars, rest);
  }

  method NewVariable(initialValue: int, ghost vars: set<Variable>, ghost cons: set<Constraint>) returns (v: Variable)
    requires Stable(vars, cons)
    ensures fresh(v) && fresh(v.constraints) && Stable(vars + {v}, cons)
    ensures v.value == initialValue && v.mark == 0 && v.determinedBy == null && v.walkStrength == WEAKEST
  {
    ghost var lists := Lists(vars);
    v := new Variable(initialValue);
    NewVariableStable(v, vars, cons);
  }

  /** What is settled stays settled while an edit moves the variables that are free to move. */
  method DriveSettled(plan: Plan, edit: Constraint, newValue: int, ghost vars: set<Variable>,
                      ghost cons: set<Constraint>)
    requires Dataflow(vars, cons) && Extracted(plan.v.elms, cons) && SettledBut([], vars, cons)
    requires WritesOnce(plan.v.elms) && WritesBeforeReading(plan.v.elms)
    requires edit in plan.v.elms && edit.IsInput()
    requires OnlyMoving(Outputs(plan.v.elms), vars) && Written(plan.v.elms) <= Outputs(plan.v.elms)
    modifies vars`value
    ensures SettledBut([], vars, cons) && edit.Output().value == newValue
    ensures old(AllHold(Rest(plan.v.elms, cons))) ==> AllHold(Satisfied(cons))
  {
    hide Dataflow, Extracted, WritesOnce, WritesBeforeReading, AllHold, Rest, Satisfied;
    ghost var moving := Outputs(plan.v.elms);
    SetAndExecute(plan, edit, newValue, vars, cons);
    forall c | c in cons ensures Settled(c) {
      assert old(c.Variables() <= vars && Settled(c));
      assert c.Output() in c.Variables() && (c.relation.Equality? ==> c.Input() in c.Variables());
    }
  }

  /** An edit through a plan: the graph stays stable, and if every satisfied constraint held, every one holds again. */
  method Drive(plan: Plan, edit: Constraint, newValue: int, ghost vars: set<Variable>, ghost cons: set<Constraint>)
    requires Stable(vars, cons) && Extracted(plan.v.elms, cons)
    requires forall c | c in plan.v.elms :: c in cons && Moving(c)
    requires Straight(plan.v.elms, cons)
    requires edit in plan.v.elms && edit.IsInput()
    modifies vars`value
    ensures Stable(vars, cons) && edit.Output().value == newValue
    ensures old(AllHold(Satisfied(cons))) ==> AllHold(Satisfied(cons))
  {
    hide Stable, Sound, SettledBut, WritesOnce, WritesBeforeReading, OnlyMoving;
    ghost var lists := Lists(vars);
    StableIsDataflow(vars, cons);
    StableIsSettled(vars, cons);
    PlanOnlyMoves(plan.v.elms, vars, cons);
    DriveSettled(plan, edit, newValue, vars, cons);
    SettledIsStable(vars, cons);
  }

  method DriveTenTimes(plan: Plan, edit: Constraint, newValue: int, ghost vars: set<Variable>,
                       ghost cons: set<Constraint>)
    requires Stable(vars, cons) && Extracted(plan.v.elms, cons)
    requires forall c | c in plan.v.elms :: c in cons && Moving(c)
    requires Straight(plan.v.elms, cons)
    requires edit in plan.v.elms && edit.IsInput()
    modifies vars`value
    ensures Stable(vars, cons) && edit.Output().value == newValue
    ensures old(AllHold(Satisfied(cons))) ==> AllHold(Satisfied(cons))
  {
    hide Stable, Straight, Extracted, AllHold, Satisfied;
    for i := 0 to 10
      invariant Stable(vars, cons) && Extracted(plan.v.elms, cons)
      invariant Straight(plan.v.elms, cons)
      invariant old(AllHold(Satisfied(cons))) ==> AllHold(Satisfied(cons))
      invariant i > 0 ==> edit.Output().value == newValue
    {
      Drive(plan, edit, newValue, vars, cons);
    }
  }

  /** Extract a plan from the edits and drive one of them ten times. */
  method Change(planner: Planner, edits: OrderedCollection<Constraint>, edit: Constraint, newValue: int,
                ghost vars: set<Variable>, ghost cons: set<Constraint>)
    requires Stable(vars, cons) && MarksUpTo(planner.currentMark, vars) && forall c | c in edits.elms :: c in cons
    requires edit in edits.elms && edit.IsInput() && edit.IsSatisfied()
    modifies planner`currentMark, vars`mark, vars`value
    ensures Stable(vars, cons) && MarksUpTo(planner.currentMark, vars) && edit.Output().value == newValue
    ensures old(AllHold(Satisfied(cons))) ==> AllHold(Satisfied(cons))
  {
    hide Stable, Dataflow, WritesOnce, WritesBeforeReading, Closed, Justified;
    ghost var lists := Lists(vars);
    StableIsDataflow(vars, cons);
    var plan := planner.ExtractPlanFromConstraints(edits, vars, cons);
    DriveTenTimes(plan, edit, newValue, vars, cons);
  }
}
