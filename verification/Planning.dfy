/** Extraction of a plan from the dataflow graph, and its execution. */
module Planning {
  import opened OrderedCollections
  import opened Constraints
  import opened PlanOrder

  method AddConstraintsConsumingTo(v: Variable, coll: OrderedCollection<Constraint>, ghost cons: set<Constraint>)
    requires coll != v.constraints
    requires forall c | c in v.constraints.elms :: c in cons
    modifies coll`elms
    ensures coll.elms == old(coll.elms) + Consuming(v.constraints.elms, v.determinedBy, Satisfied(cons))
  {
    var determining := v.determinedBy;
    var cc := v.constraints;
    for i := 0 to |cc.elms|
      invariant cc.elms == old(v.constraints.elms)
      invariant coll.elms == old(coll.elms) + Consuming(cc.elms[..i], determining, Satisfied(cons))
    {
      var c := cc.elms[i];
      assert cc.elms[..i + 1][..i] == cc.elms[..i];
      if c != determining && c.IsSatisfied() {
        coll.Add(c);
      }
    }
    assert cc.elms[..|cc.elms|] == cc.elms;
  }

  /** Execute the constraint at place i: what held before it still does, and if all held nothing changes. */
  method ExecuteAt(plan: seq<Constraint>, i: nat)
    requires i < |plan| && WritesOnce(plan) && WritesBeforeReading(plan) && Done(plan, i)
    modifies Written(plan)`value
    ensures Done(plan, i + 1)
    ensures old(AllHold(Elements(plan))) ==> forall w | w in Written(plan) :: w.value == old(w.value)
  {
    hide AllHold, Elements, Done;
    var c := plan[i];
    HeldAlready(plan, i);
    c.Execute();
    DoneNext(plan, i);
  }

  class Plan {
    const v: OrderedCollection<Constraint>

    constructor ()
      ensures fresh(v) && v.elms == []
    {
      v := new OrderedCollection<Constraint>();
    }

    method AddConstraint(c: Constraint)
      modifies v`elms
      ensures v.elms == old(v.elms) + [c]
    {
      v.Add(c);
    }

    /** Only the planned outputs change, every planned constraint holds, and running again changes nothing. */
    method Execute()
      requires WritesOnce(v.elms) && WritesBeforeReading(v.elms)
      modifies Written(v.elms)`value
      ensures AllHold(Elements(v.elms))
      ensures old(AllHold(Elements(v.elms))) ==>
          forall c | c in v.elms :: c.Output().value == old(c.Output().value)
    {
      for i := 0 to |v.elms|
        invariant v.elms == old(v.elms) && Done(v.elms, i)
        invariant old(AllHold(Elements(v.elms))) ==>
            forall c | c in v.elms :: c.Output().value == old(c.Output().value)
      {
        ExecuteAt(v.elms, i);
      }
    }
  }

  /** Plan c, mark its output and look at what reads it. */
  method Record(plan: Plan, c: Constraint, mark: nat, todo: OrderedCollection<Constraint>, ghost marked: set<Variable>,
                ghost sources: seq<Constraint>, ghost vars: set<Variable>, ghost cons: set<Constraint>)
    requires plan.v != todo && plan.v !in Lists(vars) && todo !in Lists(vars) && Dataflow(vars, cons)
    requires c.Output() in vars && Marks(marked, mark, vars)
    requires c.Output().constraints in Lists(vars) && forall d | d in c.Output().constraints.elms :: d in cons
    requires Planned(plan.v.elms + [c], marked + {c.Output()}, vars, cons)
    requires Ordered(plan.v.elms + [c], sources, cons)
    requires Pending(todo.elms + Consuming(c.Output().constraints.elms, c.Output().determinedBy, Satisfied(cons)),
                     sources, marked + {c.Output()}, vars, cons)
    modifies plan.v`elms, c.Output()`mark, todo`elms
    ensures Marks(marked + {old(c.Output())}, mark, vars) && Dataflow(vars, cons)
    ensures Planned(plan.v.elms, marked + {old(c.Output())}, vars, cons)
    ensures Ordered(plan.v.elms, sources, cons)
    ensures Pending(todo.elms, sources, marked + {old(c.Output())}, vars, cons)
  {
    hide Dataflow, Planned, Ordered, Pending, Consuming;
    var v := c.Output();
    plan.AddConstraint(c);
    v.mark := mark;
    AddConstraintsConsumingTo(v, todo, cons);
  }

  method Extend(plan: Plan, c: Constraint, mark: nat, todo: OrderedCollection<Constraint>, ghost marked: set<Variable>,
                ghost sources: seq<Constraint>, ghost vars: set<Variable>, ghost cons: set<Constraint>)
    requires plan.v != todo && plan.v !in Lists(vars) && todo !in Lists(vars) && Dataflow(vars, cons)
    requires c.Output() in vars && c.Output() !in marked && Ready(c, marked) && Marks(marked, mark, vars)
    requires Planned(plan.v.elms, marked, vars, cons) && Ordered(plan.v.elms, sources, cons)
    requires Pending(todo.elms + [c], sources, marked, vars, cons)
    modifies plan.v`elms, c.Output()`mark, todo`elms
    ensures Marks(marked + {old(c.Output())}, mark, vars) && Dataflow(vars, cons)
    ensures Planned(plan.v.elms, marked + {old(c.Output())}, vars, cons)
    ensures Ordered(plan.v.elms, sources, cons)
    ensures Pending(todo.elms, sources, marked + {old(c.Output())}, vars, cons)
  {
    hide *;
    ExtendStep(plan.v.elms, todo.elms, c, marked, sources, vars, cons);
    Record(plan, c, mark, todo, marked, sources, vars, cons);
  }

  /** One round of MakePlan; the variable it marks, if any. */
  method Consider(plan: Plan, c: Constraint, mark: nat, todo: OrderedCollection<Constraint>,
                  ghost marked: set<Variable>,
               ghost sources: seq<Constraint>, ghost vars: set<Variable>, ghost cons: set<Constraint>)
    returns (ghost added: set<Variable>)
    requires plan.v != todo && plan.v !in Lists(vars) && todo !in Lists(vars) && Dataflow(vars, cons)
    requires Marks(marked, mark, vars)
    requires Planned(plan.v.elms, marked, vars, cons) && Ordered(plan.v.elms, sources, cons)
    requires Pending(todo.elms + [c], sources, marked, vars, cons)
    modifies plan.v`elms, todo`elms, c.Output()`mark
    ensures Dataflow(vars, cons) && Marks(marked + added, mark, vars)
    ensures Planned(plan.v.elms, marked + added, vars, cons) && Ordered(plan.v.elms, sources, cons)
    ensures Pending(todo.elms, sources, marked + added, vars, cons)
    ensures added <= vars - marked && (added == {} ==> todo.elms == old(todo.elms))
  {
    hide *;
    NextPending(todo.elms, c, marked, sources, vars, cons);
    ReadyIsKnown(c, marked, mark, vars);
    if c.Output().mark != mark && c.InputsKnown(mark) {
      added := {c.Output()};
      Extend(plan, c, mark, todo, marked, sources, vars, cons);
    } else {
      DropPending(todo.elms, c, marked, sources, vars, cons);
      added := {};
      assert marked + added == marked;
    }
  }

  /** The worklist loop of MakePlan. */
  method Drain(plan: Plan, todo: OrderedCollection<Constraint>, mark: nat, ghost sources: seq<Constraint>,
               ghost vars: set<Variable>, ghost cons: set<Constraint>)
    returns (ghost marked: set<Variable>)
    requires plan.v != todo && plan.v !in Lists(vars) && todo !in Lists(vars) && Dataflow(vars, cons)
    requires Marks({}, mark, vars) && Planned(plan.v.elms, {}, vars, cons) && Ordered(plan.v.elms, sources, cons)
    requires Pending(todo.elms, sources, {}, vars, cons)
    modifies plan.v`elms, todo`elms, vars`mark
    ensures todo.elms == [] && Dataflow(vars, cons) && Marks(marked, mark, vars)
    ensures Planned(plan.v.elms, marked, vars, cons) && Ordered(plan.v.elms, sources, cons)
    ensures Pending([], sources, marked, vars, cons)
  {
    hide Dataflow, Planned, Ordered, Pending, Marks;
    marked := {};
    ghost var unmarked := vars;
    while |todo.elms| > 0
      invariant Dataflow(vars, cons) && Marks(marked, mark, vars) && unmarked == vars - marked
      invariant Planned(plan.v.elms, marked, vars, cons) && Ordered(plan.v.elms, sources, cons)
      invariant Pending(todo.elms, sources, marked, vars, cons)
      decreases unmarked, |todo.elms|
    {
      var c := todo.RemoveFirst();
      NextPending(todo.elms, c, marked, sources, vars, cons);
      ghost var added := Consider(plan, c, mark, todo, marked, sources, vars, cons);
      marked, unmarked := marked + added, unmarked - added;
    }
  }

  method SelectInputs(constraints: OrderedCollection<Constraint>) returns (sources: OrderedCollection<Constraint>)
    ensures fresh(sources)
    ensures forall c | c in sources.elms :: c in constraints.elms && c.IsInput() && c.IsSatisfied()
    ensures forall c | c in constraints.elms && c.IsInput() && c.IsSatisfied() :: c in sources.elms
  {
    sources := new OrderedCollection<Constraint>();
    for i := 0 to |constraints.elms|
      invariant fresh(sources) && constraints.elms == old(constraints.elms)
      invariant forall c | c in sources.elms :: c in constraints.elms && c.IsInput() && c.IsSatisfied()
      invariant forall c | c in constraints.elms[..i] && c.IsInput() && c.IsSatisfied() :: c in sources.elms
    {
      var c := constraints.elms[i];
      if c.IsInput() && c.IsSatisfied() {
        sources.Add(c);
      }
    }
  }

  class Planner {
    var currentMark: nat

    constructor ()
      ensures currentMark == 0
    {
      currentMark := 0;
    }

    /** A mark that no variable carries yet. */
    method NewMark() returns (mark: nat)
      modifies `currentMark
      ensures mark == currentMark == old(currentMark) + 1
    {
      currentMark := currentMark + 1;
      return currentMark;
    }

    method MakePlan(sources: OrderedCollection<Constraint>, ghost vars: set<Variable>, ghost cons: set<Constraint>)
      returns (plan: Plan)
      requires Dataflow(vars, cons) && sources !in Lists(vars)
      requires forall v | v in vars :: v.mark <= currentMark
      requires forall c | c in sources.elms :: c in cons && Moving(c)
      modifies `currentMark, vars`mark, sources`elms
      ensures fresh(plan) && fresh(plan.v) && sources.elms == [] && Dataflow(vars, cons)
      ensures forall v | v in vars :: v.mark <= currentMark
      ensures forall c | c in plan.v.elms :: c in cons && Moving(c)
      ensures WritesOnce(plan.v.elms) && WritesBeforeReading(plan.v.elms)
      ensures Closed(plan.v.elms, cons) && Justified(plan.v.elms, old(sources.elms))
      ensures forall s | s in old(sources.elms) ::
          s in plan.v.elms || (Waiting(s) && s.Input() !in Outputs(plan.v.elms))
    {
      hide Dataflow, Planned, Ordered, Pending;
      var mark := NewMark();
      plan := new Plan();
      var todo := sources;
      PlanStarts(todo.elms, vars, cons);
      ghost var src := sources.elms;
      ghost var marked := Drain(plan, todo, mark, src, vars, cons);
      PlanComplete(plan.v.elms, marked, src, vars, cons);
    }

    /** A plan from the satisfied input constraints among the given ones. */
    method ExtractPlanFromConstraints(constraints: OrderedCollection<Constraint>, ghost vars: set<Variable>,
                                      ghost cons: set<Constraint>)
      returns (plan: Plan)
      requires Dataflow(vars, cons) && forall c | c in constraints.elms :: c in cons
      requires forall v | v in vars :: v.mark <= currentMark
      modifies `currentMark, vars`mark
      ensures fresh(plan) && fresh(plan.v) && Dataflow(vars, cons)
      ensures forall v | v in vars :: v.mark <= currentMark
      ensures forall c | c in plan.v.elms :: c in cons && Moving(c)
      ensures WritesOnce(plan.v.elms) && WritesBeforeReading(plan.v.elms)
      ensures Closed(plan.v.elms, cons) && Justified(plan.v.elms, constraints.elms)
      ensures forall c | c in constraints.elms && c.IsInput() && c.IsSatisfied() :: c in plan.v.elms
    {
      var sources := SelectInputs(constraints);
      ghost var src := sources.elms;
      forall s | s in src ensures Moving(s) {
        InputMoves(s, vars, cons);
      }
      plan := MakePlan(sources, vars, cons);
      JustifiedByMore(plan.v.elms, src, constraints.elms);
    }
  }

  /** Move v, which the plan does not compute, and run the plan. */
  method Rerun(plan: Plan, v: Variable, newValue: int, ghost rest: set<Constraint>)
    requires WritesOnce(plan.v.elms) && WritesBeforeReading(plan.v.elms)
    requires v in Outputs(plan.v.elms) && v !in Written(plan.v.elms) && Insulated(plan.v.elms, rest)
    modifies v`value, Written(plan.v.elms)`value
    ensures v.value == newValue && AllHold(Elements(plan.v.elms))
    ensures forall d | d in rest && old(d.Holds()) :: d.Holds()
  {
    v.value := newValue;
    plan.Execute();
  }

  /** The client moves an edited variable and runs the plan: everything satisfied holds again. */
  method SetAndExecute(plan: Plan, edit: Constraint, newValue: int, ghost vars: set<Variable>,
                       ghost cons: set<Constraint>)
    requires Dataflow(vars, cons) && Extracted(plan.v.elms, cons)
    requires WritesOnce(plan.v.elms) && WritesBeforeReading(plan.v.elms)
    requires edit in plan.v.elms && edit.IsInput()
    modifies edit.Output()`value, Written(plan.v.elms)`value
    ensures edit.Output().value == newValue && AllHold(Elements(plan.v.elms))
    ensures old(AllHold(Rest(plan.v.elms, cons))) ==> AllHold(Satisfied(cons))
  {
    EditIsApart(plan.v.elms, edit, vars, cons);
    RestIsInsulated(plan.v.elms, vars, cons);
    Rerun(plan, edit.Output(), newValue, Rest(plan.v.elms, cons));
  }

  /** An edit at the head of a chain reaches its end. */
  method DriveChain(plan: Plan, edit: Constraint, newValue: int, ghost chain: seq<Variable>,
                    ghost links: seq<Constraint>, ghost vars: set<Variable>, ghost cons: set<Constraint>)
    requires Dataflow(vars, cons) && Extracted(plan.v.elms, cons)
    requires WritesOnce(plan.v.elms) && WritesBeforeReading(plan.v.elms)
    requires edit in plan.v.elms && edit.IsInput() && Chained(chain, links) && chain[0] == edit.Output()
    requires forall c | c in links :: c in cons && c.IsSatisfied()
    modifies vars`value
    ensures Dataflow(vars, cons) && WritesOnce(plan.v.elms) && WritesBeforeReading(plan.v.elms)
    ensures chain[|links|].value == newValue
  {
    hide Extracted, WritesOnce, WritesBeforeReading, AllHold;
    PlanWritesGraph(plan.v.elms, vars, cons);
    SetAndExecute(plan, edit, newValue, vars, cons);
    ChainRuns(plan.v.elms, chain, links, cons);
  }

  /** The first variable of a chain is edited a hundred times; the last one follows each time. */
  method EditChain(planner: Planner, edits: OrderedCollection<Constraint>, first: Variable, last: Variable,
                   edit: Constraint, ghost chain: seq<Variable>, ghost links: seq<Constraint>,
                   ghost vars: set<Variable>, ghost cons: set<Constraint>)
    returns (failed: bool)
    requires Dataflow(vars, cons) && forall c | c in edits.elms :: c in cons
    requires forall v | v in vars :: v.mark <= planner.currentMark
    requires edit in edits.elms && edit.IsInput() && edit.IsSatisfied() && edit.Output() == first
    requires Chained(chain, links) && chain[0] == first && chain[|links|] == last
    requires forall c | c in links :: c in cons && c.IsSatisfied()
    modifies planner`currentMark, vars`mark, vars`value
    ensures !failed
  {
    hide Dataflow, WritesOnce, WritesBeforeReading, Closed;
    failed := false;
    var plan := planner.ExtractPlanFromConstraints(edits, vars, cons);
    ghost var p := plan.v.elms;
    for i := 0 to 100
      invariant !failed && fresh(plan.v) && plan.v.elms == p && edit in p && edit.Output() == first
      invariant Dataflow(vars, cons) && Extracted(p, cons) && WritesOnce(p) && WritesBeforeReading(p)
      invariant Chained(chain, links) && forall c | c in links :: c in cons && c.IsSatisfied()
    {
      DriveChain(plan, edit, i, chain, links, vars, cons);
      if last.value != i {
        failed := true;
      }
    }
  }
}
