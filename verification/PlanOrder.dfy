/** What makes a list of constraints a plan, and what its extraction keeps. */
module PlanOrder {
  import opened Constraints

  ghost function Elements(plan: seq<Constraint>): set<Constraint> {
    set c | c in plan
  }

  ghost function Satisfied(cons: set<Constraint>): set<Constraint>
    reads cons`satisfied, cons`direction
  {
    set c | c in cons && c.IsSatisfied()
  }

  /** The satisfied constraints in list other than the determining one, in their order. */
  ghost function Consuming(list: seq<Constraint>, determining: Constraint?, satisfied: set<Constraint>):
    (r: seq<Constraint>)
  {
    if list == [] then [] else
      var n := |list| - 1;
      var rest := Consuming(list[..n], determining, satisfied);
      if list[n] != determining && list[n] in satisfied then rest + [list[n]] else rest
  }

  lemma {:induction false} ConsumingElements(list: seq<Constraint>, determining: Constraint?,
                                             satisfied: set<Constraint>)
    ensures forall c | c in Consuming(list, determining, satisfied) ::
        c in list && c != determining && c in satisfied
    ensures forall c | c in list && c != determining && c in satisfied ::
        c in Consuming(list, determining, satisfied)
  {
    if list != [] {
      ConsumingElements(list[..|list| - 1], determining, satisfied);
    }
  }

  /** No output is written twice. */
  ghost predicate WritesOnce(plan: seq<Constraint>)
    reads Elements(plan)`direction
  {
    forall i, j | 0 <= i < j < |plan| :: plan[i].Output() != plan[j].Output()
  }

  /** No input is written once it has been read. */
  ghost predicate WritesBeforeReading(plan: seq<Constraint>)
    reads Elements(plan)`direction
  {
    forall i, j | 0 <= i <= j < |plan| && plan[i].relation.Equality? :: plan[i].Input() != plan[j].Output()
  }

  ghost predicate AllHold(cons: set<Constraint>)
    reads cons`direction, (set c, v | c in cons && v in c.Variables() :: v)`value
  {
    forall c | c in cons :: c.Holds()
  }

  ghost function Written(plan: seq<Constraint>): set<Variable>
    reads Elements(plan)`direction
  {
    set c | c in plan && c.relation.Equality? :: c.Output()
  }

  /** The first n constraints of the plan hold. */
  ghost predicate Done(plan: seq<Constraint>, n: nat)
    requires n <= |plan|
    reads Elements(plan)`direction, (set c, v | c in plan && v in c.Variables() :: v)`value
  {
    forall k | 0 <= k < n :: plan[k].Holds()
  }

  lemma HeldAlready(plan: seq<Constraint>, i: nat)
    requires i < |plan|
    ensures AllHold(Elements(plan)) ==> plan[i].Holds()
    ensures plan[i].relation.Equality? ==> plan[i].Output() in Written(plan)
  {
    assert plan[i] in Elements(plan);
  }

  /** Executing the next constraint upsets none before it. */
  twostate lemma DoneNext(plan: seq<Constraint>, new i: nat)
    requires WritesOnce(plan) && WritesBeforeReading(plan) && i < |plan| && old(Done(plan, i)) && plan[i].Holds()
    requires forall c | c in plan :: c.direction == old(c.direction)
    requires forall c | c in plan :: forall v | v in c.Variables() ::
        v.value == old(v.value) || (plan[i].relation.Equality? && v == plan[i].Output())
    ensures Done(plan, i + 1)
  {
    forall k | 0 <= k < i ensures plan[k].Holds() {
      assert old(plan[k].Holds()) && plan[k] in plan;
      assert plan[k].Output() in plan[k].Variables() && plan[k].Output() != plan[i].Output();
      assert plan[k].relation.Equality? ==>
        plan[k].Input() in plan[k].Variables() && plan[k].Input() != plan[i].Output();
    }
  }

  ghost function Outputs(plan: seq<Constraint>): set<Variable>
    reads Elements(plan)`direction
  {
    set c | c in plan :: c.Output()
  }

  /** The constraint is eligible for a plan. */
  ghost predicate Moving(c: Constraint)
    reads c`satisfied, c`direction, c.Variables()`stay
  {
    c.IsSatisfied() && !c.Output().stay
  }

  /** An equality whose input still has to be computed. */
  ghost predicate Waiting(c: Constraint)
    reads c`direction, c.Variables()`stay, c.Variables()`determinedBy
  {
    c.relation.Equality? && !c.Input().stay && c.Input().determinedBy != null
  }

  /** Everything that reads an output of the plan is in the plan. */
  ghost predicate Closed(plan: seq<Constraint>, cons: set<Constraint>)
    reads Elements(plan)`direction, cons`satisfied, cons`direction
  {
    forall c | c in cons && c.IsSatisfied() && c.relation.Equality? && c.Input() in Outputs(plan) :: c in plan
  }

  /** Each constraint is there as a source or because an earlier one computes its input. */
  ghost predicate Justified(plan: seq<Constraint>, sources: seq<Constraint>)
    reads Elements(plan)`direction
  {
    forall k | 0 <= k < |plan| ::
      plan[k] in sources || (plan[k].relation.Equality? && plan[k].Input() in Outputs(plan[..k]))
  }

  /** The input of c is computed by the plan so far, which wrote the variables in marked, or not at all. */
  ghost predicate Ready(c: Constraint, marked: set<Variable>)
    reads c`direction, c.Variables()`stay, c.Variables()`determinedBy
  {
    c.relation.Equality? ==> c.Input() in marked || c.Input().stay || c.Input().determinedBy == null
  }

  /** p wrote exactly the marked variables. */
  ghost predicate Planned(p: seq<Constraint>, marked: set<Variable>, vars: set<Variable>, cons: set<Constraint>)
    reads vars`stay, vars`determinedBy, cons`satisfied, cons`direction
  {
    && (forall c | c in cons :: c.Variables() <= vars)
    && marked <= vars
    && (forall c | c in p :: c in cons && Moving(c) && Ready(c, marked) && c.Output() in marked)
    && (forall v | v in marked :: v.determinedBy != null && v.determinedBy in p)
  }

  /** What is left to look at, and what that list cannot have missed. */
  ghost predicate Pending(todo: seq<Constraint>, sources: seq<Constraint>, marked: set<Variable>,
                          vars: set<Variable>, cons: set<Constraint>)
    reads vars`stay, vars`determinedBy, cons`satisfied, cons`direction
  {
    && (forall c | c in cons :: c.Variables() <= vars)
    && (forall c | c in todo :: c in cons && Moving(c) &&
          (c in sources || (c.relation.Equality? && c.Input() in marked)))
    && (forall c | c in cons && c.IsSatisfied() && c.relation.Equality? && c.Input() in marked ::
          c.Output() in marked || c in todo)
    && (forall s | s in sources :: s in cons && Moving(s) && (s in todo || s.Output() in marked || Waiting(s)))
  }

  /** A plan that may be run from front to back. */
  ghost predicate Straight(p: seq<Constraint>, cons: set<Constraint>)
    reads cons`direction
  {
    (forall c | c in p :: c in cons) && WritesOnce(p) && WritesBeforeReading(p)
  }

  /** As Straight, with nothing in the plan that need not be there. */
  ghost predicate Ordered(p: seq<Constraint>, sources: seq<Constraint>, cons: set<Constraint>)
    reads cons`direction
  {
    Straight(p, cons) && Justified(p, sources)
  }

  lemma {:induction false} JustifiedByMore(plan: seq<Constraint>, sources: seq<Constraint>, more: seq<Constraint>)
    requires Justified(plan, sources) && forall c | c in sources :: c in more
    ensures Justified(plan, more)
  {
  }

  /** A variable is the output of one satisfied constraint at most. */
  lemma {:induction false} OutputIsOwn(c: Constraint, d: Constraint, vars: set<Variable>, cons: set<Constraint>)
    requires Determined(vars, cons)
    requires c in cons && c.IsSatisfied() && d in cons && d.IsSatisfied() && c.Output() == d.Output()
    ensures c == d
  {
  }

  lemma {:induction false} ExtendPlanned(p: seq<Constraint>, c: Constraint, marked: set<Variable>,
                                         vars: set<Variable>, cons: set<Constraint>)
    requires Dataflow(vars, cons) && Planned(p, marked, vars, cons)
    requires c in cons && Moving(c) && Ready(c, marked) && c.Output() !in marked
    ensures Planned(p + [c], marked + {c.Output()}, vars, cons)
  {
  }

  lemma {:induction false} ExtendOrdered(p: seq<Constraint>, c: Constraint, marked: set<Variable>,
                                         sources: seq<Constraint>, vars: set<Variable>, cons: set<Constraint>)
    requires Dataflow(vars, cons) && Planned(p, marked, vars, cons) && Ordered(p, sources, cons)
    requires c in cons && Moving(c) && Ready(c, marked) && c.Output() !in marked
    requires c in sources || (c.relation.Equality? && c.Input() in marked)
    ensures Ordered(p + [c], sources, cons)
  {
    var q := p + [c];
    forall i, j | 0 <= i <= j < |q| && q[i].relation.Equality? ensures q[i].Input() != q[j].Output() {
      if j == |p| {
        assert Ready(q[i], marked) && q[j].Output().determinedBy == c;
      }
    }
    forall k | 0 <= k < |q|
      ensures q[k] in sources || (q[k].relation.Equality? && q[k].Input() in Outputs(q[..k]))
    {
      if k < |p| {
        assert q[..k] == p[..k];
      } else {
        assert q[..k] == p;
      }
    }
  }

  lemma {:induction false} ExtendPending(todo: seq<Constraint>, c: Constraint, marked: set<Variable>,
                                         sources: seq<Constraint>, vars: set<Variable>, cons: set<Constraint>)
    requires Dataflow(vars, cons) && Pending(todo + [c], sources, marked, vars, cons)
    ensures Pending(todo + Consuming(c.Output().constraints.elms, c.Output().determinedBy, Satisfied(cons)), sources,
                    marked + {c.Output()}, vars, cons)
  {
    var v := c.Output();
    assert c in todo + [c];
    var consuming := Consuming(v.constraints.elms, v.determinedBy, Satisfied(cons));
    ConsumingElements(v.constraints.elms, v.determinedBy, Satisfied(cons));
    forall d | d in consuming ensures d in cons && Moving(d) && d.relation.Equality? && d.Input() == v {
    }
  }

  lemma {:induction false} NextPending(todo: seq<Constraint>, c: Constraint, marked: set<Variable>,
                                       sources: seq<Constraint>, vars: set<Variable>, cons: set<Constraint>)
    requires Dataflow(vars, cons) && Pending(todo + [c], sources, marked, vars, cons)
    ensures c in cons && c.Output() in vars && (c.relation.Equality? ==> c.Input() in vars)
  {
    assert c in todo + [c];
  }

  lemma {:induction false} DropPending(todo: seq<Constraint>, c: Constraint, marked: set<Variable>,
                                       sources: seq<Constraint>, vars: set<Variable>, cons: set<Constraint>)
    requires Dataflow(vars, cons) && Pending(todo + [c], sources, marked, vars, cons)
    requires c.Output() in marked || !Ready(c, marked)
    ensures Pending(todo, sources, marked, vars, cons)
  {
  }

  lemma {:induction false} PlanStarts(sources: seq<Constraint>, vars: set<Variable>, cons: set<Constraint>)
    requires Dataflow(vars, cons)
    requires forall c | c in sources :: c in cons && Moving(c)
    ensures Planned([], {}, vars, cons) && Pending(sources, sources, {}, vars, cons) && Ordered([], sources, cons)
  {
  }

  lemma {:induction false} PlanComplete(p: seq<Constraint>, marked: set<Variable>, sources: seq<Constraint>,
                                        vars: set<Variable>, cons: set<Constraint>)
    requires Dataflow(vars, cons) && Planned(p, marked, vars, cons) && Pending([], sources, marked, vars, cons)
    requires Ordered(p, sources, cons)
    ensures WritesOnce(p) && WritesBeforeReading(p) && Justified(p, sources)
    ensures forall c | c in p :: c in cons && Moving(c)
    ensures Closed(p, cons)
    ensures forall s | s in sources :: s in p || (Waiting(s) && s.Input() !in Outputs(p))
  {
    forall c | c in cons && c.IsSatisfied() && c.Output() in marked ensures c in p {
      assert c.Output().determinedBy == c;
    }
  }

  lemma {:induction false} ExtendStep(p: seq<Constraint>, todo: seq<Constraint>, c: Constraint, marked: set<Variable>,
                                      sources: seq<Constraint>, vars: set<Variable>, cons: set<Constraint>)
    requires Dataflow(vars, cons) && Planned(p, marked, vars, cons) && Ordered(p, sources, cons)
    requires Pending(todo + [c], sources, marked, vars, cons)
    requires c.Output() !in marked && Ready(c, marked)
    ensures c.Output().constraints in Lists(vars)
    ensures forall d | d in c.Output().constraints.elms :: d in cons
    ensures Planned(p + [c], marked + {c.Output()}, vars, cons) && Ordered(p + [c], sources, cons)
    ensures Pending(todo + Consuming(c.Output().constraints.elms, c.Output().determinedBy, Satisfied(cons)), sources,
                    marked + {c.Output()}, vars, cons)
  {
    assert c in todo + [c];
    ExtendPlanned(p, c, marked, vars, cons);
    ExtendOrdered(p, c, marked, sources, vars, cons);
    ExtendPending(todo, c, marked, sources, vars, cons);
  }

  /** The marked variables are those that carry mark, the highest so far. */
  ghost predicate Marks(marked: set<Variable>, mark: nat, vars: set<Variable>)
    reads vars`mark
  {
    forall v | v in vars :: v.mark <= mark && (v.mark == mark <==> v in marked)
  }

  lemma {:induction false} ReadyIsKnown(c: Constraint, marked: set<Variable>, mark: nat, vars: set<Variable>)
    requires c.Output() in vars && (c.relation.Equality? ==> c.Input() in vars) && Marks(marked, mark, vars)
    ensures Ready(c, marked) <==> c.InputsKnown(mark)
    ensures c.Output() in marked <==> c.Output().mark == mark
  {
  }

  /** The plan was taken from the graph. */
  ghost predicate Extracted(plan: seq<Constraint>, cons: set<Constraint>)
    reads cons`satisfied, cons`direction
  {
    (forall c | c in plan :: c in cons && c.IsSatisfied()) && Closed(plan, cons)
  }

  /** Satisfied constraints outside the plan share no variable with its outputs. */
  lemma {:induction false} RestIsApart(plan: seq<Constraint>, d: Constraint, vars: set<Variable>, cons: set<Constraint>)
    requires Dataflow(vars, cons) && Extracted(plan, cons)
    requires d in cons && d.IsSatisfied() && d !in plan && d.relation.Equality?
    ensures d.Input() !in Outputs(plan) && d.Output() !in Outputs(plan)
  {
    forall c | c in plan ensures c.Output() != d.Output() {
      if c.Output() == d.Output() {
        OutputIsOwn(c, d, vars, cons);
      }
    }
  }

  /** The constraints in rest share no variable with the outputs of the plan. */
  ghost predicate Insulated(plan: seq<Constraint>, rest: set<Constraint>)
    reads Elements(plan)`direction, rest`direction
  {
    forall d | d in rest && d.relation.Equality? :: d.Input() !in Outputs(plan) && d.Output() !in Outputs(plan)
  }

  ghost function Rest(plan: seq<Constraint>, cons: set<Constraint>): set<Constraint>
    reads cons`satisfied, cons`direction
  {
    set d | d in cons && d.IsSatisfied() && d !in plan
  }

  lemma {:induction false} RestIsInsulated(plan: seq<Constraint>, vars: set<Variable>, cons: set<Constraint>)
    requires Dataflow(vars, cons) && Extracted(plan, cons)
    ensures Insulated(plan, Rest(plan, cons))
  {
    forall d | d in Rest(plan, cons) && d.relation.Equality?
      ensures d.Input() !in Outputs(plan) && d.Output() !in Outputs(plan)
    {
      RestIsApart(plan, d, vars, cons);
    }
  }

  /** An edited variable is not computed by the plan. */
  lemma {:induction false} EditIsApart(plan: seq<Constraint>, edit: Constraint, vars: set<Variable>,
                                       cons: set<Constraint>)
    requires Dataflow(vars, cons) && Extracted(plan, cons) && edit in plan && edit.IsInput()
    ensures edit.Output() !in Written(plan)
  {
    forall c | c in plan && c.Output() == edit.Output() ensures c == edit {
      OutputIsOwn(c, edit, vars, cons);
    }
  }

  lemma {:induction false} InputMoves(c: Constraint, vars: set<Variable>, cons: set<Constraint>)
    requires Dataflow(vars, cons) && c in cons && c.IsInput() && c.IsSatisfied()
    ensures Moving(c)
  {
    assert StayFlag(c);
  }

  /** Equalities that pass the value of the first variable on to the last. */
  ghost predicate Chained(chain: seq<Variable>, links: seq<Constraint>)
    reads Elements(links)`direction
  {
    && |chain| == |links| + 1
    && forall i | 0 <= i < |links| ::
      links[i].relation.Equality? && links[i].Input() == chain[i] && links[i].Output() == chain[i + 1]
  }

  /** The plan reaches every link of a chain that starts at one of its outputs. */
  lemma {:induction false} ChainPlanned(plan: seq<Constraint>, chain: seq<Variable>, links: seq<Constraint>, k: nat,
                                        cons: set<Constraint>)
    requires Closed(plan, cons) && Chained(chain, links) && k <= |links| && chain[0] in Outputs(plan)
    requires forall c | c in links :: c in cons && c.IsSatisfied()
    ensures chain[k] in Outputs(plan) && (k < |links| ==> links[k] in plan)
  {
    if k > 0 {
      ChainPlanned(plan, chain, links, k - 1, cons);
    }
  }

  lemma {:induction false} ChainCarries(chain: seq<Variable>, links: seq<Constraint>, k: nat)
    requires Chained(chain, links) && k <= |links| && forall c | c in links :: c.Holds()
    ensures chain[k].value == chain[0].value
  {
    if k > 0 {
      ChainCarries(chain, links, k - 1);
      assert links[k - 1].Holds();
    }
  }

  lemma {:induction false} ChainRuns(plan: seq<Constraint>, chain: seq<Variable>, links: seq<Constraint>,
                                     cons: set<Constraint>)
    requires Extracted(plan, cons) && AllHold(Elements(plan))
    requires Chained(chain, links) && exists c | c in plan :: c.Output() == chain[0]
    requires forall c | c in links :: c in cons && c.IsSatisfied()
    ensures chain[|links|].value == chain[0].value
  {
    forall k | 0 <= k < |links| ensures links[k].Holds() {
      ChainPlanned(plan, chain, links, k, cons);
      assert links[k] in Elements(plan);
    }
    ChainCarries(chain, links, |links|);
  }

  lemma {:induction false} PlanWritesGraph(plan: seq<Constraint>, vars: set<Variable>, cons: set<Constraint>)
    requires Dataflow(vars, cons) && Extracted(plan, cons)
    ensures (forall c | c in plan :: c.Output() in vars) && Written(plan) <= vars
  {
  }
}
