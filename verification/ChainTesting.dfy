/** The chain benchmark, from an empty planner to its hundred edits. */
module ChainTesting {
  import opened OrderedCollections
  import opened Constraints
  import opened PlanOrder
  import opened Planning
  import opened Propagation
  import opened Chains
  import opened Solving

  ghost function Members<T>(s: seq<T>): set<T> {
    set x | x in s
  }

  ghost function Reversed<T>(s: seq<T>): (r: seq<T>)
    ensures |r| == |s| && forall i | 0 <= i < |s| :: r[i] == s[|s| - 1 - i]
    ensures Members(r) == Members(s)
  {
    var r := seq(|s|, i requires 0 <= i < |s| => s[|s| - 1 - i]);
    assert forall i | 0 <= i < |s| :: s[i] == r[|s| - 1 - i];
    r
  }

  /** The graph is a chain of required equalities, all satisfied, whose first variable is free. */
  ghost predicate Grown(chain: seq<Variable>, links: seq<Constraint>)
    reads Members(chain)`determinedBy, Members(chain)`walkStrength, Members(links)`satisfied, Members(links)`direction
  {
    && Joined(chain, links) && chain[0].determinedBy == null && chain[0].walkStrength == WEAKEST
    && forall c | c in links :: c.IsSatisfied()
  }

  lemma {:induction false} ReversedJoined(chain: seq<Variable>, links: seq<Constraint>)
    requires Joined(chain, links)
    ensures Joined(Reversed(chain), Reversed(links))
  {
    var n, path, back := |links|, Reversed(chain), Reversed(links);
    forall i, j | 0 <= i < j < |path| ensures path[i] != path[j] {
      assert chain[n - j] != chain[n - i];
    }
    forall i | 0 <= i < n ensures back[i].Variables() == {path[i], path[i + 1]} {
      assert links[n - 1 - i].Variables() == {chain[n - 1 - i], chain[n - i]};
    }
  }

  /** The sweep that a stay constraint at the end of the chain sets off, back to its free beginning. */
  lemma {:induction false} StayPoised(chain: seq<Variable>, links: seq<Constraint>, stay: Constraint, mark: nat,
                                      vars: set<Variable>)
    requires Grown(chain, links) && Members(chain) <= vars && MarksUpTo(mark, vars)
    requires stay.relation == Stay(chain[|links|]) && stay.strength == STRONG_DEFAULT && !stay.IsSatisfied()
    ensures var s := Along(Reversed(chain), Reversed(links), stay, null, STRONG_DEFAULT, WEAKEST);
      Laid(s, vars, Members(links) + {stay}) && Swept(s, -1, mark + 1)
  {
    ReversedJoined(chain, links);
    var s := Along(Reversed(chain), Reversed(links), stay, null, STRONG_DEFAULT, WEAKEST);
    forall c | c in s.links ensures c in links && c.relation.Equality? {
      assert c in Members(links);
    }
    forall v | v in s.path ensures v in vars && v.mark != mark + 1 {
      assert v in Members(s.path) && v in Members(chain);
    }
  }

  /** The sweep that an edit constraint at the beginning sets off, up to the stay constraint. */
  lemma {:induction false} EditPoised(chain: seq<Variable>, links: seq<Constraint>, stay: Constraint, edit: Constraint,
                                      mark: nat, vars: set<Variable>)
    requires Joined(chain, links) && Members(chain) <= vars && MarksUpTo(mark, vars)
    requires forall c | c in links :: c.IsSatisfied()
    requires stay.relation == Stay(chain[|links|]) && stay.strength == STRONG_DEFAULT && stay.IsSatisfied()
    requires Stable(vars, Members(links) + {stay})
    requires edit.relation == Edit(chain[0]) && edit.strength == PREFERRED && !edit.IsSatisfied()
    ensures var s := Along(chain, links, edit, stay, PREFERRED, STRONG_DEFAULT);
      Laid(s, vars, Members(links) + {stay} + {edit}) && Swept(s, -1, mark + 1)
  {
    var s := Along(chain, links, edit, stay, PREFERRED, STRONG_DEFAULT);
    StableOutputs(vars, Members(links) + {stay});
    forall c | c in links ensures c.relation.Equality? && c.IsSatisfied() {
    }
    forall v | v in s.path ensures v in vars && v.mark != mark + 1 {
      assert v in Members(chain);
    }
  }

  /** Once the edit has turned the chain, it flows from its first variable to its last one. */
  lemma {:induction false} TurnedChain(s: Sweep, mark: nat, vars: set<Variable>, cons: set<Constraint>)
    requires Laid(s, vars, cons) && Swept(s, |s.links|, mark) && Stable(vars, cons) && !s.start.relation.Equality?
    ensures Chained(s.path, s.links) && s.start.IsSatisfied() && forall c | c in s.links :: c in cons && c.IsSatisfied()
  {
    StableOutputs(vars, cons);
    forall i | 0 <= i < |s.links| ensures s.links[i].Input() == s.path[i] && s.links[i].Output() == s.path[i + 1] {
      FlowsAway(s, |s.links|, mark, i + 1, vars, cons);
      assert s.links[i].Variables() == {s.path[i], s.path[i + 1]} && s.path[i + 1] in vars;
    }
  }

  /** A new variable at the end of the chain, with an equality to the one before it. */
  lemma {:induction false} LinkPoised(chain: seq<Variable>, links: seq<Constraint>, v: Variable, link: Constraint,
                                      mark: nat, vars: set<Variable>)
    requires Joined(chain, links) && Members(chain) <= vars && v !in vars && v.mark <= mark
    requires v.determinedBy == null && v.walkStrength == WEAKEST
    requires link.relation == Equality(chain[|links|], v) && link.strength == REQUIRED && !link.IsSatisfied()
    requires link !in links
    ensures var s := Along([v], [], link, null, REQUIRED, WEAKEST);
      Laid(s, vars + {v}, Members(links) + {link}) && Swept(s, -1, mark + 1)
  {
    assert chain[|links|] in Members(chain);
    forall d | d in Members(links) ensures v !in d.Variables() {
      var i :| 0 <= i < |links| && links[i] == d;
      assert d.Variables() == {chain[i], chain[i + 1]} && chain[i] in Members(chain) && chain[i + 1] in Members(chain);
    }
  }

  lemma {:induction false} LinkJoined(chain: seq<Variable>, links: seq<Constraint>, v: Variable, link: Constraint)
    requires Joined(chain, links) && v !in chain
    requires link.relation == Equality(chain[|links|], v) && link.strength == REQUIRED
    ensures Joined(chain + [v], links + [link])
    ensures Members(chain + [v]) == Members(chain) + {v} && Members(links + [link]) == Members(links) + {link}
  {
    var path, more := chain + [v], links + [link];
    forall i, j | 0 <= i < j < |path| ensures path[i] != path[j] {
      assert path[i] in chain;
    }
    forall i | 0 <= i < |more| ensures more[i].Variables() == {path[i], path[i + 1]} {
      assert i < |links| ==> more[i] == links[i];
    }
  }

  method Link(planner: Planner, prev: Variable, v: Variable, ghost chain: seq<Variable>, ghost links: seq<Constraint>)
    returns (ghost link: Constraint)
    requires Grown(chain, links) && prev == chain[|links|] && v !in chain
    requires v.determinedBy == null && v.walkStrength == WEAKEST
    requires Stable(Members(chain) + {v}, Members(links)) && MarksUpTo(planner.currentMark, Members(chain) + {v})
    modifies planner`currentMark, Lists(Members(chain) + {v})`elms
    modifies (Members(chain) + {v})`mark, (Members(chain) + {v})`determinedBy, (Members(chain) + {v})`walkStrength
    modifies (Members(chain) + {v})`stay, (Members(chain) + {v})`value
    modifies Members(links)`satisfied, Members(links)`direction
    ensures fresh(link) && Grown(chain + [v], links + [link])
    ensures Members(chain + [v]) == Members(chain) + {v} && Members(links + [link]) == Members(links) + {link}
    ensures Stable(Members(chain + [v]), Members(links + [link]))
    ensures MarksUpTo(planner.currentMark, Members(chain + [v]))
  {
    hide Stable, Laid, Swept, Refuses;
    ghost var vars, cons := Members(chain), Members(links);
    ghost var lists := Lists(vars + {v});
    var equality := new Constraint(Equality(prev, v), REQUIRED);
    link := equality;
    LinkPoised(chain, links, v, link, planner.currentMark, vars);
    LinkJoined(chain, links, v, link);
    ghost var s := Along([v], [], link, null, REQUIRED, WEAKEST);
    assert link.Variables() <= vars + {v};
    var outcome;
    ghost var lost;
    outcome, lost := AddConstraint(planner, equality, s, vars + {v}, cons);
  }

  /** One more variable, and an equality between it and the one before it, if there is one. */
  method Grow(planner: Planner, prev: Variable?, ghost chain: seq<Variable>, ghost links: seq<Constraint>)
    returns (v: Variable, ghost more: seq<Constraint>)
    requires if prev == null then chain == [] && links == [] else Grown(chain, links) && prev == chain[|links|]
    requires Stable(Members(chain), Members(links)) && MarksUpTo(planner.currentMark, Members(chain))
    modifies planner`currentMark, Lists(Members(chain))`elms, Members(chain)`mark, Members(chain)`determinedBy
    modifies Members(chain)`walkStrength, Members(chain)`stay, Members(chain)`value
    modifies Members(links)`satisfied, Members(links)`direction
    ensures fresh(v) && fresh(v.constraints) && fresh(Members(more) - Members(links)) && Grown(chain + [v], more)
    ensures |more| == |chain| && Members(chain + [v]) == Members(chain) + {v}
    ensures Stable(Members(chain + [v]), Members(more)) && MarksUpTo(planner.currentMark, Members(chain + [v]))
  {
    hide Stable;
    ghost var lists := Lists(Members(chain));
    v := NewVariable(0, Members(chain), Members(links));
    assert v !in chain by { assert v !in Members(chain); }
    more := links;
    if prev != null {
      ghost var link := Link(planner, prev, v, chain, links);
      more := links + [link];
    } else {
      assert Members([v]) == {} + {v};
    }
  }

  lemma ListsTogether(chain: seq<Variable>, v: Variable)
    ensures Lists(Members(chain) + {v}) == Lists(Members(chain)) + {v.constraints}
  {
  }

  /** Build a chain of n equality constraints. */
  method BuildChain(planner: Planner, n: nat)
    returns (first: Variable, last: Variable, ghost chain: seq<Variable>, ghost links: seq<Constraint>)
    requires planner.currentMark == 0
    modifies planner`currentMark
    ensures fresh(Members(chain)) && fresh(Members(links)) && fresh(Lists(Members(chain)))
    ensures |links| == n && |chain| == n + 1 && Grown(chain, links) && first == chain[0] && last == chain[n]
    ensures Stable(Members(chain), Members(links)) && MarksUpTo(planner.currentMark, Members(chain))
  {
    hide Stable, Grown;
    chain, links := [], [];
    NothingIsStable();
    var prev: Variable?, head: Variable?, tail: Variable? := null, null, null;
    assert Members<Variable>([]) == {} && Members<Constraint>([]) == {};
    for i := 0 to n + 1
      invariant fresh(Members(chain)) && fresh(Members(links)) && fresh(Lists(Members(chain)))
      invariant i == 0 ==> prev == null && chain == [] && links == []
      invariant i > 0 ==>
          |chain| == i && |links| == i - 1 && Grown(chain, links) && head == chain[0] && prev == chain[i - 1]
      invariant i > n ==> tail == prev
      invariant Stable(Members(chain), Members(links)) && MarksUpTo(planner.currentMark, Members(chain))
    {
      var v;
      ghost var more;
      v, more := Grow(planner, prev, chain, links);
      ListsTogether(chain, v);
      if i == 0 {
        head := v;
      }
      if i == n {
        tail := v;
      }
      chain, links, prev := chain + [v], more, v;
    }
    return head, tail, chain, links;
  }

  /** A stay constraint at the end of the chain. */
  method Anchor(planner: Planner, last: Variable, ghost chain: seq<Variable>, ghost links: seq<Constraint>)
    returns (ghost stay: Constraint)
    requires Grown(chain, links) && last == chain[|links|]
    requires Stable(Members(chain), Members(links)) && MarksUpTo(planner.currentMark, Members(chain))
    modifies planner`currentMark, Lists(Members(chain))`elms, Members(chain)`mark, Members(chain)`determinedBy
    modifies Members(chain)`walkStrength, Members(chain)`stay, Members(chain)`value
    modifies Members(links)`satisfied, Members(links)`direction
    ensures fresh(stay) && stay.relation == Stay(last) && stay.strength == STRONG_DEFAULT && stay.IsSatisfied()
    ensures Stable(Members(chain), Members(links) + {stay}) && MarksUpTo(planner.currentMark, Members(chain))
    ensures Joined(chain, links) && forall c | c in links :: c.IsSatisfied()
  {
    hide Stable, Laid, Refuses;
    ghost var vars, cons := Members(chain), Members(links);
    var c := new Constraint(Stay(last), STRONG_DEFAULT);
    stay := c;
    StayPoised(chain, links, c, planner.currentMark, vars);
    ghost var s := Along(Reversed(chain), Reversed(links), c, null, STRONG_DEFAULT, WEAKEST);
    assert c.Variables() <= vars by { assert last in Members(chain); }
    var outcome;
    ghost var lost;
    outcome, lost := AddConstraint(planner, c, s, vars, cons);
    forall d | d in links ensures d.IsSatisfied() {
      assert d in Members(s.links);
    }
  }

  /** An edit constraint at the beginning of the chain: it overrides the stay constraint, and the chain flows to its
      end. */
  method Steer(planner: Planner, first: Variable, ghost stay: Constraint, ghost chain: seq<Variable>,
               ghost links: seq<Constraint>)
    returns (edit: Constraint)
    requires Joined(chain, links) && first == chain[0] && forall c | c in links :: c.IsSatisfied()
    requires stay.relation == Stay(chain[|links|]) && stay.strength == STRONG_DEFAULT && stay.IsSatisfied()
    requires Stable(Members(chain), Members(links) + {stay}) && MarksUpTo(planner.currentMark, Members(chain))
    modifies planner`currentMark, Lists(Members(chain))`elms, Members(chain)`mark, Members(chain)`determinedBy
    modifies Members(chain)`walkStrength, Members(chain)`stay, Members(chain)`value
    modifies (Members(links) + {stay})`satisfied, (Members(links) + {stay})`direction
    ensures fresh(edit) && edit.relation == Edit(first) && edit.IsSatisfied() && Chained(chain, links)
    ensures Stable(Members(chain), Members(links) + {stay} + {edit})
    ensures MarksUpTo(planner.currentMark, Members(chain)) && forall c | c in links :: c.IsSatisfied()
  {
    hide Stable, Laid, Refuses, Swept;
    ghost var vars, cons := Members(chain), Members(links) + {stay};
    edit := new Constraint(Edit(first), PREFERRED);
    EditPoised(chain, links, stay, edit, planner.currentMark, vars);
    ghost var s := Along(chain, links, edit, stay, PREFERRED, STRONG_DEFAULT);
    assert edit.Variables() <= vars by { assert first in Members(chain); }
    var outcome;
    ghost var lost;
    outcome, lost := AddConstraint(planner, edit, s, vars, cons);
    TurnedChain(s, planner.currentMark, vars, cons + {edit});
  }

  /** The constraints of the benchmark: a chain with a stay constraint at its end and an edit at its beginning. It
      flows from the edit to the end. */
  method Prepare(planner: Planner, n: nat)
    returns (first: Variable, last: Variable, edit: Constraint, ghost chain: seq<Variable>,
             ghost links: seq<Constraint>, ghost cons: set<Constraint>)
    requires planner.currentMark == 0
    modifies planner`currentMark
    ensures fresh(Members(chain)) && Dataflow(Members(chain), cons)
    ensures MarksUpTo(planner.currentMark, Members(chain))
    ensures |links| == n && Chained(chain, links) && first == chain[0] && last == chain[n]
    ensures edit in cons && edit.relation == Edit(first) && edit.IsSatisfied()
    ensures forall c | c in links :: c in cons && c.IsSatisfied()
  {
    hide Stable, Grown, Joined, Dataflow, MarksUpTo;
    first, last, chain, links := BuildChain(planner, n);
    ghost var stay := Anchor(planner, last, chain, links);
    edit := Steer(planner, first, stay, chain, links);
    cons := Members(links) + {stay} + {edit};
    StableIsDataflow(Members(chain), cons);
  }

  /** The benchmark never fails, however long the chain: the constructors build it, the edit turns it, and each of the
      hundred values set at its first variable arrives at its last. */
  method ChainTest(n: nat) returns (failed: bool)
    ensures !failed
  {
    hide Dataflow;
    var planner := new Planner();
    var first, last, edit;
    ghost var chain, links, cons;
    first, last, edit, chain, links, cons := Prepare(planner, n);
    ghost var lists := Lists(Members(chain));
    var edits := new OrderedCollection<Constraint>();
    edits.Add(edit);
    assert edits !in lists && edits.elms == [edit];
    failed := EditChain(planner, edits, first, last, edit, chain, links, Members(chain), cons);
  }
}
