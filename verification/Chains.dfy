/** How enforcing one constraint turns a whole chain of required equalities round, link by link. */
module Chains {
  import opened Constraints
  import opened Propagation

  /** A way along which a chain is turned: from path[0] to the last variable, across the links. The constraint start
      brings the strength w where there was u before, and end determines the last variable until it is reached. */
  datatype Sweep =
    | Anywhere
    | Along(path: seq<Variable>, links: seq<Constraint>, start: Constraint, end: Constraint?, w: Strength, u: Strength)

  ghost predicate Apart(path: seq<Variable>) {
    forall i, j | 0 <= i < j < |path| :: path[i] != path[j]
  }

  /** The links are required and join neighbours on the path. */
  ghost predicate Joined(path: seq<Variable>, links: seq<Constraint>) {
    && |path| == |links| + 1 && Apart(path)
    && forall i | 0 <= i < |links| ::
         && links[i].relation.Equality? && links[i].strength == REQUIRED
         && links[i].Variables() == {path[i], path[i + 1]}
  }

  /** The chain is part of the graph, and no other equality touches it, except that one may start at its head. */
  ghost predicate Laid(s: Sweep, vars: set<Variable>, cons: set<Constraint>) {
    && s.Along? && Joined(s.path, s.links)
    && (forall v | v in s.path :: v in vars) && (forall c | c in s.links :: c in cons)
    && (forall d | d in cons && d.relation.Equality? && d != s.start && d !in s.links ::
          forall v | v in d.Variables() :: v !in s.path)
    && s.start in cons && s.start !in s.links && s.start != s.end && s.start.strength == s.w && Stronger(s.w, s.u)
    && (if s.start.relation.Equality? then
          s.links == [] && s.start.relation.v1 !in s.path && s.start.relation.v2 == s.path[0] && s.u == WEAKEST
        else
          s.start.relation.myOutput == s.path[0])
    && (s.end != null ==>
          && s.end in cons && !s.end.relation.Equality? && s.end.relation.myOutput == s.path[|s.links|]
          && s.end.strength == s.u)
  }

  /** What is enforced next when the path carries the mark up to place k. */
  ghost function NextOf(s: Sweep, k: int): Constraint?
    requires s.Along? && -1 <= k <= |s.links|
  {
    if k == -1 then s.start else if k < |s.links| then s.links[k] else s.end
  }

  /** The path carries the mark up to place k, and what is to be enforced next is the only constraint of the chain
      that is not satisfied. */
  ghost predicate Swept(s: Sweep, k: int, mark: nat)
    requires s.Along? && |s.path| == |s.links| + 1
    reads (set v | v in s.path)`walkStrength, (set v | v in s.path)`mark, (set v | v in s.path)`determinedBy
    reads (set c | c in s.links)`satisfied, (set c | c in s.links)`direction
    reads s.start`satisfied, s.start`direction
    reads (if s.end == null then {} else {s.end})`satisfied, (if s.end == null then {} else {s.end})`direction
  {
    var n := |s.links|;
    && -1 <= k <= n
    && (forall i | 0 <= i <= n :: s.path[i].mark == mark <==> i <= k)
    && (forall i | 0 <= i < n :: s.links[i].IsSatisfied() <==> i != k)
    && (s.start.IsSatisfied() <==> k != -1) && (s.end != null ==> (s.end.IsSatisfied() <==> k != n))
    && (k < n ==> s.path[n].determinedBy == s.end && (s.end == null ==> s.path[n].walkStrength == s.u))
  }

  lemma {:induction false} OtherLink(s: Sweep, i: int, j: nat, vars: set<Variable>, cons: set<Constraint>)
    requires Laid(s, vars, cons) && -1 <= i <= |s.links| && j < |s.links| && i != j
    ensures NextOf(s, i) != s.links[j]
  {
    assert s.links[j].Variables() == {s.path[j], s.path[j + 1]};
    if 0 <= i < |s.links| {
      assert s.links[i].Variables() == {s.path[i], s.path[i + 1]};
    } else if i == -1 {
      assert s.links[j] in s.links;
    }
  }

  /** Behind the mark the chain flows away from its start. */
  lemma {:induction false} FlowsAway(s: Sweep, k: int, mark: nat, i: nat, vars: set<Variable>, cons: set<Constraint>)
    requires Laid(s, vars, cons) && Swept(s, k, mark) && Stable(vars, cons) && i <= k && !s.start.relation.Equality?
    ensures s.path[i].determinedBy == NextOf(s, i - 1) && s.path[i].walkStrength == s.w
  {
    hide Stable;
    StableOutputs(vars, cons);
    if i == 0 {
      StableSettled(s.start, vars, cons);
    } else {
      FlowsAway(s, k, mark, i - 1, vars, cons);
      var c := s.links[i - 1];
      assert c in s.links && c.Variables() == {s.path[i - 1], s.path[i]} && c.Output() in c.Variables();
      OtherLink(s, i - 2, i - 1, vars, cons);
      StableSettled(c, vars, cons);
    }
  }

  /** Before the mark the chain still flows toward its start. */
  lemma {:induction false} FlowsBack(s: Sweep, k: int, mark: nat, i: nat, vars: set<Variable>, cons: set<Constraint>)
    requires Laid(s, vars, cons) && Swept(s, k, mark) && Stable(vars, cons) && k < i <= |s.links|
    ensures s.path[i].determinedBy == NextOf(s, i) && s.path[i].walkStrength == s.u
    decreases |s.links| - i
  {
    hide Stable;
    StableOutputs(vars, cons);
    if i == |s.links| {
      if s.end != null {
        StableSettled(s.end, vars, cons);
      }
    } else {
      FlowsBack(s, k, mark, i + 1, vars, cons);
      var c := s.links[i];
      assert c in s.links && c.Variables() == {s.path[i], s.path[i + 1]} && c.Output() in c.Variables();
      OtherLink(s, i + 1, i, vars, cons);
      StableSettled(c, vars, cons);
    }
  }

  /** The next constraint is enforced away from the start, and overrides the one after it. */
  lemma {:induction false} NextChoice(s: Sweep, k: int, mark: nat, vars: set<Variable>, cons: set<Constraint>)
    requires Laid(s, vars, cons) && Swept(s, k, mark) && Stable(vars, cons) && k < |s.links|
    ensures var c, v := NextOf(s, k), s.path[k + 1];
      && c != null && !Refuses(c, mark) && v.determinedBy == NextOf(s, k + 1) && v.mark != mark
      && (c.relation.Equality? ==>
            if ChosenDirection(c) == Forward then c.relation.v2 == v && c.relation.v1 != v
            else c.relation.v1 == v && c.relation.v2 != v)
      && (!c.relation.Equality? ==> c.relation.myOutput == v)
  {
    FlowsBack(s, k, mark, k + 1, vars, cons);
    hide Stable;
    if k >= 0 {
      FlowsAway(s, k, mark, k, vars, cons);
      assert s.links[k].Variables() == {s.path[k], s.path[k + 1]} && s.path[k] != s.path[k + 1];
    }
  }

  /** Once the next constraint flows into the next variable of the path, nothing flows out of that variable. */
  lemma {:induction false} NextEnclosed(s: Sweep, k: int, vars: set<Variable>, cons: set<Constraint>)
    requires Laid(s, vars, cons) && -1 <= k < |s.links|
    requires var c := NextOf(s, k);
      c != null && c.Output() == s.path[k + 1] && (c.relation.Equality? ==> c.Input() != s.path[k + 1])
    requires k + 1 < |s.links| ==> !s.links[k + 1].IsSatisfied()
    ensures Enclosed(NextOf(s, k), {s.path[k + 1]}, cons)
  {
    var v := s.path[k + 1];
    forall d | d in cons && d.IsSatisfied() && d.relation.Equality? && d.Input() == v ensures d.Output() == v {
      assert v in d.Variables() && v in s.path;
      if d in s.links {
        var j :| 0 <= j < |s.links| && s.links[j] == d;
        assert v == s.path[j] || v == s.path[j + 1];
      }
    }
  }

  /** How far a sweep has come in a graph. */
  datatype Stage = Stage(s: Sweep, k: int, vars: set<Variable>, cons: set<Constraint>)

  /** Enforcing the next constraint carries the mark one place further. */
  twostate lemma Turned(at: Stage, new mark: nat)
    requires var Stage(s, k, vars, cons) := at;
      Laid(s, vars, cons) && -1 <= k < |s.links| && old(Swept(s, k, mark))
    requires NextOf(at.s, at.k).IsSatisfied() && at.s.path[at.k + 1].mark == mark
    requires NextOf(at.s, at.k + 1) != null ==> !NextOf(at.s, at.k + 1).IsSatisfied()
    requires forall d | d in at.cons && d != NextOf(at.s, at.k) && d != NextOf(at.s, at.k + 1) ::
        d.satisfied == old(d.satisfied) && d.direction == old(d.direction)
    requires forall v | v in at.vars && old(v.mark) == mark :: v.mark == mark
    requires forall v | v in at.vars - NextOf(at.s, at.k).Variables() :: v.mark == old(v.mark)
    requires forall v | v in at.vars - {at.s.path[at.k + 1]} ::
        v.walkStrength == old(v.walkStrength) && v.determinedBy == old(v.determinedBy)
    ensures Swept(at.s, at.k + 1, mark)
  {
    var Stage(s, k, vars, cons) := at;
    var n, c := |s.links|, NextOf(s, k);
    forall i | 0 <= i <= n ensures s.path[i].mark == mark <==> i <= k + 1 {
      assert s.path[i] in vars;
      if i > k + 1 {
        assert k >= 0 ==> c.Variables() == {s.path[k], s.path[k + 1]};
        assert s.path[i] !in c.Variables();
      }
    }
    forall i | 0 <= i < n ensures s.links[i].IsSatisfied() <==> i != k + 1 {
      assert s.links[i] in s.links;
      if i != k && i != k + 1 {
        OtherLink(s, k, i, vars, cons);
        OtherLink(s, k + 1, i, vars, cons);
      }
    }
  }

  /** The constraint at the end of the path is refused, since the last variable carries the mark. */
  lemma EndRefuses(s: Sweep, mark: nat, vars: set<Variable>, cons: set<Constraint>)
    requires Laid(s, vars, cons) && Swept(s, |s.links|, mark) && s.end != null
    ensures Refuses(s.end, mark)
  {
    assert s.path[|s.links|].mark == mark;
  }

  twostate lemma Stopped(at: Stage, new mark: nat)
    requires var Stage(s, k, vars, cons) := at;
      Laid(s, vars, cons) && k == |s.links| && old(Swept(s, k, mark)) && s.end != null
    requires !at.s.end.IsSatisfied() && forall v | v in at.vars :: v.mark == old(v.mark)
    requires forall d | d in at.cons && d != at.s.end ::
        d.satisfied == old(d.satisfied) && d.direction == old(d.direction)
    ensures Swept(at.s, at.k, mark)
  {
    var Stage(s, k, vars, cons) := at;
    forall i | 0 <= i <= k ensures s.path[i].mark == mark {
      assert s.path[i] in vars;
    }
    forall i | 0 <= i < k ensures s.links[i].IsSatisfied() {
      assert s.links[i] in s.links;
      OtherLink(s, k, i, vars, cons);
    }
  }

  twostate lemma SameRefusal(c: Constraint, new mark: nat)
    requires forall v | v in c.Variables() :: v.walkStrength == old(v.walkStrength) && v.mark == old(v.mark)
    ensures Refuses(c, mark) <==> old(Refuses(c, mark))
  {
  }

  twostate lemma StillUnstarted(at: Stage, new mark: nat)
    requires var Stage(s, _, vars, cons) := at;
      Laid(s, vars, cons) && old(Swept(s, -1, mark)) && !s.start.IsSatisfied()
    requires forall v | v in at.vars ::
        v.mark == old(v.mark) && v.walkStrength == old(v.walkStrength) && v.determinedBy == old(v.determinedBy)
    requires forall d | d in at.cons && d != at.s.start ::
        d.satisfied == old(d.satisfied) && d.direction == old(d.direction)
    ensures Swept(at.s, -1, mark)
  {
    var Stage(s, _, vars, cons) := at;
    forall i | 0 <= i <= |s.links| ensures s.path[i].mark != mark {
      assert s.path[i] in vars;
    }
    forall i | 0 <= i < |s.links| ensures s.links[i].IsSatisfied() {
      assert s.links[i] in s.links;
    }
  }
}
