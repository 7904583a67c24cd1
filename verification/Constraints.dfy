/** Variables, the constraints between them, and the dataflow graph that the satisfied constraints form. */
module Constraints {
  import opened OrderedCollections

  /** Smaller is stronger. */
  type Strength = s: nat | s <= 6

  const REQUIRED: Strength := 0
  const PREFERRED: Strength := 2
  const STRONG_DEFAULT: Strength := 3
  const WEAKEST: Strength := 6

  predicate Stronger(s1: Strength, s2: Strength) {
    s1 < s2
  }

  predicate Weaker(s1: Strength, s2: Strength) {
    s1 > s2
  }

  function WeakestOf(s1: Strength, s2: Strength): Strength {
    if Weaker(s1, s2) then s1 else s2
  }

  class Variable {
    var value: int
    const constraints: OrderedCollection<Constraint>
    var determinedBy: Constraint?
    var mark: nat
    var walkStrength: Strength
    var stay: bool

    constructor (initialValue: int)
      ensures value == initialValue && determinedBy == null && mark == 0 && walkStrength == WEAKEST && stay
      ensures fresh(constraints) && constraints.elms == []
    {
      value := initialValue;
      determinedBy := null;
      mark := 0;
      walkStrength := WEAKEST;
      stay := true;
      constraints := new OrderedCollection<Constraint>();
    }
  }

  /** What a constraint says, and of which variables. */
  datatype Relation =
    | Stay(myOutput: Variable)
    | Edit(myOutput: Variable)
    | Equality(v1: Variable, v2: Variable)

  datatype Direction = Forward | Backward | NoDirection

  class Constraint {
    const relation: Relation
    const strength: Strength
    var satisfied: bool
    var direction: Direction

    constructor (relation: Relation, strength: Strength)
      ensures this.relation == relation && this.strength == strength && !IsSatisfied()
    {
      this.relation, this.strength := relation, strength;
      satisfied, direction := false, NoDirection;
    }

    ghost function Variables(): set<Variable> {
      match relation
      case Equality(v1, v2) => {v1, v2}
      case _ => {relation.myOutput}
    }

    predicate IsInput() {
      relation.Edit?
    }

    predicate IsSatisfied()
      reads `satisfied, `direction
    {
      if relation.Equality? then direction != NoDirection else satisfied
    }

    function Output(): (v: Variable)
      reads `direction
      ensures v in Variables()
    {
      match relation
      case Equality(v1, v2) => if direction == Forward then v2 else v1
      case _ => relation.myOutput
    }

    function Input(): (v: Variable)
      requires relation.Equality?
      reads `direction
      ensures v in Variables()
    {
      if direction == Forward then relation.v1 else relation.v2
    }

    /** What the constraint demands of the values. */
    ghost predicate Holds()
      reads `direction, Output()`value, (if relation.Equality? then {Input()} else {})`value
    {
      relation.Equality? ==> Output().value == Input().value
    }

    predicate InputsKnown(mark: nat)
      reads `direction
      reads (if relation.Equality? then {Input()} else {})`mark
      reads (if relation.Equality? then {Input()} else {})`stay
      reads (if relation.Equality? then {Input()} else {})`determinedBy
    {
      relation.Equality? ==> Input().mark == mark || Input().stay || Input().determinedBy == null
    }

    /** Stay and edit constraints do nothing; an equality copies its input. */
    method Execute()
      modifies (if relation.Equality? then {Output()} else {})`value
      ensures relation.Equality? ==> Output().value == old(Input().value)
      ensures relation.Equality? && Input() != Output() ==> Input().value == old(Input().value)
    {
      if relation.Equality? {
        Output().value := Input().value;
      }
    }

    method MarkUnsatisfied()
      modifies `satisfied, `direction
      ensures !IsSatisfied()
    {
      if relation.Equality? {
        direction := NoDirection;
      } else {
        satisfied := false;
      }
    }

    method MarkInputs(mark: nat)
      modifies (if relation.Equality? then {Input()} else {})`mark
      ensures relation.Equality? ==> Input().mark == mark
    {
      if relation.Equality? {
        Input().mark := mark;
      }
    }

    /** Decide whether, and which way, the constraint is enforced. For an equality the marks play no part: what
        they suggest is always overwritten by the comparison of the walkabout strengths. */
    method ChooseMethod(mark: nat)
      modifies `satisfied, `direction
      ensures IsSatisfied() <==> !old(Refuses(this, mark))
      ensures relation.Equality? ==> direction == old(ChosenDirection(this))
    {
      match relation
      case Equality(v1, v2) =>
        if v1.mark == mark {
          direction := if v2.mark != mark && Stronger(strength, v2.walkStrength) then Forward else NoDirection;
        }
        if v2.mark == mark {
          direction := if v1.mark != mark && Stronger(strength, v1.walkStrength) then Backward else NoDirection;
        }
        if Weaker(v1.walkStrength, v2.walkStrength) {
          direction := if Stronger(strength, v1.walkStrength) then Backward else NoDirection;
        } else {
          direction := if Stronger(strength, v2.walkStrength) then Forward else Backward;
        }
      case _ =>
        satisfied := relation.myOutput.mark != mark && Stronger(strength, relation.myOutput.walkStrength);
    }

    /** Set strength and flag of the output, and its value when nothing can move it. */
    method Recalculate()
      requires IsSatisfied()
      modifies Output()`walkStrength, Output()`stay, Output()`value
      ensures StayFlag(this) && StrengthRight(this) && (Output().stay ==> Holds())
      ensures !Output().stay ==> Output().value == old(Output().value)
    {
      var out := Output();
      if relation.Equality? {
        var ihn := Input();
        out.walkStrength := WeakestOf(strength, ihn.walkStrength);
        out.stay := ihn.stay;
      } else {
        out.walkStrength := strength;
        out.stay := !IsInput();
      }
      if out.stay {
        Execute();
      }
    }
  }

  /** Which way an equality of strength s is enforced, w1 and w2 being the walkabout strengths of its variables. */
  function PreferredDirection(s: Strength, w1: Strength, w2: Strength): Direction {
    if Weaker(w1, w2) then (if Stronger(s, w1) then Backward else NoDirection)
    else if Stronger(s, w2) then Forward else Backward
  }

  /** An equality that overrides only what is weaker, at the weaker of its two ends, would be chosen like this. */
  predicate Deserved(s: Strength, w1: Strength, w2: Strength, d: Direction) {
    match d
    case Forward => Stronger(s, w2) && !Weaker(w1, w2)
    case Backward => Stronger(s, w1) && !Weaker(w2, w1)
    case NoDirection => !Stronger(s, w1) && !Stronger(s, w2)
  }

  /** The code does so exactly if the first variable is the weaker one or the equality is stronger than the second. */
  lemma {:induction false} PreferenceDeserved(s: Strength, w1: Strength, w2: Strength)
    ensures Deserved(s, w1, w2, PreferredDirection(s, w1, w2)) <==> Weaker(w1, w2) || Stronger(s, w2)
  {
  }

  /** Otherwise the weakest of all equalities overrides a required one. */
  lemma PreferenceCounterexample()
    ensures PreferredDirection(WEAKEST, REQUIRED, REQUIRED) == Backward
    ensures !Deserved(WEAKEST, REQUIRED, REQUIRED, Backward)
  {
  }

  ghost function ChosenDirection(c: Constraint): Direction
    requires c.relation.Equality?
    reads c.Variables()`walkStrength
  {
    PreferredDirection(c.strength, c.relation.v1.walkStrength, c.relation.v2.walkStrength)
  }

  /** There is no way to enforce c. */
  ghost predicate Refuses(c: Constraint, mark: nat)
    reads c.Variables()`walkStrength, c.Variables()`mark
  {
    if c.relation.Equality? then ChosenDirection(c) == NoDirection
    else c.relation.myOutput.mark == mark || !Stronger(c.strength, c.relation.myOutput.walkStrength)
  }

  /** A required equality can always be enforced. */
  lemma {:induction false} RequiredNeverRefuses(c: Constraint, mark: nat)
    requires c.relation.Equality? && c.strength == REQUIRED
    ensures !Refuses(c, mark)
  {
  }

  ghost function Lists(vars: set<Variable>): set<OrderedCollection<Constraint>> {
    set v | v in vars :: v.constraints
  }

  /** Each variable lists exactly the constraints that mention it. */
  ghost predicate Wired(vars: set<Variable>, cons: set<Constraint>)
    reads Lists(vars)`elms
  {
    && (forall v, w | v in vars && w in vars && v != w :: v.constraints != w.constraints)
    && (forall c | c in cons :: forall v | v in c.Variables() :: v in vars && c in v.constraints.elms)
    && (forall v | v in vars :: forall c | c in v.constraints.elms :: c in cons && v in c.Variables())
  }

  /** A satisfied constraint determines its output, and only such a constraint determines a variable. */
  ghost predicate Determined(vars: set<Variable>, cons: set<Constraint>)
    reads vars`determinedBy, cons`satisfied, cons`direction
  {
    && (forall c | c in cons && c.IsSatisfied() :: c.Output() in vars && c.Output().determinedBy == c)
    && (forall v | v in vars && v.determinedBy != null ::
          v.determinedBy in cons && v.determinedBy.IsSatisfied() && v.determinedBy.Output() == v)
  }

  /** A variable is stay when nothing upstream of it can change it: only an edit constraint makes it move. */
  ghost predicate StayFlag(c: Constraint)
    reads c`satisfied, c`direction, c.Variables()`stay
  {
    c.IsSatisfied() ==>
      match c.relation
      case Stay(v) => v.stay
      case Edit(v) => !v.stay
      case Equality(_, _) => c.Output().stay == c.Input().stay
  }

  /** The output is as easy to override as the weakest constraint upstream of it. */
  ghost predicate StrengthRight(c: Constraint)
    reads c`satisfied, c`direction, c.Variables()`walkStrength
  {
    c.IsSatisfied() ==>
      c.Output().walkStrength ==
      if c.relation.Equality? then WeakestOf(c.strength, c.Input().walkStrength) else c.strength
  }

  ghost predicate Dataflow(vars: set<Variable>, cons: set<Constraint>)
    reads Lists(vars)`elms, vars`determinedBy, vars`stay, cons`satisfied, cons`direction
  {
    && Wired(vars, cons)
    && Determined(vars, cons)
    && (forall c | c in cons :: c.Variables() <= vars && StayFlag(c))
  }
}
