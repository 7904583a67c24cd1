/** Values read from JSON, compared as Python compares them. */
module JsonValues {

  datatype Json =
    | Null
    | Boolean(b: bool)
    | Integer(n: int)
    | Float(r: real)
    | String(s: string)
    | Array(items: seq<Json>)
    | Object(fields: map<string, Json>)

  /** The value of a key, with null for a missing one. */
  function Get(fields: map<string, Json>, key: string): Json {
    if key in fields then fields[key] else Null
  }

  /** A value up to equality: true is one, false is zero, and a whole float is the integer. */
  datatype Canonical =
    | Nothing
    | Number(r: real)
    | Text(s: string)
    | List(items: seq<Canonical>)
    | Dictionary(fields: map<string, Canonical>)

  function Canon(v: Json): Canonical {
    match v
    case Null => Nothing
    case Boolean(b) => Number(if b then 1.0 else 0.0)
    case Integer(n) => Number(n as real)
    case Float(r) => Number(r)
    case String(s) => Text(s)
    case Array(items) => List(seq(|items|, i requires 0 <= i < |items| => Canon(items[i])))
    case Object(fields) => Dictionary(map k | k in fields :: Canon(fields[k]))
  }

  predicate Same(a: Json, b: Json) {
    Canon(a) == Canon(b)
  }

  /** Python's equality: numbers and truth values by value, text, lists and dictionaries by their parts, and nothing
      of one kind equal to anything of another. */
  lemma {:induction false} SameExactly(a: Json, b: Json)
    ensures Same(a, b) <==>
      || (a.Null? && b.Null?)
      || (IsNumber(a) && IsNumber(b) && NumberOf(a) == NumberOf(b))
      || (a.String? && b.String? && a.s == b.s)
      || (a.Array? && b.Array? && |a.items| == |b.items|
          && forall i | 0 <= i < |a.items| :: Same(a.items[i], b.items[i]))
      || (a.Object? && b.Object? && a.fields.Keys == b.fields.Keys
          && forall k | k in a.fields :: Same(a.fields[k], b.fields[k]))
  {
    if a.Array? && b.Array? {
      var x, y := Canon(a).items, Canon(b).items;
      if |x| == |y| && forall i | 0 <= i < |x| :: x[i] == y[i] {
        assert x == y;
      }
      if Same(a, b) {
        forall i | 0 <= i < |a.items| ensures Same(a.items[i], b.items[i]) {
          assert x[i] == y[i];
        }
      }
    } else if a.Object? && b.Object? {
      var x, y := Canon(a).fields, Canon(b).fields;
      assert x.Keys == a.fields.Keys && y.Keys == b.fields.Keys;
      if x.Keys == y.Keys && forall k | k in x :: x[k] == y[k] {
        assert x == y;
      }
      if Same(a, b) {
        forall k | k in a.fields ensures Same(a.fields[k], b.fields[k]) {
          assert x[k] == y[k];
        }
      }
    }
  }

  predicate IsNumber(v: Json) {
    v.Boolean? || v.Integer? || v.Float?
  }

  /** The number a value counts as. */
  function NumberOf(v: Json): real
    requires IsNumber(v)
  {
    if v == Boolean(true) then 1.0 else if v == Boolean(false) then 0.0 else if v.Integer? then v.n as real else v.r
  }

  predicate Truthy(v: Json) {
    match v
    case Null => false
    case Boolean(b) => b
    case Integer(n) => n != 0
    case Float(r) => r != 0.0
    case String(s) => s != ""
    case Array(items) => items != []
    case Object(fields) => fields != map[]
  }
}
