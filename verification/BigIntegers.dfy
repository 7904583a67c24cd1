/** The BigInteger object: a growing list of digits, how many of them are in use, and
    a sign. Every operation writes into an output object, which may be an operand. */
module BigIntegers {
  import opened Digits

  class BigInteger {
    var t: int
    var s: int
    var digits: seq<int>

    /** The digits in use are digits. */
    ghost predicate Wf()
      reads this
    {
      0 <= t && AreDigits(digits, 0, t) && (s == 0 || s == -1)
    }

    /** Canonical: the top digit in use does not merely repeat the sign. */
    ghost predicate Valid()
      reads this
      ensures Valid() ==> Wf()
    {
      0 <= t && Canonical(digits, t, s)
    }

    ghost function Value(): int
      requires Wf()
      reads this
    {
      SVal(digits, t, s)
    }

    /** A new, unset number: the length and sign are undefined. */
    constructor ()
      ensures digits == []
    {
      digits := [];
    }

    /** Assignment to a list element, growing the list; says nothing of skipped places. */
    method Put(i: nat, d: int)
      modifies this`digits
      ensures |digits| == if i < |old(digits)| then |old(digits)| else i + 1
      ensures digits[i] == d
      ensures forall k :: 0 <= k < |old(digits)| && k != i ==> digits[k] == old(digits)[k]
    {
      while |digits| <= i
        invariant |old(digits)| <= |digits|
        invariant |digits| <= if i < |old(digits)| then |old(digits)| else i + 1
        invariant forall k :: 0 <= k < |old(digits)| ==> digits[k] == old(digits)[k]
      {
        digits := digits + [0];
      }
      digits := digits[i := d];
    }

    /** Clamp off excess high digits. */
    method Clamp()
      requires Wf()
      modifies this`t
      ensures Valid() && Value() == old(Value())
      ensures t <= old(t)
      ensures old(t) > 0 && digits[old(t) - 1] != s % DV ==> t == old(t)
    {
      var c := LowDigit(s);
      while t > 0 && digits[t - 1] == c
        invariant Wf() && t <= old(t) && Value() == old(Value())
        invariant old(t) > 0 && digits[old(t) - 1] != c ==> t == old(t)
      {
        DropSignDigit(digits, t, s);
        t := t - 1;
      }
    }

    method CopyTo(r: BigInteger)
      requires Wf()
      modifies r
      ensures r.Wf() && r.t == old(t) && r.s == old(s) && r.Value() == old(Value())
      ensures old(Valid()) ==> r.Valid()
      ensures |r.digits| >= |old(r.digits)|
      ensures forall k :: 0 <= k < r.t ==> r.digits[k] == old(digits)[k]
    {
      var i := t - 1;
      while i >= 0
        modifies r`digits
        invariant -1 <= i < t && AreDigits(digits, 0, t) && digits == old(digits)
        invariant |r.digits| >= |old(r.digits)|
        invariant i < t - 1 ==> t <= |r.digits|
        invariant forall k :: i < k < t ==> r.digits[k] == old(digits)[k]
      {
        r.Put(i, digits[i]);
        if r == this { assert digits == old(digits); }
        i := i - 1;
      }
      r.t := t;
      r.s := s;
      ValFrame(r.digits, old(digits), 0, t);
    }

    /** Set from a small integer, -1 <= x; below that the source reads an undeclared name. */
    method FromInt(x: int)
      requires -1 <= x < DV
      modifies this
      ensures Valid() && Value() == x
    {
      t := 1;
      s := if x < 0 then -1 else 0;
      if x > 0 {
        Put(0, x);
        assert Val(digits, 0, 0) == 0;
      } else {
        t := 0;
      }
    }
  }

  method Nbv(i: int) returns (r: BigInteger)
    requires -1 <= i < DV
    ensures fresh(r) && r.Valid() && r.Value() == i
  {
    r := new BigInteger();
    r.FromInt(i);
  }

  /** Canonical numbers in terms of their value. */
  lemma SignOf(x: BigInteger)
    requires x.Valid()
    ensures x.s == 0 <==> 0 <= x.Value()
    ensures x.s == -1 <==> x.Value() < 0
    ensures x.Value() == 0 <==> x.s == 0 && x.t == 0
    ensures x.s == 0 ==> x.Value() == Val(x.digits, 0, x.t)
    ensures x.s == 0 ==> x.Value() < Place(1, x.t)
    ensures x.s == 0 && x.t > 0 ==> Place(1, x.t - 1) <= x.Value()
  {
    CanonicalRange(x.digits, x.t, x.s);
    if x.t > 0 { PlaceMono(0, 1, x.t - 1); }
    PlaceMono(0, 0, x.t);
  }

  /** A non-negative number below DV^n uses at most n digits, and conversely. */
  lemma LengthOf(x: BigInteger, n: nat)
    requires x.Valid() && x.s == 0
    ensures x.t <= n <==> x.Value() < Place(1, n)
  {
    SignOf(x);
    if x.t <= n { PlaceGrows(1, x.t, n); } else { PlaceGrows(1, n, x.t - 1); }
  }
}
