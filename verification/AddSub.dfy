/** Signed addition and subtraction with carries, in place where wanted. */
module AddSub {
  import opened Numbers
  import opened Digits
  import opened BigIntegers

  /** Add e and the carry c at place i: store the low digit, return the next carry. */
  method PutDigit(r: BigInteger, i: nat, c: int, e: int) returns (c': int)
    requires AreDigits(r.digits, 0, i) && Int32(c + e)
    modifies r`digits
    ensures |r.digits| >= |old(r.digits)| && AreDigits(r.digits, 0, i + 1) && c' == (c + e) / DV
    ensures forall k :: i < k < |old(r.digits)| ==> r.digits[k] == old(r.digits)[k]
    ensures SVal(r.digits, i + 1, c') == old(SVal(r.digits, i, c)) + Place(e, i)
  {
    ghost var R := r.digits;
    var v := c + e;
    r.Put(i, LowDigit(v));
    c' := Carry(v);
    StoreDigit(R, r.digits, i, c, e, c');
  }

  /** The common end of addTo and subTo: c is what is carried out of digit i. */
  method Finish(r: BigInteger, i: nat, c: int)
    requires AreDigits(r.digits, 0, i) && -2 <= c <= 1
    modifies r
    ensures r.Valid() && r.Value() == old(SVal(r.digits, i, c))
    ensures |r.digits| >= |old(r.digits)|
    ensures forall k :: i <= k && r.t <= k < |old(r.digits)| ==> r.digits[k] == old(r.digits)[k]
  {
    var n := i;
    r.s := if c < 0 then -1 else 0;
    ghost var d := r.digits;
    if c < -1 {
      r.Put(n, DV + c);
      n := n + 1;
    } else if c > 0 {
      r.Put(n, c);
      n := n + 1;
    }
    ValFrame(d, r.digits, 0, i);
    PlaceMul(DV, -1, i);
    PlaceAdd(DV - 2, -DV, i);
    PlaceMono(0, 0, i + 1);
    r.t := n;
    r.Clamp();
  }

  /** The digits of x from i on, which are still those of X, are carried into r. */
  method CarryUp(x: BigInteger, r: BigInteger, i: nat, c: int, ghost X: seq<int>) returns (c': int)
    requires i <= x.t && AreDigits(X, 0, x.t) && AreDigits(r.digits, 0, i) && -1 <= c <= 1
    requires |x.digits| >= x.t && forall k :: i <= k < x.t ==> x.digits[k] == X[k]
    modifies r`digits
    ensures AreDigits(r.digits, 0, x.t) && -1 <= c' <= 1
    ensures |r.digits| >= |old(r.digits)| && forall k :: x.t <= k < |old(r.digits)| ==> r.digits[k] == old(r.digits)[k]
    ensures SVal(r.digits, x.t, c') == old(SVal(r.digits, i, c)) + Val(X, 0, x.t) - Val(X, 0, i)
  {
    ghost var v := SVal(r.digits, i, c) - Val(X, 0, i);
    var n := i;
    c' := c;
    while n < x.t
      modifies r`digits
      invariant i <= n <= x.t && -1 <= c' <= 1 && AreDigits(r.digits, 0, n)
      invariant |r.digits| >= |old(r.digits)|
      invariant forall k :: n <= k < |old(r.digits)| ==> r.digits[k] == old(r.digits)[k]
      invariant |x.digits| >= x.t && forall k :: n <= k < x.t ==> x.digits[k] == X[k]
      invariant SVal(r.digits, n, c') == v + Val(X, 0, n)
    {
      c' := PutDigit(r, n, c', x.digits[n]);
      n := n + 1;
    }
  }

  /** The digits of a from i on, which are still those of A, are taken from r. */
  method BorrowUp(a: BigInteger, r: BigInteger, i: nat, c: int, ghost A: seq<int>) returns (c': int)
    requires i <= a.t && AreDigits(A, 0, a.t) && AreDigits(r.digits, 0, i) && -2 <= c <= 0
    requires |a.digits| >= a.t && forall k :: i <= k < a.t ==> a.digits[k] == A[k]
    modifies r`digits
    ensures AreDigits(r.digits, 0, a.t) && -2 <= c' <= 0
    ensures |r.digits| >= |old(r.digits)| && forall k :: a.t <= k < |old(r.digits)| ==> r.digits[k] == old(r.digits)[k]
    ensures c >= -1 ==> c' >= -1
    ensures SVal(r.digits, a.t, c') == old(SVal(r.digits, i, c)) - (Val(A, 0, a.t) - Val(A, 0, i))
  {
    ghost var v := SVal(r.digits, i, c) + Val(A, 0, i);
    var n := i;
    c' := c;
    while n < a.t
      modifies r`digits
      invariant i <= n <= a.t && -2 <= c' <= 0 && AreDigits(r.digits, 0, n)
      invariant |r.digits| >= |old(r.digits)|
      invariant forall k :: n <= k < |old(r.digits)| ==> r.digits[k] == old(r.digits)[k]
      invariant c >= -1 ==> c' >= -1
      invariant |a.digits| >= a.t && forall k :: n <= k < a.t ==> a.digits[k] == A[k]
      invariant SVal(r.digits, n, c') == v - Val(A, 0, n)
    {
      PlaceAdd(0, a.digits[n], n);
      PlaceMono(0, 0, n);
      c' := PutDigit(r, n, c', -a.digits[n]);
      n := n + 1;
    }
  }

  /** The sign extension of X joins or leaves the running total at the end of its digits. */
  lemma AddSign(a: seq<int>, i: nat, c: int, X: seq<int>, s: int)
    requires i <= |a| && i <= |X|
    ensures SVal(a, i, c + s) == SVal(a, i, c) + (SVal(X, i, s) - Val(X, 0, i))
    ensures SVal(a, i, c - s) == SVal(a, i, c) - (SVal(X, i, s) - Val(X, 0, i))
  {
    PlaceAdd(c, s, i);
  }

  /** The rest of x, digits and sign, is added to the running total. */
  method AddRest(x: BigInteger, r: BigInteger, i: nat, c: int, ghost X: seq<int>)
    requires i <= x.t && AreDigits(X, 0, x.t) && AreDigits(r.digits, 0, i) && -1 <= c <= 1
    requires x.s == 0 || x.s == -1
    requires |x.digits| >= x.t && forall k :: i <= k < x.t ==> x.digits[k] == X[k]
    modifies r
    ensures r.Valid()
    ensures r.Value() == old(SVal(r.digits, i, c)) + old(SVal(X, x.t, x.s)) - Val(X, 0, i)
    ensures |r.digits| >= |old(r.digits)|
    ensures forall k :: old(x.t) <= k && r.t <= k < |old(r.digits)| ==> r.digits[k] == old(r.digits)[k]
  {
    var c' := CarryUp(x, r, i, c, X);
    AddSign(r.digits, x.t, c', X, x.s);
    Finish(r, x.t, c' + x.s);
  }

  /** The rest of a, digits and sign, is taken from the running total. */
  method SubRest(a: BigInteger, r: BigInteger, i: nat, c: int, ghost A: seq<int>)
    requires i <= a.t && AreDigits(A, 0, a.t) && AreDigits(r.digits, 0, i) && -2 <= c <= 0
    requires a.s == 0 || a.s == -1
    requires |a.digits| >= a.t && forall k :: i <= k < a.t ==> a.digits[k] == A[k]
    modifies r
    ensures r.Valid()
    ensures r.Value() == old(SVal(r.digits, i, c)) - (old(SVal(A, a.t, a.s)) - Val(A, 0, i))
    ensures |r.digits| >= |old(r.digits)|
    ensures forall k :: old(a.t) <= k && r.t <= k < |old(r.digits)| ==> r.digits[k] == old(r.digits)[k]
  {
    var c' := BorrowUp(a, r, i, c, A);
    AddSign(r.digits, a.t, c', A, a.s);
    Finish(r, a.t, c' - a.s);
  }

  /** The differences of the places both operands have. */
  method SubCommon(x: BigInteger, a: BigInteger, r: BigInteger, m: nat) returns (c: int)
    requires x.Wf() && a.Wf() && m <= x.t && m <= a.t
    modifies r`digits
    ensures AreDigits(r.digits, 0, m) && -1 <= c <= 0
    ensures |r.digits| >= |old(r.digits)| && forall k :: m <= k < |old(r.digits)| ==> r.digits[k] == old(r.digits)[k]
    ensures |x.digits| >= x.t && forall k :: m <= k < x.t ==> x.digits[k] == old(x.digits)[k]
    ensures |a.digits| >= a.t && forall k :: m <= k < a.t ==> a.digits[k] == old(a.digits)[k]
    ensures SVal(r.digits, m, c) == old(Val(x.digits, 0, m)) - old(Val(a.digits, 0, m))
  {
    ghost var X, A := x.digits, a.digits;
    var i := 0;
    c := 0;
    while i < m
      modifies r`digits
      invariant 0 <= i <= m && -1 <= c <= 0 && AreDigits(r.digits, 0, i)
      invariant |r.digits| >= |old(r.digits)|
      invariant forall k :: i <= k < |old(r.digits)| ==> r.digits[k] == old(r.digits)[k]
      invariant |x.digits| >= x.t && forall k :: i <= k < x.t ==> x.digits[k] == X[k]
      invariant |a.digits| >= a.t && forall k :: i <= k < a.t ==> a.digits[k] == A[k]
      invariant SVal(r.digits, i, c) == Val(X, 0, i) - Val(A, 0, i)
    {
      PlaceAdd(x.digits[i], a.digits[i], i);
      c := PutDigit(r, i, c, x.digits[i] - a.digits[i]);
      i := i + 1;
    }
  }

  /** r = x - a; r may be x or a. */
  method SubTo(x: BigInteger, a: BigInteger, r: BigInteger)
    requires x.Wf() && a.Wf()
    modifies r
    ensures r.Valid() && r.Value() == old(x.Value()) - old(a.Value())
    ensures |r.digits| >= |old(r.digits)|
    ensures forall k :: old(x.t) <= k && old(a.t) <= k && r.t <= k < |old(r.digits)| ==> r.digits[k] == old(r.digits)[k]
  {
    ghost var X, A := x.digits, a.digits;
    var i := if a.t < x.t then a.t else x.t;
    var c := SubCommon(x, a, r, i);
    if a.t < x.t {
      AddSign(r.digits, i, c, A, a.s);
      AddRest(x, r, i, c - a.s, X);
    } else {
      AddSign(r.digits, i, c, X, x.s);
      SubRest(a, r, i, c + x.s, A);
    }
  }

  /** The sums of the places both operands have. */
  method AddCommon(x: BigInteger, a: BigInteger, r: BigInteger, m: nat) returns (c: int)
    requires x.Wf() && a.Wf() && m <= x.t && m <= a.t
    modifies r`digits
    ensures AreDigits(r.digits, 0, m) && 0 <= c <= 1
    ensures |x.digits| >= x.t && forall k :: m <= k < x.t ==> x.digits[k] == old(x.digits)[k]
    ensures |a.digits| >= a.t && forall k :: m <= k < a.t ==> a.digits[k] == old(a.digits)[k]
    ensures SVal(r.digits, m, c) == old(Val(x.digits, 0, m)) + old(Val(a.digits, 0, m))
  {
    ghost var X, A := x.digits, a.digits;
    var i := 0;
    c := 0;
    while i < m
      modifies r`digits
      invariant 0 <= i <= m && 0 <= c <= 1 && AreDigits(r.digits, 0, i)
      invariant |x.digits| >= x.t && forall k :: i <= k < x.t ==> x.digits[k] == X[k]
      invariant |a.digits| >= a.t && forall k :: i <= k < a.t ==> a.digits[k] == A[k]
      invariant SVal(r.digits, i, c) == Val(X, 0, i) + Val(A, 0, i)
    {
      PlaceAdd(x.digits[i], a.digits[i], i);
      c := PutDigit(r, i, c, x.digits[i] + a.digits[i]);
      i := i + 1;
    }
  }

  /** r = x + a; r may be x or a. */
  method AddTo(x: BigInteger, a: BigInteger, r: BigInteger)
    requires x.Wf() && a.Wf()
    modifies r
    ensures r.Valid() && r.Value() == old(x.Value()) + old(a.Value())
  {
    ghost var X, A := x.digits, a.digits;
    var i := if a.t < x.t then a.t else x.t;
    var c := AddCommon(x, a, r, i);
    if a.t < x.t {
      AddSign(r.digits, i, c, A, a.s);
      AddRest(x, r, i, c + a.s, X);
    } else {
      AddSign(r.digits, i, c, X, x.s);
      AddRest(a, r, i, c + x.s, A);
    }
  }

  /** r = -x, as ZERO.subTo(x, r). */
  method NegateTo(x: BigInteger, r: BigInteger)
    requires x.Wf()
    modifies r
    ensures r.Valid() && r.Value() == -old(x.Value())
  {
    var zero := Nbv(0);
    SubTo(zero, x, r);
  }

  method Negate(x: BigInteger) returns (r: BigInteger)
    requires x.Wf()
    ensures fresh(r) && r.Valid() && r.Value() == -x.Value()
  {
    r := new BigInteger();
    NegateTo(x, r);
  }

  /** |x|, which is x itself when x is not negative. */
  method Abs(x: BigInteger) returns (r: BigInteger)
    requires x.Wf()
    ensures r.Wf() && r.s == 0 && r.Value() == if x.Value() < 0 then -x.Value() else x.Value()
    ensures x.Valid() ==> r.Valid()
    ensures if x.s < 0 then fresh(r) && r.Valid() else r == x
  {
    ValBound(x.digits, 0, x.t);
    PlaceMono(0, 0, x.t);
    PlaceAdd(0, 1, x.t);
    if x.s < 0 {
      r := Negate(x);
      SignOf(r);
    } else {
      r := x;
    }
  }

  method Subtract(x: BigInteger, a: BigInteger) returns (r: BigInteger)
    requires x.Wf() && a.Wf()
    ensures fresh(r) && r.Valid() && r.Value() == x.Value() - a.Value()
  {
    r := new BigInteger();
    SubTo(x, a, r);
  }

  method Add(x: BigInteger, a: BigInteger) returns (r: BigInteger)
    requires x.Wf() && a.Wf()
    ensures fresh(r) && r.Valid() && r.Value() == x.Value() + a.Value()
  {
    r := new BigInteger();
    AddTo(x, a, r);
  }
}
