/** Shifts by digits and by bits; in place where wanted. */
module Shifts {
  import opened Numbers
  import opened Digits
  import opened BigIntegers
  import opened Compare

  /** A digit shift. */
  lemma DLShiftValue(a: seq<int>, t: nat, s: int, n: nat, b: seq<int>)
    requires t <= |a| && t + n <= |b|
    requires forall k :: 0 <= k < n ==> b[k] == 0
    requires forall k :: n <= k < t + n ==> b[k] == a[k - n]
    ensures SVal(b, t + n, s) == Place(SVal(a, t, s), n)
  {
    ValSplit(b, 0, n, t + n);
    ValZero(b, 0, n);
    ValShift(b, n, a, 0, t);
    PlacePlace(s, t, n);
    PlaceAdd(Val(a, 0, t), Place(s, t), n);
  }

  /** r = x << 28 * n, possibly in place. */
  method DLShiftTo(x: BigInteger, n: nat, r: BigInteger)
    requires x.Wf()
    modifies r
    ensures r.Wf() && r.t == old(x.t) + n && r.s == old(x.s)
    ensures |r.digits| >= |old(r.digits)|
    ensures forall k :: 0 <= k < n ==> r.digits[k] == 0
    ensures forall k :: n <= k < r.t ==> r.digits[k] == old(x.digits)[k - n]
    ensures r.Value() == Place(old(x.Value()), n)
    ensures old(x.Valid()) && old(x.t) > 0 ==> r.Valid()
  {
    ghost var X := x.digits;
    var i := x.t - 1;
    while i >= 0
      modifies r`digits
      invariant -1 <= i < x.t && |x.digits| >= x.t && |r.digits| >= |old(r.digits)|
      invariant i < x.t - 1 ==> x.t + n <= |r.digits|
      invariant forall k :: i + n < k < x.t + n ==> r.digits[k] == X[k - n]
      invariant forall k :: 0 <= k <= i ==> x.digits[k] == X[k]
    {
      r.Put(i + n, x.digits[i]);
      i := i - 1;
    }
    ghost var t := x.t;
    ZeroBelow(r, n);
    r.t, r.s := x.t + n, x.s;
    DLShiftValue(X, t, r.s, n, r.digits);
  }

  /** The n lowest digits become zero. */
  method ZeroBelow(r: BigInteger, n: nat)
    modifies r`digits
    ensures |r.digits| >= |old(r.digits)| && |r.digits| >= n
    ensures forall k :: 0 <= k < n ==> r.digits[k] == 0
    ensures forall k :: n <= k < |old(r.digits)| ==> r.digits[k] == old(r.digits)[k]
  {
    var i := n - 1;
    while i >= 0
      modifies r`digits
      invariant -1 <= i < n && |r.digits| >= |old(r.digits)|
      invariant i < n - 1 ==> n <= |r.digits|
      invariant forall k :: i < k < n ==> r.digits[k] == 0
      invariant forall k :: n <= k < |old(r.digits)| ==> r.digits[k] == old(r.digits)[k]
    {
      r.Put(i, 0);
      i := i - 1;
    }
  }

  /** Dropping low digits. */
  lemma DRShiftValue(a: seq<int>, t: nat, s: int, n: nat, b: seq<int>)
    requires n <= t <= |a| && t - n <= |b| && AreDigits(a, 0, n)
    requires forall k :: 0 <= k < t - n ==> b[k] == a[k + n]
    ensures SVal(a, t, s) == Val(a, 0, n) + Place(SVal(b, t - n, s), n)
    ensures Place(SVal(b, t - n, s), n) <= SVal(a, t, s) < Place(SVal(b, t - n, s) + 1, n)
  {
    ValSplit(a, 0, n, t);
    ValShift(b, 0, a, n, t - n);
    ValBound(a, 0, n);
    PlacePlace(s, t - n, n);
    PlaceAdd(Val(a, n, t), Place(s, t - n), n);
    PlaceAdd(SVal(b, t - n, s), 1, n);
  }

  /** A shift by at least the whole length leaves the sign. */
  lemma SignOnly(a: seq<int>, t: nat, s: int, n: nat)
    requires AreDigits(a, 0, t) && (s == 0 || s == -1) && n >= t
    ensures Place(s, n) <= SVal(a, t, s) < Place(s + 1, n)
  {
    ValBound(a, 0, t);
    PlaceGrows(1, t, n);
    PlaceMono(0, 0, t); PlaceMono(0, 0, n);
    PlaceAdd(0, 1, t); PlaceAdd(0, 1, n);
  }

  /** r = x >> 28 * n; r may be x. */
  method DRShiftTo(x: BigInteger, n: nat, r: BigInteger)
    requires x.Wf()
    modifies r
    ensures r.Wf() && r.s == old(x.s) && r.t == if n <= old(x.t) then old(x.t) - n else 0
    ensures forall k :: 0 <= k < r.t ==> r.digits[k] == old(x.digits)[k + n]
    ensures Place(r.Value(), n) <= old(x.Value()) < Place(r.Value() + 1, n)
    ensures old(x.Valid()) ==> r.Valid()
  {
    ghost var X := x.digits;
    var i := n;
    while i < x.t
      modifies r`digits
      invariant n <= i && (n <= x.t ==> i <= x.t) && |x.digits| >= x.t && i - n <= |r.digits|
      invariant forall k :: 0 <= k < i - n && k + n < x.t ==> r.digits[k] == X[k + n]
      invariant forall k :: i <= k < x.t ==> x.digits[k] == X[k]
    {
      r.Put(i - n, x.digits[i]);
      i := i + 1;
    }
    ghost var t := x.t;
    r.t, r.s := if x.t - n > 0 then x.t - n else 0, x.s;
    if n <= t { DRShiftValue(X, t, r.s, n, r.digits); }
    else { SignOnly(X, t, r.s, n); }
  }

  // ----- Shifts by bits -----

  lemma SplitDigit(bs: nat)
    requires bs < 28
    ensures Pow(2, bs) > 0 && Pow(2, 28 - bs) > 0
    ensures Pow(2, bs) * Pow(2, 28 - bs) == DV && Pow(2, bs) < DV
  {
    PowDV();
    PowAdd(2, bs, 28 - bs);
    PowPos(2, bs);
    PowPos(2, 27 - bs);
    MulLe(2, Pow(2, 28 - bs), Pow(2, bs));
  }

  /** A digit is bs bits above 28 - bs bits. */
  lemma DigitBits(bs: nat)
    requires bs < 28
    ensures 0 < Pow(2, bs) < DV && Pow(2, 28 - bs) > 0
    ensures Shift(1, bs) == Pow(2, bs) && Shift(Pow(2, 28 - bs), bs) == DV
  {
    SplitDigit(bs);
    ShiftPow(1, bs);
    ShiftPow(Pow(2, 28 - bs), bs);
    MulComm(Pow(2, bs), Pow(2, 28 - bs));
  }

  /** Words below DV whose bs low bits are clear. */
  lemma ShiftBelow(z: int, bs: nat)
    requires bs < 28 && 0 <= z < Pow(2, 28 - bs)
    ensures 0 <= Shift(z, bs) <= DV - Pow(2, bs) < DV
    ensures Shift(1, bs) == Pow(2, bs) && Shift(Pow(2, 28 - bs), bs) == DV
  {
    DigitBits(bs);
    ShiftMono(0, z, bs);
    ShiftMono(z, Pow(2, 28 - bs) - 1, bs);
    ShiftAdd(Pow(2, 28 - bs), 1, bs);
  }

  /** The high bits of d moved down, joined to a carry whose low bits are clear. */
  lemma JoinHigh(d: int, z: nat, bs: nat)
    requires bs < 28 && 0 <= d < DV && z < Pow(2, 28 - bs)
    ensures 0 <= Shr(d, 28 - bs) && 0 <= Shift(z, bs)
    ensures Or(Shr(d, 28 - bs), Shift(z, bs)) == Shr(d, 28 - bs) + Shift(z, bs)
    ensures 0 <= Shr(d, 28 - bs) + Shift(z, bs) < DV
  {
    SplitDigit(bs);
    ShiftBelow(z, bs);
    DivBelow(d, Pow(2, bs), Pow(2, 28 - bs));
    OrDisjoint(Shr(d, 28 - bs), z, bs);
  }

  /** High and low part of a digit, shifted: the high part carries. */
  lemma ShiftDigit(d: int, bs: nat)
    requires bs < 28 && 0 <= d < DV
    ensures Shift(d, bs) == DV * Shr(d, 28 - bs) + Shift(Low(d, 28 - bs), bs)
    ensures 0 <= Low(d, 28 - bs) < Pow(2, 28 - bs)
  {
    SplitDigit(bs);
    var p := Pow(2, 28 - bs);
    DivMod(d, p);
    ShiftAdd(d / p * p, d % p, bs);
    ShiftMul(d / p, p, bs);
    ShiftBelow(0, bs);
  }

  /** The running value of a left shift that has done digits i..t of X. */
  ghost predicate LShifted(R: seq<int>, X: seq<int>, ds: nat, i: nat, t: nat, bs: nat, z: int, z0: int) {
    && i <= t <= |X|
    && (i < t ==> ds + t + 1 <= |R|)
    && DV * (if i < t then Val(R, ds + i + 1, ds + t + 1) else 0) + Shift(z, bs)
       == Shift(Val(X, i, t), bs) + Place(Shift(z0, bs), t - i)
  }

  /** One step of the left shift: digit i of x, and the carry z << bs from above. */
  method LShiftDigit(x: BigInteger, i: nat, ds: nat, bs: nat, z: nat, r: BigInteger, ghost X: seq<int>, ghost t: nat,
                     ghost z0: int)
    returns (z': nat)
    requires i < t && bs < 28 && z < Pow(2, 28 - bs)
    requires LShifted(r.digits, X, ds, i + 1, t, bs, z, z0)
    requires i < |x.digits| && x.digits[i] == X[i] && 0 <= X[i] < DV
    modifies r`digits
    ensures z' < Pow(2, 28 - bs)
    ensures LShifted(r.digits, X, ds, i, t, bs, z', z0)
    ensures |old(r.digits)| <= |r.digits| && ds + t + 1 <= |r.digits|
    ensures 0 <= r.digits[i + ds + 1] < DV
    ensures forall k :: 0 <= k < |old(r.digits)| && k != i + ds + 1 ==> r.digits[k] == old(r.digits)[k]
  {
    var d := x.digits[i];
    JoinHigh(d, z, bs);
    ShiftBelow(z, bs);
    ghost var R := r.digits;
    r.Put(i + ds + 1, Or(Shr(d, 28 - bs), Shl(z, bs)));
    if i + 1 < t { ValFrame(R, r.digits, ds + i + 2, ds + t + 1); }
    ValLow(r.digits, ds + i + 1, ds + t + 1);
    ValLow(X, i, t);
    ShiftDigit(d, bs);
    ShiftAdd(d, DV * Val(X, i + 1, t), bs);
    ShiftMul(DV, Val(X, i + 1, t), bs);
    z' := Low(d, 28 - bs);
  }

  /** The digits of x << (28 * ds + bs), from the top down; z0 << bs is the sign extension. */
  method LShiftDigits(x: BigInteger, ds: nat, bs: nat, z0: nat, r: BigInteger)
    requires x.Wf() && bs < 28 && z0 < Pow(2, 28 - bs)
    modifies r`digits
    ensures AreDigits(r.digits, 0, x.t + ds + 1)
    ensures forall k :: 0 <= k < ds ==> r.digits[k] == 0
    ensures Val(r.digits, ds, ds + x.t + 1) == Shift(old(Val(x.digits, 0, x.t)), bs) + Place(Shift(z0, bs), x.t)
  {
    ghost var X, t := x.digits, x.t;
    ShiftMono(0, 0, bs);
    var z: nat := z0;
    var i := x.t;
    while i > 0
      modifies r`digits
      invariant 0 <= i <= x.t && |x.digits| >= x.t && z < Pow(2, 28 - bs)
      invariant forall k :: 0 <= k < i ==> x.digits[k] == X[k]
      invariant LShifted(r.digits, X, ds, i, t, bs, z, z0)
      invariant forall k :: ds + i < k <= ds + t ==> 0 <= r.digits[k] < DV
    {
      i := i - 1;
      z := LShiftDigit(x, i, ds, bs, z, r, X, t, z0);
    }
    LShiftLow(r, ds, bs, z, t);
  }

  /** The places below the shifted digits: the last carry, then zeros. */
  method LShiftLow(r: BigInteger, ds: nat, bs: nat, z: nat, ghost t: nat)
    requires bs < 28 && z < Pow(2, 28 - bs)
    requires t > 0 ==> ds + t + 1 <= |r.digits|
    requires forall k :: ds < k <= ds + t ==> 0 <= r.digits[k] < DV
    modifies r`digits
    ensures AreDigits(r.digits, 0, t + ds + 1)
    ensures forall k :: 0 <= k < ds ==> r.digits[k] == 0
    ensures Val(r.digits, ds, ds + t + 1)
         == Shift(z, bs) + DV * (if t > 0 then old(Val(r.digits, ds + 1, ds + t + 1)) else 0)
  {
    ghost var R := r.digits;
    ZeroBelow(r, ds);
    ShiftBelow(z, bs);
    r.Put(ds, Shl(z, bs));
    if t > 0 { ValFrame(R, r.digits, ds + 1, ds + t + 1); }
    ValLow(r.digits, ds, ds + t + 1);
  }

  /** The value of the shifted digits and sign. */
  lemma LShiftValue(b: seq<int>, ds: nat, t: nat, s: int, bs: nat, v: int, c0: int)
    requires ds + t + 1 <= |b| && forall k :: 0 <= k < ds ==> b[k] == 0
    requires c0 + DV * s == Shift(s, bs)
    requires Val(b, ds, ds + t + 1) == Shift(v, bs) + Place(c0, t)
    ensures SVal(b, ds + t + 1, s) == Shift(v + Place(s, t), 28 * ds + bs)
  {
    ValSplit(b, 0, ds, ds + t + 1);
    ValZero(b, 0, ds);
    PlacePlace(s, t + 1, ds);
    PlaceMul(DV, s, t);
    PlaceAdd(c0, DV * s, t);
    PlaceOfShift(s, t, bs);
    ShiftAdd(v, Place(s, t), bs);
    var w := v + Place(s, t);
    assert Val(b, ds, ds + t + 1) + Place(s, t + 1) == Shift(w, bs);
    PlaceAdd(Val(b, ds, ds + t + 1), Place(s, t + 1), ds);
    PlaceOfShift(w, ds, bs);
  }

  /** r = x << n; r may be x. */
  method LShiftTo(x: BigInteger, n: nat, r: BigInteger)
    requires x.Wf()
    modifies r
    ensures r.Valid() && r.s == old(x.s) && r.Value() == Shift(old(x.Value()), n)
    ensures AreDigits(r.digits, 0, old(x.t) + n / 28 + 1)
    ensures SVal(r.digits, old(x.t) + n / 28 + 1, r.s) == r.Value()
  {
    var bs, ds := n % 28, n / 28;
    SplitDigit(bs);
    var z := if x.s == 0 then 0 else Pow(2, 28 - bs) - 1;
    SignCarry(x.s, z, bs);
    LShiftDigits(x, ds, bs, z, r);
    r.t, r.s := x.t + ds + 1, x.s;
    LShiftValue(r.digits, ds, r.t - ds - 1, r.s, bs, old(Val(x.digits, 0, x.t)), Shift(z, bs));
    r.Clamp();
  }

  /** z << bs is the shifted sign: (s << bs) & BI_DM. */
  lemma SignCarry(s: int, z: int, bs: nat)
    requires bs < 28 && (s == 0 || s == -1) && z == (if s == 0 then 0 else Pow(2, 28 - bs) - 1)
    ensures Int32(Shift(s, bs)) && LowDigit(Shl(s, bs)) == Shift(z, bs)
    ensures Shift(z, bs) + DV * s == Shift(s, bs)
  {
    SplitDigit(bs);
    ShiftBelow(0, bs);
    ShiftMono(0, 0, bs);
    ShiftAdd(Pow(2, 28 - bs), 1, bs);
    ShiftAdd(0, 1, bs);
    if s == -1 { DivUnique(-Pow(2, bs), DV, -1, DV - Pow(2, bs)); }
  }

  // ----- Right shift -----

  /** The running value of a right shift that has done digits ds..i of X. */
  ghost predicate RShifted(R: seq<int>, X: seq<int>, ds: nat, i: nat, bs: nat) {
    && bs < 28 && ds < i <= |X| && i - ds <= |R| && 0 <= X[i - 1] < DV && 0 <= X[ds] < DV
    && R[i - ds - 1] == Shr(X[i - 1], bs)
    && Shift(Val(R, 0, i - ds), bs) + Low(X[ds], bs) == Val(X, ds, i)
  }

  /** Low and high part of a digit for a right shift. */
  lemma UnshiftDigit(d: int, bs: nat)
    requires bs < 28 && 0 <= d < DV
    ensures d == Shift(Shr(d, bs), bs) + Low(d, bs)
    ensures 0 <= Low(d, bs) < Pow(2, bs)
    ensures 0 <= Shr(d, bs) < Pow(2, 28 - bs)
  {
    SplitDigit(bs);
    DivMod(d, Pow(2, bs));
    ShiftPow(Shr(d, bs), bs);
    MulComm(Pow(2, bs), Pow(2, 28 - bs));
    DivBelow(d, Pow(2, 28 - bs), Pow(2, bs));
  }

  /** Bits l moved up into the free high bits of a stored digit. */
  lemma JoinLow(h: int, l: int, bs: nat)
    requires bs < 28 && 0 <= h < Pow(2, 28 - bs) && 0 <= l < Pow(2, bs)
    ensures 0 <= Shift(l, 28 - bs) < DV
    ensures Or(h, Shift(l, 28 - bs)) == h + Shift(l, 28 - bs)
    ensures 0 <= h + Shift(l, 28 - bs) < DV
    ensures Shift(Shift(l, 28 - bs), bs) == DV * l
    ensures bs == 0 ==> Shift(l, 28 - bs) == 0
  {
    SplitDigit(bs);
    OrDisjoint(h, l, 28 - bs);
    ShiftMono(0, l, 28 - bs);
    ShiftMono(l, Pow(2, bs) - 1, 28 - bs);
    ShiftAdd(Pow(2, bs), 1, 28 - bs);
    ShiftPow(Pow(2, bs), 28 - bs);
    ShiftPow(1, 28 - bs);
    ShiftShift(l, 28 - bs, bs);
    ShiftPow(l, 28);
    PowDV();
    ShiftMono(0, 0, 28);
  }

  /** The value after one step of the right shift. */
  lemma {:induction false} RShiftedNext(R: seq<int>, R': seq<int>, X: seq<int>, ds: nat, i: nat, bs: nat)
    requires RShifted(R, X, ds, i, bs) && i < |X| && 0 <= X[i] < DV && i - ds < |R'|
    requires forall k :: 0 <= k < i - ds - 1 ==> R'[k] == R[k]
    requires R'[i - ds - 1] == R[i - ds - 1] + Shift(Low(X[i], bs), 28 - bs) && R'[i - ds] == Shr(X[i], bs)
    requires Shift(Shift(Low(X[i], bs), 28 - bs), bs) == DV * Low(X[i], bs)
    requires X[i] == Shift(Shr(X[i], bs), bs) + Low(X[i], bs)
    ensures RShifted(R', X, ds, i + 1, bs)
  {
    var n := i - ds;
    ValFrame(R, R', 0, n - 1);
    RShiftStep(Val(R, 0, n - 1), R[n - 1], Shift(Low(X[i], bs), 28 - bs), Shr(X[i], bs), n, bs, Low(X[i], bs), X[i],
               Low(X[ds], bs), Val(X, ds, i));
  }

  /** One step of the right shift: the low bits of digit i join the digit below. */
  method RShiftDigit(x: BigInteger, i: nat, ds: nat, bs: nat, r: BigInteger, ghost X: seq<int>)
    requires RShifted(r.digits, X, ds, i, bs) && i < |X| && 0 <= X[i] < DV
    requires i < |x.digits| && x.digits[i] == X[i] && AreDigits(r.digits, 0, i - ds)
    modifies r`digits
    ensures RShifted(r.digits, X, ds, i + 1, bs) && AreDigits(r.digits, 0, i + 1 - ds)
    ensures |r.digits| >= |old(r.digits)|
    ensures forall k :: i - ds < k < |old(r.digits)| ==> r.digits[k] == old(r.digits)[k]
  {
    var d := x.digits[i];
    ghost var R := r.digits;
    UnshiftDigit(X[i - 1], bs);
    UnshiftDigit(d, bs);
    JoinLow(r.digits[i - ds - 1], Low(d, bs), bs);
    r.Put(i - ds - 1, Or(r.digits[i - ds - 1], Shl(Low(d, bs), 28 - bs)));
    r.Put(i - ds, Shr(d, bs));
    RShiftedNext(R, r.digits, X, ds, i, bs);
  }

  lemma RShiftStep(v: int, h: int, m: int, h': int, n: nat, bs: nat, l: int, d: int, low: int, w: int)
    requires n > 0 && Shift(m, bs) == DV * l && d == Shift(h', bs) + l
    requires Shift(v + Place(h, n - 1), bs) + low == w
    ensures Shift(v + Place(h + m, n - 1) + Place(h', n), bs) + low == w + Place(d, n)
  {
    PlaceAdd(h, m, n - 1);
    ShiftAdd(v + Place(h, n - 1), Place(m, n - 1) + Place(h', n), bs);
    ShiftAdd(Place(m, n - 1), Place(h', n), bs);
    PlaceOfShift(m, n - 1, bs);
    PlaceOfShift(h', n, bs);
    PlaceMul(DV, l, n - 1);
    PlaceAdd(Shift(h', bs), l, n);
  }

  /** From the digits to the whole: floor division by 2^n. */
  lemma RShiftValue(X: seq<int>, t: nat, s: int, ds: nat, bs: nat, v: int, low: int)
    requires ds <= t <= |X| && AreDigits(X, 0, ds) && bs < 28
    requires 0 <= low < Pow(2, bs) && Shift(v, bs) + low == Val(X, ds, t) + Place(s, t - ds)
    ensures Shift(v, 28 * ds + bs) <= SVal(X, t, s) < Shift(v + 1, 28 * ds + bs)
  {
    var w := Val(X, ds, t) + Place(s, t - ds);
    ValSplit(X, 0, ds, t);
    ValBound(X, 0, ds);
    PlacePlace(s, t - ds, ds);
    PlaceAdd(Val(X, ds, t), Place(s, t - ds), ds);
    PlaceAdd(w, 1, ds);
    ShiftAdd(v, 1, bs);
    ShiftPow(1, bs);
    PlaceMono(Shift(v, bs), w, ds);
    PlaceMono(w + 1, Shift(v + 1, bs), ds);
    PlaceOfShift(v, ds, bs);
    PlaceOfShift(v + 1, ds, bs);
  }

  /** The low bits of the sign extension. */
  lemma SignBits(s: int, bs: nat)
    requires bs < 28 && (s == 0 || s == -1)
    ensures 0 <= Low(s, bs) < Pow(2, bs) && s == Shift(s, bs) + Low(s, bs)
    ensures bs == 0 ==> Low(s, bs) == 0
  {
    SplitDigit(bs);
    ShiftPow(s, bs);
    if s == -1 { DivUnique(-1, Pow(2, bs), -1, Pow(2, bs) - 1); } else { DivUnique(0, Pow(2, bs), 0, 0); }
  }

  /** The digits of x >> (28 * ds + bs) without the bits of the sign. */
  method RShiftDigits(x: BigInteger, ds: nat, bs: nat, r: BigInteger)
    requires ds < x.t && AreDigits(x.digits, 0, x.t) && bs < 28
    modifies r`digits
    ensures AreDigits(r.digits, 0, x.t - ds)
    ensures RShifted(r.digits, old(x.digits), ds, x.t, bs)
  {
    ghost var X := x.digits;
    UnshiftDigit(x.digits[ds], bs);
    r.Put(0, Shr(x.digits[ds], bs));
    assert Val(r.digits, 0, 0) == 0 && Val(X, ds, ds) == 0;
    assert Val(r.digits, 0, 1) == Shr(X[ds], bs);
    assert Val(X, ds, ds + 1) == X[ds];
    var i := ds + 1;
    while i < x.t
      modifies r`digits
      invariant ds < i <= x.t && |x.digits| >= x.t && AreDigits(r.digits, 0, i - ds)
      invariant forall k :: i <= k < x.t ==> x.digits[k] == X[k]
      invariant RShifted(r.digits, X, ds, i, bs)
    {
      RShiftDigit(x, i, ds, bs, r, X);
      i := i + 1;
    }
  }

  /** r = x >> n, rounding down for both signs; r may be x. */
  method RShiftTo(x: BigInteger, n: nat, r: BigInteger)
    requires x.Wf()
    modifies r
    ensures r.Valid() && r.s == old(x.s)
    ensures Shift(r.Value(), n) <= old(x.Value()) < Shift(r.Value() + 1, n)
  {
    ghost var X, s := x.digits, x.s;
    r.s := x.s;
    var bs, ds := n % 28, n / 28;
    if ds >= x.t {
      SignOnly(X, x.t, s, ds);
      PlaceShift(s, ds); PlaceShift(s + 1, ds);
      ShiftRounds(s, SVal(X, x.t, s), 28 * ds, bs);
      r.t := 0;
      return;
    }
    RShiftDigits(x, ds, bs, r);
    RShiftEnd(x.t, ds, bs, r, X);
  }

  /** The value once the bits of the sign have joined the top digit. */
  lemma RShiftJoin(R: seq<int>, R': seq<int>, X: seq<int>, t: nat, ds: nat, bs: nat, s: int)
    requires RShifted(R, X, ds, t, bs) && (s == 0 || s == -1) && t - ds <= |R'|
    requires forall k :: 0 <= k < t - ds - 1 ==> R'[k] == R[k]
    requires R'[t - ds - 1] == R[t - ds - 1] + Shift(Low(s, bs), 28 - bs)
    requires Shift(Shift(Low(s, bs), 28 - bs), bs) == DV * Low(s, bs)
    requires s == Shift(s, bs) + Low(s, bs)
    ensures Shift(SVal(R', t - ds, s), bs) + Low(X[ds], bs) == Val(X, ds, t) + Place(s, t - ds)
  {
    var m := t - ds;
    ValFrame(R, R', 0, m - 1);
    RShiftStep(Val(R, 0, m - 1), R[m - 1], Shift(Low(s, bs), 28 - bs), s, m, bs, Low(s, bs), s, Low(X[ds], bs),
               Val(X, ds, t));
  }

  /** The sign extension joins the top digit, and the length is set. */
  method RShiftEnd(t: nat, ds: nat, bs: nat, r: BigInteger, ghost X: seq<int>)
    requires ds < t && AreDigits(X, 0, t) && (r.s == 0 || r.s == -1) && AreDigits(r.digits, 0, t - ds)
    requires RShifted(r.digits, X, ds, t, bs)
    modifies r
    ensures r.Valid() && r.s == old(r.s)
    ensures Shift(r.Value(), 28 * ds + bs) <= SVal(X, t, r.s) < Shift(r.Value() + 1, 28 * ds + bs)
  {
    var m := t - ds;
    ghost var R, s := r.digits, r.s;
    SignBits(s, bs);
    UnshiftDigit(X[t - 1], bs);
    UnshiftDigit(X[ds], bs);
    JoinLow(r.digits[m - 1], Low(s, bs), bs);
    if bs > 0 {
      r.Put(m - 1, Or(r.digits[m - 1], Shl(Low(r.s, bs), 28 - bs)));
    }
    RShiftJoin(R, r.digits, X, t, ds, bs, s);
    r.t := m;
    RShiftValue(X, t, s, ds, bs, SVal(r.digits, m, s), Low(X[ds], bs));
    r.Clamp();
  }

  /** Bounds for a sign survive a further shift. */
  lemma ShiftRounds(s: int, v: int, n: nat, k: nat)
    requires (s == 0 || s == -1) && Shift(s, n) <= v < Shift(s + 1, n)
    ensures Shift(s, n + k) <= v < Shift(s + 1, n + k)
  {
    ShiftShift(s, n, k);
    ShiftShift(s + 1, n, k);
    ShiftMono(0, 0, n); ShiftMono(0, 0, k);
    ShiftMono(0, 1, n);
    ShiftGrows(Shift(1, n), k);
    ShiftAdd(0, Shift(1, n), k); ShiftAdd(0, 1, n);
  }

  lemma ShiftGrows(v: int, k: nat)
    requires v >= 0
    ensures Shift(v, k) >= v
  {
    if k > 0 { ShiftGrows(v, k - 1); }
  }
}
