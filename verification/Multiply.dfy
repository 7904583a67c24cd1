/** Multiplication and squaring with the multiply-and-add inner loop am3. */
module Multiply {
  import opened Numbers
  import opened Digits
  import opened BigIntegers
  import opened AddSub

  lemma HalfDigits(xl: int, xh: int, l: int, h: int)
    requires 0 <= xl < 0x4000 && 0 <= xh < 0x8000 && 0 <= l < 0x4000 && 0 <= h < 0x4000
    ensures 0 <= xl * l <= 0x3fff * 0x3fff
    ensures 0 <= xh * l <= 0x7fff * 0x3fff
    ensures 0 <= h * xl <= 0x3fff * 0x3fff
    ensures 0 <= xh * h
  {
    MulLe(xl, 0x3fff, l); MulLe(xh, 0x7fff, l); MulLe(h, 0x3fff, xl);
    MulLe(0, xl, l); MulLe(0, xh, l); MulLe(0, h, xl); MulLe(0, xh, h);
  }

  lemma HalfProducts(xl: int, xh: int, l: int, h: int)
    ensures (xl + 0x4000 * xh) * (l + 0x4000 * h) == xl * l + 0x4000 * (xh * l + h * xl) + DV * (xh * h)
  {}

  lemma HalfWord(x: int)
    requires Int32(x)
    ensures Low(x, 14) == x % 0x4000 && Shr(x, 14) == x / 0x4000
  {
    PowDV();
  }

  lemma CarryBound(x: int, a: int, c0: int, w0: int, c1: int, w1: int)
    requires w1 + c1 * DV == w0 + x * a + c0
    requires 0 <= x < 2 * DV && 0 <= a < DV && 0 <= w0 < DV && 0 <= w1 < DV && 0 <= c0 < 3 * DV
    ensures 0 <= c1 < 3 * DV
  {
    MulLe(x, 2 * DV, a);
    MulLe(0, x, a);
  }

  /** One digit of am3: w + x * a + c in half-digit products, each of them a 32-bit word. */
  method AmDigit(x: int, a: int, w: int, c: int) returns (d: int, c': int)
    requires 0 <= x < 2 * DV && 0 <= a < DV && 0 <= w < DV && 0 <= c < 3 * DV
    ensures 0 <= d < DV && 0 <= c' < 3 * DV
    ensures d + DV * c' == w + x * a + c
  {
    var xl, xh := Low(x, 14), Shr(x, 14);
    var l := Low(a, 14);
    var h := Shr(a, 14);
    HalfWord(x);
    HalfWord(a);
    HalfDigits(xl, xh, l, h);
    HalfProducts(xl, xh, l, h);
    var m := xh * l + h * xl;
    HalfWord(m);
    ShiftPow(Low(m, 14), 14);
    PowDV();
    l := xl * l + Shl(Low(m, 14), 14) + w + c;
    c' := Carry(l) + Shr(m, 14) + xh * h;
    d := LowDigit(l);
    CarryBound(x, a, c, w, c', d);
  }

  lemma AmStep(x: int, a: int, c: int, w: int, c': int, w': int, k: nat, va: int)
    requires w' + DV * c' == w + x * a + c
    ensures Place(w', k) + Place(c', k + 1) == Place(w, k) + Place(c, k) + x * (va + Place(a, k)) - x * va
  {
    PlaceMul(DV, c', k);
    PlaceAdd(w', DV * c', k);
    PlaceAdd(w + x * a, c, k);
    PlaceAdd(w, x * a, k);
    PlaceMul(x, a, k);
    MulDistrib(x, va, Place(a, k));
  }

  /** w[j..j+n) += u * x[i..i+n) + c; the final carry is returned. */
  method Am3(x: BigInteger, i: nat, u: int, w: BigInteger, j: nat, c: int, n: nat) returns (c': int)
    requires w != x
    requires AreDigits(x.digits, i, i + n) && AreDigits(w.digits, j, j + n)
    requires 0 <= u < 2 * DV && 0 <= c < 3 * DV
    modifies w`digits
    ensures |w.digits| == |old(w.digits)| && AreDigits(w.digits, j, j + n)
    ensures forall k :: 0 <= k < |w.digits| && !(j <= k < j + n) ==> w.digits[k] == old(w.digits[k])
    ensures 0 <= c' < 3 * DV
    ensures Val(w.digits, j, j + n) + Place(c', n)
         == old(Val(w.digits, j, j + n)) + u * Val(x.digits, i, i + n) + c
  {
    c' := c;
    var k := 0;
    ghost var W := w.digits;
    while k < n
      invariant 0 <= k <= n
      invariant |w.digits| == |W| && AreDigits(w.digits, j, j + n)
      invariant forall p :: 0 <= p < |W| && !(j <= p < j + k) ==> w.digits[p] == W[p]
      invariant 0 <= c' < 3 * DV
      invariant Val(w.digits, j, j + k) + Place(c', k) == Val(W, j, j + k) + u * Val(x.digits, i, i + k) + c
    {
      ghost var c0, W1 := c', w.digits;
      var d: int;
      d, c' := AmDigit(u, x.digits[i + k], w.digits[j + k], c');
      w.digits := w.digits[j + k := d];
      ValFrame(W1, w.digits, j, j + k);
      AmStep(u, x.digits[i + k], c0, W[j + k], c', d, k, Val(x.digits, i, i + k));
      k := k + 1;
    }
  }

  /** The carry out of a multiplication by one digit is a digit. */
  lemma CarryIsDigit(v: int, c: int, w: int, u: int, x: int, n: nat)
    requires v + Place(c, n) == w + u * x
    requires 0 <= v && 0 <= w < Place(1, n) && 0 <= x < Place(1, n) && 0 <= u < DV
    ensures c < DV
  {
    MulLe(u, DM, x);
    PlaceMul(DV, 1, n);
    PlaceMono(c, DV, n);
    if c >= DV { PlaceMono(DV, c, n); }
  }

  /** A row of the product lands above the rows already summed. */
  lemma RowValue(R: seq<int>, R': seq<int>, i: nat, n: nat, c: int, y: seq<int>, x: int)
    requires i < |y| && i + n <= |R| && i + n < |R'| && R'[i + n] == c
    requires forall k :: 0 <= k < i ==> R'[k] == R[k]
    requires Val(R', i, i + n) + Place(c, n) == Val(R, i, i + n) + y[i] * x
    requires Val(R, 0, i + n) == x * Val(y, 0, i)
    ensures Val(R', 0, i + 1 + n) == x * Val(y, 0, i + 1)
  {
    ValFrame(R, R', 0, i);
    ValSplit(R, 0, i, i + n);
    ValSplit(R', 0, i, i + n + 1);
    PlaceAdd(Val(R, i, i + n), y[i] * x, i);
    MulComm(y[i], x);
    PlaceMul(x, y[i], i);
    MulDistrib(x, Val(y, 0, i), Place(y[i], i));
  }

  /** One row: r += y[i] * x at place i, its carry stored above. */
  method Row(x: BigInteger, y: BigInteger, r: BigInteger, i: nat)
    requires x.Wf() && y.Wf() && r != x && r != y && i < y.t
    requires AreDigits(r.digits, 0, x.t + i)
    requires Val(r.digits, 0, i + x.t) == Val(x.digits, 0, x.t) * Val(y.digits, 0, i)
    modifies r`digits
    ensures AreDigits(r.digits, 0, x.t + i + 1) && |r.digits| >= |old(r.digits)|
    ensures forall k :: i + x.t < k < |old(r.digits)| ==> r.digits[k] == old(r.digits)[k]
    ensures Val(r.digits, 0, i + 1 + x.t) == Val(x.digits, 0, x.t) * Val(y.digits, 0, i + 1)
  {
    ghost var R := r.digits;
    var c := Am3(x, 0, y.digits[i], r, i, 0, x.t);
    ValBound(x.digits, 0, x.t);
    ValBound(R, i, i + x.t);
    ValBound(r.digits, i, i + x.t);
    CarryIsDigit(Val(r.digits, i, i + x.t), c, Val(R, i, i + x.t), y.digits[i], Val(x.digits, 0, x.t), x.t);
    ghost var R1 := r.digits;
    r.Put(i + x.t, c);
    ValFrame(R1, r.digits, i, i + x.t);
    RowValue(R, r.digits, i, x.t, c, y.digits, Val(x.digits, 0, x.t));
  }

  /** The digits of the product of two non-negative numbers. */
  method Rows(x: BigInteger, y: BigInteger, r: BigInteger)
    requires x.Wf() && y.Wf() && r != x && r != y
    modifies r
    ensures r.t == x.t + y.t && AreDigits(r.digits, 0, r.t)
    ensures Val(r.digits, 0, r.t) == Val(x.digits, 0, x.t) * Val(y.digits, 0, y.t)
  {
    var i := x.t;
    r.t := i + y.t;
    ZeroDigits(r, i);
    ValZero(r.digits, 0, x.t);
    i := 0;
    while i < y.t
      modifies r`digits
      invariant 0 <= i <= y.t && AreDigits(r.digits, 0, x.t + i)
      invariant Val(r.digits, 0, i + x.t) == Val(x.digits, 0, x.t) * Val(y.digits, 0, i)
    {
      Row(x, y, r, i);
      i := i + 1;
    }
  }

  /** while(--i >= 0) r[i] = 0 */
  method ZeroDigits(r: BigInteger, n: nat)
    modifies r`digits
    ensures |r.digits| >= n && forall k :: 0 <= k < n ==> r.digits[k] == 0
    ensures |r.digits| >= |old(r.digits)|
  {
    var i := n;
    while i > 0
      modifies r`digits
      invariant 0 <= i <= n && (i < n ==> n <= |r.digits|) && |r.digits| >= |old(r.digits)|
      invariant forall k :: i <= k < n ==> r.digits[k] == 0
    {
      i := i - 1;
      r.Put(i, 0);
    }
  }

  lemma SignProduct(x: int, a: int)
    ensures (x < 0) == (a < 0) ==> x * a == (if x < 0 then -x else x) * (if a < 0 then -a else a)
    ensures (x < 0) != (a < 0) ==> x * a == -((if x < 0 then -x else x) * (if a < 0 then -a else a))
  {}

  /** r = x * a, r neither x nor a. */
  method MultiplyTo(x: BigInteger, a: BigInteger, r: BigInteger)
    requires x.Valid() && a.Valid() && r != x && r != a
    modifies r
    ensures r.Valid() && r.Value() == x.Value() * a.Value()
  {
    SignOf(x); SignOf(a);
    SignProduct(x.Value(), a.Value());
    var u := Abs(x);
    var y := Abs(a);
    SignOf(u); SignOf(y);
    Rows(u, y, r);
    r.s := 0;
    PlaceMono(0, 0, r.t);
    r.Clamp();
    if x.s != a.s { NegateTo(r, r); }
  }

  // ----- Squaring: each cross product once, doubled -----

  lemma PlaceProduct(a: int, m: nat, b: int, n: nat)
    ensures Place(a, m) * Place(b, n) == Place(a * b, m + n)
  {
    PlaceMul(b, a, m);
    PlacePlace(a * b, m, n);
    MulComm(Place(a, m), Place(b, n));
    PlaceMul(Place(a, m), b, n);
    MulComm(Place(a, m), b);
    MulComm(a, b);
  }

  /** The square of the first i digits and twice their product with the rest. */
  ghost function SquarePart(u: int, h: int): int {
    u * (u + 2 * h)
  }

  lemma SquareStep(u: int, d: int, h: int, i: nat)
    ensures SquarePart(u + Place(d, i), Place(h, i + 1))
         == SquarePart(u, Place(d + DV * h, i)) + Place(d * d, 2 * i) + Place(2 * d * h, 2 * i + 1)
  {
    PlaceMul(DV, h, i);
    PlaceAdd(d, DV * h, i);
    PlaceProduct(d, i, d, i);
    PlaceProduct(d, i, h, i + 1);
    PlaceAdd(d * h, d * h, 2 * i + 1);
    assert 2 * d * h == d * h + d * h;
    SquareExpand(u, Place(d, i), Place(h, i + 1));
  }

  lemma SquareExpand(u: int, p: int, q: int)
    ensures (u + p) * ((u + p) + 2 * q) == u * (u + 2 * (p + q)) + p * p + 2 * (p * q)
  {}

  /** r holds the square part of the first i digits of D; above place i + t it is still zero. */
  ghost predicate SquareRows(R: seq<int>, D: seq<int>, i: nat, t: nat) {
    && i < t <= |D| && AreDigits(D, 0, t) && AreDigits(R, 0, 2 * t)
    && R[i + t] <= 1 && (forall k :: i + t < k < 2 * t ==> R[k] == 0)
    && Val(R, 0, 2 * t) == SquarePart(Val(D, 0, i), Place(Val(D, i, t), i))
  }

  /** A value with one digit e on top and zeros above it. */
  lemma TopAndZeros(R: seq<int>, n: nat, hi: nat)
    requires n < hi <= |R| && forall k :: n < k < hi ==> R[k] == 0
    ensures Val(R, 0, hi) == Val(R, 0, n) + Place(R[n], n)
  {
    ValSplit(R, 0, n + 1, hi);
    ValZero(R, n + 1, hi);
    PlaceMono(0, 0, n + 1);
  }

  /** What the two multiply-and-adds of row i contribute. */
  lemma SquareRowValue(R: seq<int>, R2: seq<int>, i: nat, t: nat, d: int, h: int, c: int, c2: int)
    requires i < t && i + t <= |R| && i + t <= |R2|
    requires forall k :: 0 <= k < 2 * i ==> R2[k] == R[k]
    requires R2[2 * i] + DV * c == R[2 * i] + d * d
    requires Val(R2, 2 * i + 1, i + t) + Place(c2, t - i - 1) == Val(R, 2 * i + 1, i + t) + 2 * d * h + c
    ensures Val(R2, 0, i + t) + Place(c2, i + t)
         == Val(R, 0, i + t) + Place(d * d, 2 * i) + Place(2 * d * h, 2 * i + 1)
  {
    ValFrame(R, R2, 0, 2 * i);
    ValSplit(R, 0, 2 * i, i + t); ValSplit(R2, 0, 2 * i, i + t);
    ValLow(R, 2 * i, i + t); ValLow(R2, 2 * i, i + t);
    var v, v2 := Val(R, 2 * i, i + t), Val(R2, 2 * i, i + t);
    assert v2 + Place(c2, t - i) == v + (d * d + DV * (2 * d * h));
    PlaceAdd(v2, Place(c2, t - i), 2 * i);
    PlaceAdd(v, d * d + DV * (2 * d * h), 2 * i);
    PlaceAdd(d * d, DV * (2 * d * h), 2 * i);
    PlacePlace(c2, t - i, 2 * i);
    PlaceMul(DV, 2 * d * h, 2 * i);
  }

  lemma {:induction false} SquarePartBelow(u: int, h: int, a: int, b: int)
    requires 0 <= u < a && 0 <= h && u + h < b
    ensures SquarePart(u, h) < 2 * (a * b)
  {
    MulLe(u, a, u + 2 * h);
    MulLt(u + 2 * h, 2 * b, a);
    MulComm(a, u + 2 * h);
    MulAssoc(2, b, a);
    MulComm(a, b);
  }

  lemma {:induction false} TwoBaseAbove(n: nat)
    ensures Place(2 * DV, n) == 2 * Place(1, 1 + n)
  {
    PlaceMul(2, DV, n);
    PlaceMul(DV, 1, n);
  }

  /** The top digit of a row exceeds a digit by at most one. */
  lemma {:induction false} SquareTop(u: int, h: int, i: nat, t: nat, v: int, e: int)
    requires 0 <= u < Place(1, i + 1) && 0 <= h && u + h < Place(1, t)
    requires 0 <= v && v + Place(e, i + t) == SquarePart(u, h)
    ensures e < 2 * DV
  {
    SquarePartBelow(u, h, Place(1, i + 1), Place(1, t));
    PlaceProduct(1, i + 1, 1, t);
    TwoBaseAbove(i + t);
    PlaceMono(e, 2 * DV, i + t);
  }

  /** Row i of a square: the digit squared, and its doubled product with the digits above. */
  method SquareRow(x: BigInteger, r: BigInteger, i: nat)
    requires x.Wf() && r != x && i + 1 < x.t && SquareRows(r.digits, x.digits, i, x.t)
    modifies r`digits
    ensures SquareRows(r.digits, x.digits, i + 1, x.t)
  {
    ghost var R, t, D := r.digits, x.t, x.digits;
    ghost var d, h := x.digits[i], Val(x.digits, i + 1, x.t);
    var c := Am3(x, i, x.digits[i], r, 2 * i, 0, 1);
    assert Val(x.digits, i, i + 1) == d && Val(R, 2 * i, 2 * i + 1) == R[2 * i] by {
      assert Val(x.digits, i, i) == 0 && Val(R, 2 * i, 2 * i) == 0;
    }
    assert Val(r.digits, 2 * i, 2 * i + 1) == r.digits[2 * i] by { assert Val(r.digits, 2 * i, 2 * i) == 0; }
    ghost var R1 := r.digits;
    ValFrame(R, R1, 2 * i + 1, i + t);
    var c2 := Am3(x, i + 1, 2 * x.digits[i], r, 2 * i + 1, c, x.t - i - 1);
    SquareRowValue(R, r.digits, i, t, d, h, c, c2);
    SquareCarry(x, r, i, c2, R);
  }

  /** The value of row i with the carry joined to digit i + t. */
  lemma SquareRowTop(R: seq<int>, R2: seq<int>, D: seq<int>, i: nat, t: nat, c: int)
    requires i + 1 < t && SquareRows(R, D, i, t) && AreDigits(R2, 0, i + t)
    requires Val(R2, 0, i + t) + Place(c, i + t) == Val(R, 0, i + t)
      + Place(D[i] * D[i], 2 * i) + Place(2 * D[i] * Val(D, i + 1, t), 2 * i + 1)
    ensures Val(R2, 0, i + t) + Place(R[i + t] + c, i + t)
         == SquarePart(Val(D, 0, i + 1), Place(Val(D, i + 1, t), i + 1))
    ensures R[i + t] + c < 2 * DV
  {
    var n := i + t;
    var u, h := Val(D, 0, i + 1), Place(Val(D, i + 1, t), i + 1);
    TopAndZeros(R, n, 2 * t);
    ValLow(D, i, t);
    SquareStep(Val(D, 0, i), D[i], Val(D, i + 1, t), i);
    PlaceAdd(R[n], c, n);
    SquareRange(D, i + 1, t);
    ValBound(R2, 0, n);
    SquareTop(u, h, i, t, Val(R2, 0, n), R[n] + c);
  }

  lemma SquareRange(D: seq<int>, i: nat, t: nat)
    requires i <= t && AreDigits(D, 0, t)
    ensures 0 <= Val(D, 0, i) < Place(1, i) && 0 <= Place(Val(D, i, t), i)
    ensures Val(D, 0, i) + Place(Val(D, i, t), i) < Place(1, t)
  {
    ValBound(D, 0, i); ValBound(D, i, t); ValBound(D, 0, t); ValSplit(D, 0, i, t);
    PlaceMono(0, Val(D, i, t), i);
  }

  /** The carry of row i joins the digit at i + t, which may overflow by one. */
  method SquareCarry(x: BigInteger, r: BigInteger, i: nat, c: int, ghost R: seq<int>)
    requires x.Wf() && r != x && i + 1 < x.t && SquareRows(R, x.digits, i, x.t)
    requires AreDigits(r.digits, 0, 2 * x.t) && 0 <= c < 3 * DV
    requires forall k :: i + x.t <= k < 2 * x.t ==> r.digits[k] == R[k]
    requires Val(r.digits, 0, i + x.t) + Place(c, i + x.t) == Val(R, 0, i + x.t)
      + Place(x.digits[i] * x.digits[i], 2 * i) + Place(2 * x.digits[i] * Val(x.digits, i + 1, x.t), 2 * i + 1)
    modifies r`digits
    ensures SquareRows(r.digits, x.digits, i + 1, x.t)
  {
    SquareRowTop(R, r.digits, x.digits, i, x.t, c);
    var n := i + x.t;
    ghost var R2, e := r.digits, r.digits[n] + c;
    r.digits := r.digits[n := r.digits[n] + c];
    if r.digits[n] >= DV {
      r.digits := r.digits[n := r.digits[n] - DV];
      r.digits := r.digits[n + 1 := 1];
    }
    ValFrame(R2, r.digits, 0, n);
    TopAndZeros(r.digits, n + 1, 2 * x.t);
    PlaceMul(DV, 1, n);
    PlaceAdd(e - DV, DV, n);
    PlaceMono(0, 0, n + 1);
  }

  /** The last digit's square, whose carry is the top digit of the result. */
  method SquareLast(x: BigInteger, r: BigInteger, i: nat)
    requires x.Wf() && r != x && i + 1 == x.t && SquareRows(r.digits, x.digits, i, x.t)
    modifies r`digits
    ensures AreDigits(r.digits, 0, 2 * x.t)
    ensures Val(r.digits, 0, 2 * x.t) == Val(x.digits, 0, x.t) * Val(x.digits, 0, x.t)
  {
    ghost var R, t, D := r.digits, x.t, x.digits;
    var c := Am3(x, i, x.digits[i], r, 2 * i, 0, 1);
    assert Val(x.digits, i, i + 1) == D[i] && Val(R, 2 * i, 2 * i + 1) == R[2 * i] by {
      assert Val(x.digits, i, i) == 0 && Val(R, 2 * i, 2 * i) == 0;
    }
    assert Val(r.digits, 2 * i, 2 * i + 1) == r.digits[2 * i] by { assert Val(r.digits, 2 * i, 2 * i) == 0; }
    assert Val(D, i + 1, t) == 0;
    assert 2 * D[i] * Val(D, i + 1, t) == 0;
    SquareRowValue(R, r.digits, i, t, D[i], 0, c, c);
    SquareRowLast(R, r.digits, D, i, c);
    ghost var R2 := r.digits;
    r.digits := r.digits[2 * x.t - 1 := r.digits[2 * x.t - 1] + c];
    ValFrame(R2, r.digits, 0, 2 * t - 1);
  }

  lemma SquareRowLast(R: seq<int>, R2: seq<int>, D: seq<int>, i: nat, c: int)
    requires SquareRows(R, D, i, i + 1) && AreDigits(R2, 0, 2 * i + 1)
    requires Val(R2, 0, 2 * i + 1) + Place(c, 2 * i + 1) == Val(R, 0, 2 * i + 1)
      + Place(D[i] * D[i], 2 * i) + Place(0, 2 * i + 1)
    ensures Val(R2, 0, 2 * i + 1) + Place(R[2 * i + 1] + c, 2 * i + 1) == Val(D, 0, i + 1) * Val(D, 0, i + 1)
    ensures R[2 * i + 1] + c < DV
  {
    var n, v := 2 * i + 1, Val(D, 0, i + 1);
    ValLow(D, i, i + 1);
    assert Val(D, i + 1, i + 1) == 0;
    SquareStep(Val(D, 0, i), D[i], 0, i);
    PlaceMono(0, 0, i + 1); PlaceMono(0, 0, n);
    PlaceAdd(R[n], c, n);
    ValBound(D, 0, i + 1); ValBound(R2, 0, n);
    MulLe(v, Place(1, i + 1), v);
    MulLt(v, Place(1, i + 1), Place(1, i + 1));
    MulLe(v, Place(1, i + 1), Place(1, i + 1));
    PlaceProduct(1, i + 1, 1, i + 1);
    MulComm(v, Place(1, i + 1));
    PlaceMul(DV, 1, n);
    PlaceMono(R[n] + c, DV, n);
  }

  /** r = x^2, r not x. */
  method SquareTo(x: BigInteger, r: BigInteger)
    requires x.Valid() && r != x
    modifies r
    ensures r.Valid() && r.Value() == x.Value() * x.Value()
  {
    SignOf(x);
    SignProduct(x.Value(), x.Value());
    var u := Abs(x);
    SignOf(u);
    r.t := 2 * u.t;
    ZeroDigits(r, r.t);
    ValZero(r.digits, 0, r.t);
    var i := 0;
    PlaceMono(0, 0, 0);
    while i < u.t - 1
      modifies r`digits
      invariant 0 <= i && (u.t > 0 ==> i <= u.t - 1 && SquareRows(r.digits, u.digits, i, u.t))
      invariant u.t == 0 ==> i == 0
    {
      SquareRow(u, r, i);
      i := i + 1;
    }
    if r.t > 0 { SquareLast(u, r, i); }
    r.s := 0;
    PlaceMono(0, 0, r.t);
    r.Clamp();
  }

  /** Squaring is multiplication by itself. */
  method SquareAgrees(x: BigInteger) returns (a: BigInteger, b: BigInteger)
    requires x.Valid()
    ensures a.Valid() && b.Valid() && a.Value() == x.Value() * x.Value()
    ensures a.t == b.t && a.s == b.s && a.digits[..a.t] == b.digits[..b.t]
  {
    a := new BigInteger();
    b := new BigInteger();
    SquareTo(x, a);
    MultiplyTo(x, x, b);
    CanonicalUnique(a.digits, a.t, a.s, b.digits, b.t, b.s);
  }
}
