/** Remainders by an approximate reciprocal: Barrett reduction and its partial products. */
module BarrettReduction {
  import opened Numbers
  import opened Digits
  import opened BigIntegers
  import opened AddSub
  import opened Compare
  import opened Shifts
  import opened Multiply
  import opened Division
  import opened Reducer

  /** x mod a: the remainder in [0, a) for a positive a. For a negative one it is the remainder in [0, -a) as well,
      but where x is negative too and a does not divide it the result lies two moduli lower. */
  method Mod(x: BigInteger, a: BigInteger) returns (r: BigInteger)
    requires x.Valid() && a.Valid() && a.Value() != 0
    ensures fresh(r) && r.Valid()
    ensures a.Value() > 0 || x.Value() >= 0 ==> r.Value() == x.Value() % AbsOf(a.Value())
    ensures a.Value() < 0 && x.Value() < 0 ==>
        var u := x.Value() % AbsOf(a.Value()); r.Value() == if u == 0 then 0 else u + 2 * a.Value()
  {
    SignOf(x);
    ghost var X, A := x.Value(), AbsOf(a.Value());
    r := new BigInteger();
    var u := Abs(x);
    DivRemTo(u, a, null, r);
    var zero := Nbv(0);
    SignOf(r);
    SignOf(zero);
    var cmp := CompareTo(r, zero);
    if X < 0 {
      NegativeRemainder(X, A);
    }
    if x.s < 0 && cmp > 0 {
      SubTo(a, r, r);
    }
  }

  lemma NegativeRemainder(x: int, a: int)
    requires x < 0 && a > 0
    ensures x % a == if (-x) % a > 0 then a - (-x) % a else 0
  {
    DivMod(-x, a);
    var q := (-x) / a;
    if (-x) % a > 0 {
      assert (-q - 1) * a == -(q * a) - a;
      DivUnique(x, a, -q - 1, a - (-x) % a);
    } else {
      assert x == (-q) * a;
      DivUnique(x, a, -q, 0);
    }
  }

  // ----- The low words of a product -----

  /** Modulo DV^n only the low digits of a factor matter for a digit at place i. */
  lemma {:induction false} LowRow(x: seq<int>, xt: nat, n: nat, i: nat, d: int)
    requires i <= n && n - i <= xt <= |x|
    ensures d * Place(Val(x, 0, xt), i) == Place(d * Val(x, 0, n - i), i) + Place(d * Val(x, n - i, xt), n)
  {
    var lo, hi := Val(x, 0, n - i), Val(x, n - i, xt);
    ValSplit(x, 0, n - i, xt);
    PlaceAdd(lo, Place(hi, n - i), i);
    PlacePlace(hi, n - i, i);
    MulDistrib(d, Place(lo, i), Place(hi, n));
    PlaceMul(d, lo, i);
    PlaceMul(d, hi, n);
  }

  lemma {:induction false} PlaceVanishes(v: int, w: int, n: nat, m: int)
    requires m == Place(1, n) && m > 0
    ensures Cong(v + Place(w, n), v, m)
  {
    PlaceMul(w, 1, n);
    CongFromMultiple(v + Place(w, n), v, w, m);
  }

  /** Adding one truncated row. */
  lemma {:induction false} LowRowValue(R: seq<int>, R': seq<int>, x: seq<int>, xt: nat, n: nat, a: seq<int>, i: nat,
                                       c: int, X: int, m: int)
    requires i < n && n - i <= xt <= |x| && i < |a| && n <= |R| && n <= |R'| && X == Val(x, 0, xt)
    requires m == Place(1, n) && m > 0
    requires forall k :: 0 <= k < i ==> R'[k] == R[k]
    requires Val(R', i, n) + Place(c, n - i) == Val(R, i, n) + a[i] * Val(x, 0, n - i)
    requires Cong(Val(R, 0, n), X * Val(a, 0, i), m)
    ensures Cong(Val(R', 0, n), X * Val(a, 0, i + 1), m)
  {
    var lo, hi := Val(x, 0, n - i), Val(x, n - i, xt);
    ValFrame(R, R', 0, i);
    ValSplit(R, 0, i, n); ValSplit(R', 0, i, n);
    PlaceAdd(Val(R', i, n), Place(c, n - i), i);
    PlaceAdd(Val(R, i, n), a[i] * lo, i);
    PlacePlace(c, n - i, i);
    LowRow(x, xt, n, i, a[i]);
    MulDistrib(X, Val(a, 0, i), Place(a[i], i));
    PlaceMul(X, a[i], i); PlaceMul(a[i], X, i); MulComm(X, a[i]);
    var p := Place(a[i] * lo, i);
    assert Val(R', 0, n) + Place(c, n) == Val(R, 0, n) + p;
    assert X * Val(a, 0, i + 1) == X * Val(a, 0, i) + p + Place(a[i] * hi, n);
    PlaceVanishes(Val(R', 0, n), c, n, m);
    PlaceVanishes(X * Val(a, 0, i) + p, a[i] * hi, n, m);
    CongAdd(Val(R, 0, n), X * Val(a, 0, i), p, p, m);
  }

  /** The rows that still fit entirely into r. */
  method WholeRows(x: BigInteger, a: BigInteger, r: BigInteger, j: int) returns (i: nat)
    requires x.Wf() && a.Wf() && r != x && r != a && j <= a.t && 0 <= r.t
    requires r.t <= |r.digits| && (forall k :: 0 <= k < r.t ==> r.digits[k] == 0) && j <= r.t - x.t
    modifies r`digits
    ensures i == if j > 0 then j else 0
    ensures AreDigits(r.digits, 0, r.t)
    ensures i > 0 ==> Val(r.digits, 0, i + x.t) == Val(x.digits, 0, x.t) * Val(a.digits, 0, i)
    ensures forall k :: i + x.t <= k < r.t ==> r.digits[k] == 0
    ensures i == 0 ==> forall k :: 0 <= k < r.t ==> r.digits[k] == 0
  {
    i := 0;
    if j > 0 { ValZero(r.digits, 0, x.t); }
    while i < j
      modifies r`digits
      invariant 0 <= i && (j > 0 ==> i <= j) && (j <= 0 ==> i == 0)
      invariant AreDigits(r.digits, 0, r.t)
      invariant forall k :: i + x.t <= k < r.t ==> r.digits[k] == 0
      invariant i == 0 ==> forall k :: 0 <= k < r.t ==> r.digits[k] == 0
      invariant j > 0 ==> Val(r.digits, 0, i + x.t) == Val(x.digits, 0, x.t) * Val(a.digits, 0, i)
    {
      Row(x, a, r, i);
      i := i + 1;
    }
  }

  /** The truncated rows, from digit i0 of a on. */
  method LowRows(x: BigInteger, a: BigInteger, r: BigInteger, i0: nat, n: nat)
    requires x.Wf() && a.Wf() && r != x && r != a && r.t == n && n - i0 <= x.t && i0 <= a.t <= n
    requires AreDigits(r.digits, 0, n) && Place(1, n) > 0
    requires Cong(Val(r.digits, 0, n), Val(x.digits, 0, x.t) * Val(a.digits, 0, i0), Place(1, n))
    modifies r`digits
    ensures AreDigits(r.digits, 0, n)
    ensures Cong(Val(r.digits, 0, n), Val(x.digits, 0, x.t) * Val(a.digits, 0, a.t), Place(1, n))
  {
    var i := i0;
    while i < a.t
      modifies r`digits
      invariant i0 <= i <= a.t && AreDigits(r.digits, 0, n)
      invariant Cong(Val(r.digits, 0, n), Val(x.digits, 0, x.t) * Val(a.digits, 0, i), Place(1, n))
    {
      ghost var R := r.digits;
      var c := Am3(x, 0, a.digits[i], r, i, 0, n - i);
      LowRowValue(R, r.digits, x.digits, x.t, n, a.digits, i, c, Val(x.digits, 0, x.t), Place(1, n));
      i := i + 1;
    }
  }

  /** r = lower n words of x * a, a.t <= n, both not negative. */
  method MultiplyLowerTo(x: BigInteger, a: BigInteger, n: nat, r: BigInteger)
    requires x.Wf() && a.Wf() && x.s == 0 && a.s == 0 && a.t <= n && r != x && r != a
    modifies r
    ensures r.Valid() && r.s == 0 && Place(1, n) > 0
    ensures r.Value() == (x.Value() * a.Value()) % Place(1, n)
  {
    PlaceMono(0, 1, n);
    var i := if x.t + a.t < n then x.t + a.t else n;
    r.s := 0;
    r.t := i;
    ZeroDigits(r, i);
    i := WholeRows(x, a, r, r.t - x.t);
    assert Val(x.digits, 0, x.t) * Val(a.digits, 0, 0) == 0;
    if i == 0 { ValZero(r.digits, 0, r.t); } else { ValTailZero(r.digits, i + x.t, r.t); }
    if i < a.t { LowRows(x, a, r, i, n); }
    ValBound(r.digits, 0, r.t);
    PlaceGrows(1, r.t, n);
    CongUnique(Val(r.digits, 0, r.t), Val(x.digits, 0, x.t) * Val(a.digits, 0, a.t), Place(1, n));
    PlaceMono(0, 0, r.t); PlaceMono(0, 0, x.t); PlaceMono(0, 0, a.t);
    r.Clamp();
  }

  lemma {:induction false} ValTailZero(R: seq<int>, n: nat, hi: nat)
    requires n <= hi <= |R| && forall k :: n <= k < hi ==> R[k] == 0
    ensures Val(R, 0, hi) == Val(R, 0, n)
  {
    ValSplit(R, 0, n, hi);
    ValZero(R, n, hi);
    PlaceMono(0, 0, n);
  }

  // ----- The high words of a product -----

  /** A row without its digits below place n: what is kept and what is lost. */
  lemma {:induction false} HighRow(x: seq<int>, xt: nat, n: nat, i: nat, d: int)
    requires i <= n && n - i <= xt <= |x| && AreDigits(x, 0, xt) && 0 <= d < DV
    ensures Place(d * Val(x, n - i, xt), n) <= d * Place(Val(x, 0, xt), i)
    ensures d * Place(Val(x, 0, xt), i) <= Place(d * Val(x, n - i, xt), n) + (if i < n then Place(DV, n) else 0)
  {
    var lo := Val(x, 0, n - i);
    LowRow(x, xt, n, i, d);
    ValBound(x, 0, n - i);
    MulNonNeg(d, lo);
    PlaceMono(0, d * lo, i);
    if i < n {
      MulLe(d, DV, lo);
      PlaceMul(DV, 1, n - i);
      PlacePlace(DV, n - i, i);
      PlaceMono(d * lo, Place(DV, n - i), i);
    } else {
      assert lo == 0;
      MulComm(d, lo);
      PlaceMono(0, 0, i);
    }
  }

  /** The rows so far: at most DV * DV^n short for every row that loses digits. */
  ghost predicate Upper(R: seq<int>, w: nat, X: int, a: int, n: nat, lost: nat) {
    && AreDigits(R, 0, w)
    && Place(Val(R, 0, w), n) <= X * a <= Place(Val(R, 0, w) + DV * lost, n)
  }

  lemma {:induction false} UpperStep(v: int, v': int, X: int, A: int, d: int, i: nat, n: nat, hi: int, lost: nat,
                                     e: nat)
    requires Place(v, n) <= X * A <= Place(v + DV * lost, n) && v' == v + d * hi
    requires Place(d * hi, n) <= d * Place(X, i) <= Place(d * hi, n) + (if e == 1 then Place(DV, n) else 0) && e <= 1
    ensures Place(v', n) <= X * (A + Place(d, i)) <= Place(v' + DV * (lost + e), n)
  {
    MulDistrib(X, A, Place(d, i));
    PlaceMul(X, d, i); PlaceMul(d, X, i); MulComm(X, d);
    PlaceAdd(v, d * hi, n);
    PlaceAdd(v + DV * lost, d * hi, n);
    PlaceAdd(v + DV * lost + d * hi, DV, n);
  }

  /** One row of the upper product: digits n-i.. of x, times digit i of a. */
  method UpperRow(x: BigInteger, a: BigInteger, r: BigInteger, i: nat, n: nat, ghost lost: nat)
    requires x.Wf() && a.Wf() && r != x && r != a && i < a.t && i <= n && n <= x.t
    requires lost == (if i < n then i else n)
    requires Upper(r.digits, x.t + i - n, Val(x.digits, 0, x.t), Val(a.digits, 0, i), n, lost)
    modifies r`digits
    ensures |r.digits| >= |old(r.digits)|
    ensures Upper(r.digits, x.t + i + 1 - n, Val(x.digits, 0, x.t), Val(a.digits, 0, i + 1), n,
                  if i + 1 < n then i + 1 else n)
  {
    ghost var w, R, d := x.t + i - n, r.digits, a.digits[i];
    ghost var hi := Val(x.digits, n - i, x.t);
    var c := Am3(x, n - i, a.digits[i], r, 0, 0, x.t + i - n);
    ValBound(R, 0, w); ValBound(r.digits, 0, w); ValBound(x.digits, n - i, x.t);
    CarryIsDigit(Val(r.digits, 0, w), c, Val(R, 0, w), d, hi, w);
    ghost var R1 := r.digits;
    r.Put(x.t + i - n, c);
    UpperValue(R, R1, r.digits, w, c, x.digits, x.t, a.digits, i, n, lost);
  }

  lemma {:induction false} UpperValue(R: seq<int>, R1: seq<int>, R': seq<int>, w: nat, c: int,
                                      x: seq<int>, xt: nat, a: seq<int>, i: nat, n: nat, lost: nat)
    requires i <= n <= xt <= |x| && AreDigits(x, 0, xt) && i < |a| && 0 <= a[i] < DV
    requires w <= |R| && w <= |R1| && w < |R'| && AreDigits(R1, 0, w) && R'[w] == c && 0 <= c < DV
    requires forall k :: 0 <= k < w ==> R'[k] == R1[k]
    requires Val(R1, 0, w) + Place(c, w) == Val(R, 0, w) + a[i] * Val(x, n - i, xt)
    requires lost == (if i < n then i else n) && Upper(R, w, Val(x, 0, xt), Val(a, 0, i), n, lost)
    ensures Upper(R', w + 1, Val(x, 0, xt), Val(a, 0, i + 1), n, if i + 1 < n then i + 1 else n)
  {
    ValFrame(R1, R', 0, w);
    HighRow(x, xt, n, i, a[i]);
    UpperStep(Val(R, 0, w), Val(R', 0, w + 1), Val(x, 0, xt), Val(a, 0, i), a[i], i, n, Val(x, n - i, xt), lost,
              if i < n then 1 else 0);
  }

  lemma {:induction false} DropLowest(v: int, q: int, n: nat, p: int)
    requires Place(v, n) <= p <= Place(v + DV * n, n) && DV * q <= v < DV * (q + 1)
    ensures Place(q, n + 1) <= p < Place(q + n + 1, n + 1)
  {
    PlaceMul(DV, q, n);
    PlaceMono(DV * q, v, n);
    PlaceMul(DV, q + n + 1, n);
    PlaceMono(v + DV * n, DV * (q + n + 1), n);
  }

  /** r.clamp(), r.drShiftTo(1, r): the digit at place n has served for carries only. */
  method DropLowestDigit(r: BigInteger, n: nat, ghost lost: nat, ghost X: int, ghost A: int)
    requires 0 <= r.t && r.s == 0 && Upper(r.digits, r.t, X, A, n, lost) && lost <= n
    modifies r
    ensures r.Valid() && r.s == 0
    ensures Place(r.Value(), n + 1) <= X * A < Place(r.Value() + n + 1, n + 1)
  {
    ghost var v := Val(r.digits, 0, r.t);
    PlaceMono(v + DV * lost, v + DV * n, n);
    PlaceMono(0, 0, r.t);
    r.Clamp();
    DRShiftTo(r, 1, r);
    DropLowest(v, r.Value(), n, X * A);
  }

  /** r = x * a without its lower n words, short by at most n. */
  method MultiplyUpperTo(x: BigInteger, a: BigInteger, n: nat, r: BigInteger)
    requires x.Wf() && a.Wf() && x.s == 0 && a.s == 0 && r != x && r != a
    requires 0 < n <= x.t + 1 && a.t <= n
    modifies r
    ensures r.Valid() && r.s == 0
    ensures Place(r.Value(), n) <= x.Value() * a.Value() < Place(r.Value() + n, n)
  {
    var k := n - 1;
    r.t := x.t + a.t - k;
    r.s := 0;
    ZeroDigits(r, r.t);
    ValZero(r.digits, 0, x.t - k);
    assert Val(x.digits, 0, x.t) * Val(a.digits, 0, 0) == 0;
    PlaceMono(0, 0, k);
    var i := Max(k - x.t, 0);
    while i < a.t
      modifies r`digits
      invariant 0 <= i <= a.t
      invariant Upper(r.digits, x.t + i - k, Val(x.digits, 0, x.t), Val(a.digits, 0, i), k, if i < k then i else k)
    {
      UpperRow(x, a, r, i, k, if i < k then i else k);
      i := i + 1;
    }
    PlaceMono(0, 0, x.t); PlaceMono(0, 0, a.t);
    DropLowestDigit(r, k, if i < k then i else k, x.Value(), a.Value());
  }

  // ----- The quotient estimate of Barrett reduction -----

  /** X < DV^2t, Q its digits from t-1 on, mu = DV^2t / M, q the upper product of mu and Q. */
  ghost predicate Estimated(X: int, M: int, mu: int, Q: int, q: int, b1: int, b2: int, e: int, n: int) {
    && 0 < b1 <= M && 0 < e && e * b1 == b2 && M <= b2
    && 0 <= X < b2 && mu == b2 / M
    && 0 <= Q && Q * b1 <= X < (Q + 1) * b1
    && 0 <= q && q * e <= mu * Q < (q + n) * e
  }

  lemma Four(a: int, b: int, c: int, d: int)
    ensures (a * b) * (c * d) == (a * c) * (b * d)
  {
    MulAssoc(a, b, c * d);
    MulAssoc(b, c, d); MulComm(b, c); MulAssoc(c, b, d);
    MulAssoc(a, c, b * d);
  }

  /** The estimate is never too large. */
  lemma {:induction false} EstimateLow(X: int, M: int, mu: int, Q: int, q: int, b1: int, b2: int, e: int, n: int)
    requires Estimated(X, M, mu, Q, q, b1, b2, e, n)
    ensures q * M <= X
  {
    DivMod(b2, M);
    DivPos(b2, M);
    MulNonNeg(Q, b1);
    var p, k := mu * Q, M * b1;
    MulPos(M, b1);
    assert p * k == (mu * M) * (Q * b1) by { Four(mu, Q, M, b1); }
    MulLe(mu * M, b2, Q * b1);
    MulLe(Q * b1, X, b2);
    MulComm(b2, Q * b1); MulComm(X, b2);
    MulLe(q * e, p, k);
    assert (q * e) * k == (q * M) * b2 by { Four(q, e, M, b1); }
    if X < q * M { MulLt(X, q * M, b2); }
  }

  /** The estimate is at most n + 1 too small. */
  lemma {:induction false} EstimateHigh(X: int, M: int, mu: int, Q: int, q: int, b1: int, b2: int, e: int, n: int)
    requires Estimated(X, M, mu, Q, q, b1, b2, e, n)
    ensures X < (q + n + 2) * M
  {
    if Q == 0 {
      assert n >= 1 by { if n <= 0 { MulLe(q + n, q, e); } }
      MulLe(1, q + n + 2, M);
    } else {
      DivMod(b2, M);
      var p, k := mu * Q, M * b1;
      MulPos(M, b1);
      assert p * k == (mu * M) * (Q * b1) by { Four(mu, Q, M, b1); }
      MulLe(1, Q, b1);
      MulDistrib(b1, Q, 1);
      LowerProduct(mu * M, Q * b1, b2, M, X, b1);
      MulLt(p, (q + n) * e, k);
      assert ((q + n) * e) * k == ((q + n) * M) * b2 by { Four(q + n, e, M, b1); }
      MulComm(b2, X - 2 * M);
      MulCancelLt(X - 2 * M, (q + n) * M, b2);
      MulDistrib(M, q + n, 2);
    }
  }

  lemma {:induction false} LowerProduct(u: int, v: int, b2: int, M: int, X: int, b1: int)
    requires b2 - M < u && X - b1 < v && 0 <= b1 <= X < b2 && b1 <= M <= b2
    ensures b2 * (X - 2 * M) <= u * v
  {
    MulLe(b2 - M, u, X - b1);
    MulLe(X - b1, v, u);
    MulComm(u, X - b1); MulComm(u, v);
    MulLe(b1, M, b2); MulLe(X, b2, M);
    MulNonNeg(M, b1);
    MulComm(M, b2);
    LowerExpand(b2, M, X, b1);
  }

  lemma {:induction false} LowerExpand(b2: int, M: int, X: int, b1: int)
    ensures (b2 - M) * (X - b1) == b2 * X - b1 * b2 - X * M + M * b1
    ensures b2 * (X - 2 * M) == b2 * X - 2 * (b2 * M)
  {}

  // ----- x += n << w words -----

  lemma {:induction false} CarryAppended(D: seq<int>, D': seq<int>, w: nat)
    requires w < |D| && w + 1 < |D'| && D'[w] == D[w] - DV && D'[w + 1] == 1
    requires forall k :: 0 <= k < w ==> D'[k] == D[k]
    ensures Val(D', 0, w + 2) == Val(D, 0, w + 1)
  {
    ValFrame(D, D', 0, w);
    PlaceAdd(D[w], DV, w);
    PlaceMul(DV, 1, w);
  }

  /** x += n << w words, x not negative. */
  method DAddOffset(x: BigInteger, n: int, w: nat)
    requires x.Valid() && x.s == 0 && 0 < n < DV
    modifies x
    ensures x.Valid() && x.s == 0 && x.Value() == old(x.Value()) + Place(n, w)
  {
    ghost var v := Val(x.digits, 0, x.t) + Place(n, w);
    PlaceMono(0, 0, x.t);
    while x.t <= w
      modifies x
      invariant x.Wf() && x.s == 0 && x.t >= old(x.t) && Val(x.digits, 0, x.t) == v - Place(n, w)
      invariant x.t > w ==> x.t == w + 1 || x.Valid()
      decreases w + 1 - x.t
    {
      ghost var d := x.digits;
      PlaceMono(0, 0, x.t);
      x.Put(x.t, 0);
      ValFrame(d, x.digits, 0, x.t);
      x.t := x.t + 1;
    }
    ghost var D := x.digits;
    x.digits := x.digits[w := x.digits[w] + n];
    DigitRaised(D, x.digits, w, n, x.t);
    CarryOn(x, w);
    PlaceMono(0, 0, x.t);
  }

  lemma {:induction false} DigitRaised(D: seq<int>, D': seq<int>, w: nat, n: int, t: nat)
    requires w < t <= |D| == |D'| && D'[w] == D[w] + n && forall k :: 0 <= k < t && k != w ==> D'[k] == D[k]
    ensures Val(D', 0, t) == Val(D, 0, t) + Place(n, w)
  {
    ValSplit(D, 0, w + 1, t); ValSplit(D', 0, w + 1, t);
    ValFrame(D, D', w + 1, t); ValFrame(D, D', 0, w);
    PlaceAdd(D[w], n, w);
  }

  /** Carry upward from an oversized digit, growing the number where needed. */
  method CarryOn(x: BigInteger, w0: nat)
    requires 0 <= w0 < x.t <= |x.digits| && 0 <= x.digits[w0] < 2 * DV && x.s == 0
    requires forall k :: 0 <= k < x.t && k != w0 ==> 0 <= x.digits[k] < DV
    requires x.digits[x.t - 1] > 0
    modifies x
    ensures x.Valid() && x.s == 0 && Val(x.digits, 0, x.t) == old(Val(x.digits, 0, x.t))
  {
    var w := w0;
    while x.digits[w] >= DV
      modifies x
      invariant w0 <= w < x.t <= |x.digits| && 0 <= x.digits[w] < 2 * DV && x.s == 0
      invariant forall k :: 0 <= k < x.t && k != w ==> 0 <= x.digits[k] < DV
      invariant x.digits[x.t - 1] > 0 && Val(x.digits, 0, x.t) == old(Val(x.digits, 0, x.t))
      decreases x.t - w + (if x.digits[w] >= DV then 1 else 0), if x.digits[w] >= DV then 1 else 0
    {
      ghost var D := x.digits;
      x.digits := x.digits[w := x.digits[w] - DV];
      w := w + 1;
      if w >= x.t {
        x.Put(x.t, 0);
        x.t := x.t + 1;
        x.digits := x.digits[w := x.digits[w] + 1];
        CarryAppended(D, x.digits, w - 1);
      } else {
        x.digits := x.digits[w := x.digits[w] + 1];
        CarryWithin(D, x.digits, w - 1, x.t);
      }
    }
  }

  // ----- x mod m -----

  /** The reciprocal is long enough for the upper product, the modulus below one length. */
  lemma {:induction false} QuotientAbove(b2: int, m: int, b: int)
    requires 0 < m < b && b2 == b * b
    ensures b2 / m >= b
  {
    DivMod(b2, m);
    var q := b2 / m;
    if q < b {
      MulLe(q + 1, b, m);
      MulLt(m, b, b);
      MulComm(b, m);
      MulDistrib(m, q, 1);
      MulComm(m, q); MulComm(m, q + 1);
    }
  }

  lemma {:induction false} ReciprocalSize(z: Reducer)
    requires z.Barrett? && z.Valid()
    ensures z.m.s == 0 && z.m.t >= 1 && Place(1, z.m.t - 1) <= z.m.Value() < Place(1, z.m.t)
    ensures z.mu.s == 0 && z.mu.t >= z.m.t + 1
    ensures z.m.Value() <= Place(1, 2 * z.m.t)
  {
    var t := z.m.t;
    SignOf(z.m);
    PlaceMono(0, 1, t);
    PlacePlace(1, t, t);
    PlaceMul(Place(1, t), 1, t);
    QuotientAbove(Place(1, 2 * t), z.m.Value(), Place(1, t));
    SignOf(z.mu);
    PlaceGrows(1, t, 2 * t);
    if z.mu.t <= t { PlaceGrows(1, z.mu.t, t); }
  }

  /** What the estimate leaves, computed modulo e: the difference of the residues or e more. */
  lemma {:induction false} ResidueDifference(X: int, p: int, e: int)
    requires e > 0 && 0 <= X - p < e
    ensures X - p == X % e - p % e + (if X % e < p % e then e else 0)
  {
    DivMod(X, e); DivMod(p, e);
    var k := X / e - p / e;
    assert X - p == k * e + (X % e - p % e) by { MulDistrib(e, X / e, p / e); }
    if k >= 2 { MulLe(2, k, e); }
    if k <= -2 { MulLe(k, -2, e); }
    assert k == 1 ==> k * e == e;
    assert k == -1 ==> k * e == -e;
    assert k == 0 ==> k * e == 0;
  }

  /** x mod DV^n by dropping digits. */
  method Truncate(x: BigInteger, n: nat)
    requires x.Valid() && x.s == 0
    modifies x
    ensures x.Valid() && x.s == 0 && Place(1, n) > 0 && x.Value() == old(x.Value()) % Place(1, n)
  {
    PlaceMono(0, 1, n);
    SignOf(x);
    if x.t > n {
      PlaceMono(0, 0, n);
      ValSplit(x.digits, 0, n, x.t);
      ValBound(x.digits, 0, n);
      PlaceMul(Val(x.digits, n, x.t), 1, n);
      DivUnique(x.Value(), Place(1, n), Val(x.digits, n, x.t), Val(x.digits, 0, n));
      x.t := n;
      x.Clamp();
    } else {
      LengthOf(x, n);
      DivUnique(x.Value(), Place(1, n), 0, x.Value());
    }
  }

  /** q3 = the estimated quotient, from the digits above place m.t - 1. */
  method EstimateQuotient(z: Reducer, ghost X: int)
    requires z.Barrett? && z.Valid() && z.r2.Valid() && z.r2.s == 0 && z.r2.t <= z.m.t + 1
    requires 0 <= X < Place(1, 2 * z.m.t) && Place(z.r2.Value(), z.m.t - 1) <= X < Place(z.r2.Value() + 1, z.m.t - 1)
    modifies z.q3
    ensures z.Valid() && z.q3.Valid() && z.q3.s == 0 && z.q3.t <= z.m.t + 1
    ensures 0 <= X - z.q3.Value() * z.m.Value() < Place(1, z.m.t + 1)
  {
    ReciprocalSize(z);
    SignOf(z.r2);
    MultiplyUpperTo(z.mu, z.r2, z.m.t + 1, z.q3);
    SignOf(z.q3);
    BarrettEstimate(X, z.m.Value(), z.m.t, z.mu.Value(), z.r2.Value(), z.q3.Value());
    LengthOf(z.q3, z.m.t + 1);
  }

  /** x = x mod m, for x below DV^(2*m.t). */
  method BarrettReduce(z: Reducer, x: BigInteger)
    requires z.Barrett? && z.Valid() && x.Valid() && x.s == 0 && x.Value() < Place(1, 2 * z.m.t)
    requires x !in z.Fixed() && x !in z.Scratch()
    modifies x, z.Scratch()
    ensures z.Valid() && x.Valid() && x.Value() == old(x.Value()) % z.m.Value()
  {
    ghost var X := x.Value();
    ReciprocalSize(z);
    SignOf(x);
    LengthOf(x, 2 * z.m.t);
    DRShiftTo(x, z.m.t - 1, z.r2);
    Truncate(x, z.m.t + 1);
    EstimateQuotient(z, X);
    MultiplyLowerTo(z.m, z.q3, z.m.t + 1, z.r2);
    ghost var p := z.m.Value() * z.q3.Value();
    MulComm(z.q3.Value(), z.m.Value());
    CongFromMultiple(X, X - p, z.q3.Value(), z.m.Value());
    ResidueDifference(X, p, Place(1, z.m.t + 1));
    TakeDifference(x, z.r2, z.m, X - p);
  }

  /** x - r2, made positive by adding DV^(m.t+1), then reduced by subtracting m. */
  method TakeDifference(x: BigInteger, r2: BigInteger, m: BigInteger, ghost d: int)
    requires x.Valid() && x.s == 0 && r2.Valid() && r2.s == 0 && m.Valid() && m.Value() > 0
    requires x != r2 && x != m && m.t >= 0 && r2.Value() < Place(1, m.t + 1)
    requires 0 <= d == x.Value() - r2.Value() + if x.Value() < r2.Value() then Place(1, m.t + 1) else 0
    modifies x
    ensures x.Valid() && x.Value() == d % m.Value()
  {
    ghost var v := x.Value();
    SignOf(m);
    SignOf(x);
    var cmp := CompareTo(x, r2);
    while cmp < 0
      modifies x
      invariant x.Valid() && x.s == 0
      invariant x.Value() == v || (v < r2.Value() && x.Value() == v + Place(1, m.t + 1))
      invariant cmp < 0 <==> x.Value() < r2.Value()
      decreases r2.Value() - x.Value()
    {
      PlaceMono(0, 1, m.t + 1);
      DAddOffset(x, 1, m.t + 1);
      SignOf(x);
      cmp := CompareTo(x, r2);
    }
    SubTo(x, r2, x);
    SubtractMultiples(x, m);
  }

  /** while(x >= m) x -= m */
  method SubtractMultiples(x: BigInteger, m: BigInteger)
    requires x.Valid() && x.Value() >= 0 && m.Valid() && m.Value() > 0 && x != m
    modifies x
    ensures x.Valid() && x.Value() == old(x.Value()) % m.Value()
  {
    ghost var d, M := x.Value(), m.Value();
    SignOf(m);
    SignOf(x);
    var cmp := CompareTo(x, m);
    while cmp >= 0
      modifies x
      invariant x.Valid() && x.s == 0 && Cong(x.Value(), d, M)
      invariant cmp >= 0 <==> x.Value() >= M
      decreases x.Value()
    {
      CongFromMultiple(x.Value() - M, x.Value(), -1, M);
      SubTo(x, m, x);
      SignOf(x);
      cmp := CompareTo(x, m);
    }
    SignOf(x);
    CongUnique(x.Value(), d, M);
  }

  /** The weights as numbers, for the bounds on the estimate. */
  lemma {:induction false} Weights(X: int, Q: int, q: int, p: int, t: nat)
    requires t >= 1
    requires Place(Q, t - 1) <= X < Place(Q + 1, t - 1)
    requires Place(q, t + 1) <= p < Place(q + t + 1, t + 1)
    ensures 0 < Place(1, t - 1) && 0 < Place(1, t + 1) && Place(1, t + 1) * Place(1, t - 1) == Place(1, 2 * t)
    ensures Q * Place(1, t - 1) <= X < (Q + 1) * Place(1, t - 1)
    ensures q * Place(1, t + 1) <= p < (q + (t + 1)) * Place(1, t + 1)
  {
    PlaceMono(0, 1, t - 1); PlaceMono(0, 1, t + 1);
    PlaceMul(Q, 1, t - 1); PlaceMul(Q + 1, 1, t - 1);
    PlaceMul(q, 1, t + 1); PlaceMul(q + t + 1, 1, t + 1);
    PlaceProduct(1, t + 1, 1, t - 1);
  }

  lemma {:induction false} EstimateBelow(X: int, M: int, q: int, b1: int, b2: int, e: int)
    requires q * M <= X < b2 && 0 < b1 <= M && e * b1 == b2 && 0 < e
    ensures q < e
  {
    if q >= e {
      MulLe(e, q, b1);
      MulLe(b1, M, q);
      MulComm(b1, q); MulComm(M, q);
    }
  }

  lemma {:induction false} EstimateGap(X: int, M: int, q: int, n: int, p: int)
    requires X < (q + n + 2) * M && 0 < M < p && n + 2 <= DV
    ensures X - q * M < DV * p
  {
    assert (q + n + 2) * M == q * M + (n + 2) * M;
    MulLe(n + 2, DV, M);
  }

  /** All the bounds in terms of digit counts. */
  lemma {:induction false} BarrettEstimate(X: int, M: int, t: nat, mu: int, Q: int, q: int)
    requires t >= 1 && Place(1, t - 1) <= M < Place(1, t) && M <= Place(1, 2 * t) && t + 3 <= DV
    requires 0 <= X < Place(1, 2 * t) && mu == Place(1, 2 * t) / M && Q >= 0 && q >= 0
    requires Place(Q, t - 1) <= X < Place(Q + 1, t - 1)
    requires Place(q, t + 1) <= mu * Q < Place(q + t + 1, t + 1)
    ensures 0 <= X - q * M < Place(1, t + 1)
    ensures q < Place(1, t + 1)
  {
    var b1, b2, e := Place(1, t - 1), Place(1, 2 * t), Place(1, t + 1);
    Weights(X, Q, q, mu * Q, t);
    EstimateLow(X, M, mu, Q, q, b1, b2, e, t + 1);
    EstimateHigh(X, M, mu, Q, q, b1, b2, e, t + 1);
    EstimateGap(X, M, q, t + 1, Place(1, t));
    EstimateBelow(X, M, q, b1, b2, e);
  }
}
