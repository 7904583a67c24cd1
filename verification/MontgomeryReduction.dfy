/** Montgomery reduction: division by a power of the base modulo an odd number. */
module MontgomeryReduction {
  import opened Numbers
  import opened Digits
  import opened BigIntegers
  import opened AddSub
  import opened Compare
  import opened Shifts
  import opened Multiply
  import opened Reducer

  // ----- The inverse of the lowest digit -----

  /** One Newton step squares the modulus: if x*y = 1 mod n then x * y*(2 - x*y) = 1 mod n*n. */
  lemma Newton(x: int, y: int, n: int)
    requires n > 0 && Cong(x * y, 1, n)
    ensures n * n > 0 && Cong(x * (y * (2 - x * y)), 1, n * n)
  {
    MulPos(n, n);
    var k := CongMultiple(x * y, 1, n);
    var d := k * n;
    assert x * (y * (2 - x * y)) == (x * y) * (2 - x * y) by { MulAssoc(x, y, 2 - x * y); }
    assert (1 + d) * (2 - (1 + d)) == 1 - d * d;
    assert d * d == (k * k) * (n * n) by {
      MulAssoc(k, n, k * n); MulAssoc(n, k, n); MulAssoc(k, k, n * n); MulAssoc(k, n, n);
    }
    CongFromMultiple(x * (y * (2 - x * y)), 1, -(k * k), n * n);
  }

  /** The step on numbers already reduced modulo n*n. */
  lemma NewtonReduced(x: int, y: int, n: int, z: int, y': int)
    requires n > 0 && n * n > 0 && Cong(x * y, 1, n)
    requires Cong(z, x * y, n * n) && Cong(y', y * (2 - z), n * n)
    ensures Cong(x * y', 1, n * n)
  {
    Newton(x, y, n);
    CongAdd(2, 2, z, x * y, n * n);
    CongMul(y, y, 2 - z, 2 - x * y, n * n);
    CongMul(x, x, y', y * (2 - x * y), n * n);
  }

  lemma OddSquare(x: int)
    requires x % 2 == 1
    ensures Cong(x * (x % 4), 1, 4)
  {
    var k := x / 4;
    if x % 4 == 1 {
      assert x * 1 == 1 + k * 4;
      CongFromMultiple(x * 1, 1, k, 4);
    } else {
      assert x * 3 == 1 + (3 * k + 2) * 4;
      CongFromMultiple(x * 3, 1, 3 * k + 2, 4);
    }
  }

  lemma ReducedProduct(x: int, y: int, n: int)
    requires n > 0
    ensures Cong((x % n) * y, x * y, n)
  {
    CongSelf(x, n);
    CongMul(x % n, x, y, y, n);
  }

  /** JavaScript's remainder takes the sign of the dividend. */
  function JsRemainder(x: int, m: int): int
    requires m > 0
  {
    if x < 0 then -((-x) % m) else x % m
  }

  lemma JsRemainderCong(x: int, m: int)
    requires m > 0
    ensures Cong(JsRemainder(x, m), x, m) && -m < JsRemainder(x, m) < m
  {
    if x < 0 {
      CongSelf(-x, m);
      CongAdd(0, 0, (-x) % m, -x, m);
      DivMod(-x, m);
    } else {
      CongSelf(x, m);
      DivMod(x, m);
    }
  }

  /** -1/x mod 2^28 for the lowest digit x of an odd number; 0 otherwise. */
  method InvDigit(m: BigInteger) returns (r: int)
    requires m.Wf()
    ensures m.t < 1 || m.digits[0] % 2 == 0 ==> r == 0
    ensures m.t >= 1 && m.digits[0] % 2 == 1 ==> 0 < r < DV && (m.digits[0] * r + 1) % DV == 0
  {
    if m.t < 1 { return 0; }
    var x := m.digits[0];
    if x % 2 == 0 { return 0; }
    var y := Mask(x, 4);
    OddSquare(x);
    y := NewtonStep(x, y, 4, 0x10);
    y := NewtonStep(x, y, 0x10, 0x100);
    y := NewtonStep16(x, y);
    y := LastNewtonStep(x, y);
    r := if y > 0 then DV - y else -y;
    MinusInverse(x, y, r);
  }

  lemma SmallProduct(a: int, b: int, n: int, m: int)
    requires 0 <= a < n && 0 <= b < m
    ensures 0 <= a * b <= (n - 1) * (m - 1)
  {
    MulNonNeg(a, b);
    MulLe(a, n - 1, b);
    MulLe(b, m - 1, n - 1);
    MulComm(b, n - 1);
  }

  /** y = (y * (2 - (x & (n2-1)) * y)) & (n2-1) for n2 = n*n. */
  method NewtonStep(x: int, y: int, n: int, n2: int) returns (y': int)
    requires 0 <= x < DV && 0 <= y < n && ((n == 4 && n2 == 0x10) || (n == 0x10 && n2 == 0x100)) && Cong(x * y, 1, n)
    ensures 0 <= y' < n2 && Cong(x * y', 1, n2)
  {
    SmallProduct(Mask(x, n2), y, n2, n);
    var z := Mask(x, n2) * y;
    SmallProduct(y, z, n, 0x1000);
    MulDistrib(y, 2, z);
    ReducedProduct(x, y, n2);
    y' := Mask(y * (2 - z), n2);
    CongSelf(y * (2 - z), n2);
    NewtonReduced(x, y, n, z, y');
  }

  /** The step to 16 bits, where the inner product is masked too. */
  method NewtonStep16(x: int, y: int) returns (y': int)
    requires 0 <= x < DV && 0 <= y < 0x100 && Cong(x * y, 1, 0x100)
    ensures 0 <= y' < 0x1_0000 && Cong(x * y', 1, 0x1_0000)
  {
    SmallProduct(Mask(x, 0x1_0000), y, 0x1_0000, 0x100);
    var w := Mask(x, 0x1_0000) * y;
    var z := Mask(w, 0x1_0000);
    SmallProduct(y, z, 0x100, 0x1_0000);
    MulDistrib(y, 2, z);
    ReducedProduct(x, y, 0x1_0000);
    CongSelf(w, 0x1_0000);
    y' := Mask(y * (2 - z), 0x1_0000);
    CongSelf(y * (2 - z), 0x1_0000);
    NewtonReduced(x, y, 0x100, z, y');
  }

  /** The last step, modulo 2^28 at once. */
  method LastNewtonStep(x: int, y: int) returns (y': int)
    requires 0 < x < DV && 0 <= y < 0x1_0000 && Cong(x * y, 1, 0x1_0000)
    ensures -DV < y' < DV && Cong(x * y', 1, DV)
  {
    SmallProduct(x, y, DV, 0x1_0000);
    assert Exact(x * y);
    var z := JsRemainder(x * y, DV);
    JsRemainderCong(x * y, DV);
    SmallProduct(y, z, 0x1_0000, DV);
    MulDistrib(y, 2, z);
    assert Exact(y * (2 - z));
    y' := JsRemainder(y * (2 - z), DV);
    JsRemainderCong(y * (2 - z), DV);
    NewtonLast(x, y, z, y');
  }

  lemma NewtonLast(x: int, y: int, z: int, y': int)
    requires Cong(x * y, 1, 0x1_0000) && Cong(z, x * y, DV) && Cong(y', y * (2 - z), DV)
    ensures Cong(x * y', 1, DV)
  {
    Newton(x, y, 0x1_0000);
    CongDivisor(x * (y * (2 - x * y)), 1, DV, 0x1_0000_0000, 16);
    CongAdd(2, 2, z, x * y, DV);
    CongMul(y, y, 2 - z, 2 - x * y, DV);
    CongMul(x, x, y', y * (2 - x * y), DV);
  }

  /** Congruent modulo a multiple of m, congruent modulo m. */
  lemma CongDivisor(a: int, b: int, m: int, n: int, k: int)
    requires m > 0 && n > 0 && n == k * m && Cong(a, b, n)
    ensures Cong(a, b, m)
  {
    var l := CongMultiple(a, b, n);
    MulAssoc(l, k, m);
    CongFromMultiple(a, b, l * k, m);
  }

  lemma MinusInverse(x: int, y: int, r: int)
    requires Cong(x * y, 1, DV) && -DV < y < DV && r == if y > 0 then DV - y else -y
    ensures 0 < r < DV && (x * r + 1) % DV == 0
  {
    MulComm(x, y);
    assert y == 0 ==> x * y == 0;
    var k := CongMultiple(x * y, 1, DV);
    if y > 0 {
      MulDistrib(x, DV, y);
      DivUnique(x * r + 1, DV, x - k, 0);
    } else {
      assert x * (-y) == -(x * y);
      DivUnique(x * r + 1, DV, -k, 0);
    }
  }

  // ----- Reduction -----

  /** The multiple of m that clears digit d: d * mp modulo the base, from 15-bit halves. */
  function ClearingDigit(d: int, mpl: int, mph: int): int
    requires 0 <= d < DV && 0 <= mpl < 0x8000 && 0 <= mph < 0x2000
  {
    var j, h := d % 0x8000, d / 0x8000;
    HalfWords(j, h, mpl, mph);
    LowDigit(j * mpl + Mask(j * mph + h * mpl, 0x2000) * 0x8000)
  }

  lemma HalfWords(j: int, h: int, mpl: int, mph: int)
    requires 0 <= j < 0x8000 && 0 <= h < 0x2000 && 0 <= mpl < 0x8000 && 0 <= mph < 0x2000
    ensures Int32(j * mph + h * mpl)
    ensures Int32(j * mpl + Mask(j * mph + h * mpl, 0x2000) * 0x8000)
  {
    SmallProduct(j, mph, 0x8000, 0x2000);
    SmallProduct(h, mpl, 0x2000, 0x8000);
    SmallProduct(j, mpl, 0x8000, 0x8000);
  }

  lemma ClearingProduct(d: int, mp: int)
    requires 0 <= d < DV && 0 <= mp < DV
    ensures 0 <= ClearingDigit(d, mp % 0x8000, mp / 0x8000) < DV
    ensures Cong(ClearingDigit(d, mp % 0x8000, mp / 0x8000), d * mp, DV)
  {
    var j, h, mpl, mph := d % 0x8000, d / 0x8000, mp % 0x8000, mp / 0x8000;
    HalfWords(j, h, mpl, mph);
    var s := j * mph + h * mpl;
    var u := j * mpl + (s % 0x2000) * 0x8000;
    HalvesProduct(j, h, mpl, mph);
    assert d * mp == u + (s / 0x2000 + 4 * (h * mph)) * DV;
    CongFromMultiple(d * mp, u, s / 0x2000 + 4 * (h * mph), DV);
    CongSelf(u, DV);
  }

  lemma HalvesProduct(j: int, h: int, l: int, m: int)
    ensures (j + 0x8000 * h) * (l + 0x8000 * m) == j * l + 0x8000 * (j * m + h * l) + 0x4000_0000 * (h * m)
  {}

  /** Adding the clearing multiple makes the digit vanish. */
  lemma DigitClears(d: int, m0: int, mp: int, u: int, d': int, a: int, b: int)
    requires (m0 * mp + 1) % DV == 0 && Cong(u, d * mp, DV)
    requires 0 <= d' < DV && d' + DV * a == d + u * m0 + DV * b
    ensures d' == 0
  {
    var k := (m0 * mp + 1) / DV;
    DivMod(m0 * mp + 1, DV);
    var l := CongMultiple(u, d * mp, DV);
    calc {
      u * m0;
      { assert u == d * mp + l * DV; }
      (d * mp + l * DV) * m0;
      (d * mp) * m0 + l * DV * m0;
      { MulAssoc(d, mp, m0); MulComm(mp, m0); }
      d * (m0 * mp) + DV * (l * m0);
      { MulDistrib(d, k * DV, 1); }
      d * (k * DV) - d + DV * (l * m0);
    }
    assert d * (k * DV) == DV * (d * k);
    DivUnique(d', DV, d * k + l * m0 + b - a, 0);
  }

  /** Carry upward from an oversized digit j; the total is below DV^n. */
  method Propagate(x: BigInteger, j0: nat, n: nat)
    requires j0 < n <= |x.digits| && 0 <= x.digits[j0] < 2 * DV
    requires forall k :: 0 <= k < n && k != j0 ==> 0 <= x.digits[k] < DV
    requires Val(x.digits, 0, n) < Place(1, n)
    modifies x`digits
    ensures AreDigits(x.digits, 0, n) && Val(x.digits, 0, n) == old(Val(x.digits, 0, n))
    ensures |x.digits| == |old(x.digits)|
    ensures forall k :: 0 <= k < j0 ==> x.digits[k] == old(x.digits)[k]
  {
    var j := j0;
    ghost var v := Val(x.digits, 0, n);
    while x.digits[j] >= DV
      modifies x`digits
      invariant j0 <= j < n && |x.digits| == |old(x.digits)| && 0 <= x.digits[j] < 2 * DV
      invariant forall k :: 0 <= k < n && k != j ==> 0 <= x.digits[k] < DV
      invariant Val(x.digits, 0, n) == v
      invariant forall k :: 0 <= k < j0 ==> x.digits[k] == old(x.digits)[k]
      decreases n - j
    {
      ghost var D := x.digits;
      RoomAbove(D, j, n);
      x.digits := x.digits[j := x.digits[j] - DV];
      j := j + 1;
      x.digits := x.digits[j := x.digits[j] + 1];
      CarryWithin(D, x.digits, j - 1, n);
    }
  }

  lemma RoomAbove(D: seq<int>, j: nat, n: nat)
    requires j < n <= |D| && D[j] >= DV && Val(D, 0, n) < Place(1, n)
    requires forall k :: 0 <= k < n && k != j ==> 0 <= D[k] < DV
    ensures j + 1 < n
  {
    if j + 1 == n {
      ValBound(D, 0, j);
      PlaceMono(DV, D[j], j);
      PlaceMul(DV, 1, j);
    }
  }

  /** After i steps: a multiple of m below m * DV^i has been added, and i digits are clear. */
  ghost predicate Clearing(D: seq<int>, i: nat, n: nat, X: int, M: int, U: int) {
    && i <= n && AreDigits(D, 0, n) && (forall k :: 0 <= k < i ==> D[k] == 0)
    && Val(D, 0, n) == X + U * M && 0 <= U < Place(1, i)
  }

  lemma ClearingBound(X: int, M: int, U: int, i: nat, t: nat)
    requires 0 <= X < Place(M, t) && 0 < M < Place(1, t) && U < Place(1, i) && i <= t
    ensures X + U * M < Place(1, 2 * t + 1)
    ensures U * M < Place(M, t)
  {
    PlaceGrows(1, i, t);
    MulLt(U, Place(1, t), M);
    PlaceMul(M, 1, t);
    MulComm(M, Place(1, t));
    PlaceMono(M, Place(1, t), t);
    PlacePlace(1, t, t);
    PlaceMono(0, 1, 2 * t);
  }

  /** What a multiply-and-add with its carry adds to the digits up to the carry. */
  lemma {:induction false} AmPart(D: seq<int>, D2: seq<int>, i: nat, t: nat, c: int, w: int)
    requires i + t < |D| && i + t < |D2| && D2[i + t] == D[i + t] + c
    requires forall k :: 0 <= k < i ==> D2[k] == D[k]
    requires Val(D2, i, i + t) + Place(c, t) == Val(D, i, i + t) + w
    ensures Val(D2, 0, i + t + 1) == Val(D, 0, i + t + 1) + Place(w, i)
  {
    var j := i + t;
    ValFrame(D, D2, 0, i);
    ValSplit(D, 0, i, j); ValSplit(D2, 0, i, j);
    PlaceAdd(D[j], c, j);
    PlaceAdd(Val(D2, i, j), Place(c, t), i);
    PlaceAdd(Val(D, i, j), w, i);
    PlacePlace(c, t, i);
  }

  /** The same for the whole number. */
  lemma {:induction false} AmTotal(D: seq<int>, D1: seq<int>, D2: seq<int>, i: nat, t: nat, n: nat, c: int, w: int)
    requires i + t < n <= |D| && n <= |D1| == |D2|
    requires forall k :: 0 <= k < n && !(i <= k < i + t) ==> D1[k] == D[k]
    requires forall k :: 0 <= k < n && k != i + t ==> D2[k] == D1[k]
    requires D2[i + t] == D[i + t] + c
    requires Val(D1, i, i + t) + Place(c, t) == Val(D, i, i + t) + w
    ensures Val(D2, 0, n) == Val(D, 0, n) + Place(w, i)
  {
    ValFrame(D1, D2, i, i + t);
    AmPart(D, D2, i, t, c, w);
    ValFrame(D, D2, i + t + 1, n);
    ValSplit(D, 0, i + t + 1, n);
    ValSplit(D2, 0, i + t + 1, n);
  }

  lemma LowOfProduct(d: int, dh: int, d': int, dh': int, u: int, m0: int, mh: int, c: int, mp: int)
    requires (m0 * mp + 1) % DV == 0 && Cong(u, d * mp, DV) && 0 <= d' < DV
    requires d' + DV * dh' + DV * c == d + DV * dh + u * (m0 + DV * mh)
    ensures d' == 0
  {
    MulDistrib(u, m0, DV * mh);
    assert u * (DV * mh) == DV * (u * mh);
    DigitClears(d, m0, mp, u, d', dh' + c, dh + u * mh);
  }

  /** The digit at i after adding u times m there. */
  lemma {:induction false} LowDigitClears(D: seq<int>, D1: seq<int>, i: nat, m: seq<int>, t: nat, u: int, c: int,
                                          mp: int)
    requires t >= 1 && i + t <= |D| && AreDigits(D1, i, i + t) && t <= |m| && AreDigits(D, i, i + t)
    requires (m[0] * mp + 1) % DV == 0 && Cong(u, D[i] * mp, DV)
    requires Val(D1, i, i + t) + Place(c, t) == Val(D, i, i + t) + u * Val(m, 0, t)
    ensures D1[i] == 0
  {
    ValLow(D, i, i + t); ValLow(D1, i, i + t); ValLow(m, 0, t);
    LowOfProduct(D[i], Val(D, i + 1, i + t), D1[i], Val(D1, i + 1, i + t), u, m[0], Val(m, 1, t), Place(c, t - 1), mp);
  }

  /** Add a multiple of m at place i: digit i is clear then, and digit i + m.t holds the carry, oversized perhaps. */
  method AddMultiple(z: Reducer, x: BigInteger, i: nat, n: nat) returns (ghost u: int)
    requires z.Montgomery? && z.Valid() && x != z.m && i < z.m.t && n == 2 * z.m.t + 1
    requires n <= |x.digits| && AreDigits(x.digits, 0, n)
    modifies x`digits
    ensures |x.digits| == |old(x.digits)| && 0 <= u < DV && x.digits[i] == 0 && 0 <= x.digits[i + z.m.t] < 2 * DV
    ensures forall k :: 0 <= k < n && k != i + z.m.t ==> 0 <= x.digits[k] < DV
    ensures forall k :: 0 <= k < i ==> x.digits[k] == old(x.digits)[k]
    ensures Val(x.digits, 0, n) == old(Val(x.digits, 0, n)) + Place(u * z.m.Value(), i)
  {
    ghost var D, t := x.digits, z.m.t;
    SignOf(z.m);
    ClearingProduct(x.digits[i], z.mp);
    var u0 := ClearingDigit(x.digits[i], z.mpl, z.mph);
    u := u0;
    var c := Am3(z.m, 0, u0, x, i, 0, z.m.t);
    ghost var D1 := x.digits;
    LowDigitClears(D, D1, i, z.m.digits, t, u0, c, z.mp);
    ValBound(D, i, i + t); ValBound(D1, i, i + t);
    CarryIsDigit(Val(D1, i, i + t), c, Val(D, i, i + t), u0, z.m.Value(), t);
    var j := i + z.m.t;
    x.digits := x.digits[j := x.digits[j] + c];
    AmTotal(D, D1, x.digits, i, t, n, c, u0 * z.m.Value());
  }

  /** One step: a multiple of m at place i clears digit i. */
  method ClearDigit(z: Reducer, x: BigInteger, i: nat, n: nat, ghost X: int, ghost U: int) returns (ghost U': int)
    requires z.Montgomery? && z.Valid() && x != z.m && i < z.m.t && n == 2 * z.m.t + 1
    requires 0 <= X < Place(z.m.Value(), z.m.t) && Clearing(x.digits, i, n, X, z.m.Value(), U)
    modifies x`digits
    ensures Clearing(x.digits, i + 1, n, X, z.m.Value(), U')
  {
    ghost var M := z.m.Value();
    SignOf(z.m);
    ghost var u := AddMultiple(z, x, i, n);
    U' := U + Place(u, i);
    NextMultiple(X, M, U, u, i);
    ClearingBound(X, M, U', i + 1, z.m.t);
    Propagate(x, i + z.m.t, n);
  }

  lemma NextMultiple(X: int, M: int, U: int, u: int, i: nat)
    requires 0 <= U < Place(1, i) && 0 <= u < DV
    ensures X + U * M + Place(u * M, i) == X + (U + Place(u, i)) * M
    ensures 0 <= U + Place(u, i) < Place(1, i + 1)
  {
    MulComm(u, M);
    PlaceMul(M, u, i);
    MulComm(M, Place(u, i));
    assert (U + Place(u, i)) * M == U * M + Place(u, i) * M;
    PlaceMono(0, u, i);
    PlaceMono(u, DM, i);
    PlaceAdd(DM, 1, i);
    PlaceMul(DV, 1, i);
  }

  /** Pad x so that am has enough room later. */
  method Pad(x: BigInteger, n: nat)
    requires x.Wf() && x.s == 0 && x.t <= n
    modifies x
    ensures x.Wf() && x.s == 0 && x.t == n && Val(x.digits, 0, n) == old(Val(x.digits, 0, x.t))
  {
    ghost var v := Val(x.digits, 0, x.t);
    while x.t < n
      modifies x
      invariant x.Wf() && x.s == 0 && x.t <= n && Val(x.digits, 0, x.t) == v
      decreases n - x.t
    {
      ghost var d := x.digits;
      PlaceMono(0, 0, x.t);
      x.Put(x.t, 0);
      ValFrame(d, x.digits, 0, x.t);
      x.t := x.t + 1;
    }
  }

  /** With the low digits clear the number is a multiple of R, and below 2 * m * R. */
  lemma ClearedValue(D: seq<int>, t: nat, n: nat, X: int, M: int, U: int)
    requires t <= n && Clearing(D, t, n, X, M, U) && 0 <= X < Place(M, t) && 0 < M < Place(1, t)
    ensures Val(D, 0, n) == Place(Val(D, t, n), t)
    ensures 0 <= Val(D, t, n) < 2 * M
  {
    ValSplit(D, 0, t, n);
    ValZero(D, 0, t);
    ValBound(D, t, n);
    ClearingBound(X, M, U, t, t);
    PlaceAdd(M, M, t);
    PlaceMono(Val(D, t, n), 2 * M, t);
  }

  /** x = x/R mod m, R = DV^m.t: the number below m that times R is congruent to x. */
  method MontReduce(z: Reducer, x: BigInteger)
    requires z.Montgomery? && z.Valid() && x.Valid() && x.s == 0 && x != z.m
    requires x.Value() < Place(z.m.Value(), z.m.t)
    modifies x
    ensures x.Valid() && 0 <= x.Value() < z.m.Value()
    ensures Cong(Place(x.Value(), z.m.t), old(x.Value()), z.m.Value())
  {
    ghost var X, M, t := x.Value(), z.m.Value(), z.m.t;
    SignOf(z.m);
    SignOf(x);
    PlaceMono(M, Place(1, t), t);
    PlacePlace(1, t, t);
    LengthOf(x, 2 * t);
    var n := z.mt2 + 1;
    Pad(x, n);
    ghost var U := 0;
    assert 0 * M == 0;
    var i := 0;
    while i < z.m.t
      modifies x`digits
      invariant 0 <= i <= t && Clearing(x.digits, i, n, X, M, U)
    {
      U := ClearDigit(z, x, i, n, X, U);
      i := i + 1;
    }
    ClearedValue(x.digits, t, n, X, M, U);
    PlaceMono(0, 0, n);
    LowerByR(z, x, n, X, U);
  }

  /** Drop the clear digits, then subtract m once if need be. */
  method LowerByR(z: Reducer, x: BigInteger, n: nat, ghost X: int, ghost U: int)
    requires z.m.Valid() && z.m.t >= 0 && z.m.Value() > 0 && x != z.m && x.Wf() && x.s == 0 && x.t == n >= z.m.t
    requires Val(x.digits, 0, n) == Place(Val(x.digits, z.m.t, n), z.m.t) == X + U * z.m.Value()
    requires 0 <= Val(x.digits, z.m.t, n) < 2 * z.m.Value()
    modifies x
    ensures x.Valid() && 0 <= x.Value() < z.m.Value()
    ensures Cong(Place(x.Value(), z.m.t), X, z.m.Value())
  {
    ghost var h, M, t := Val(x.digits, z.m.t, n), z.m.Value(), z.m.t;
    PlaceMono(0, 0, n);
    x.Clamp();
    DRShiftTo(x, z.m.t, x);
    if x.Value() < h { PlaceMono(x.Value() + 1, h, t); }
    if h < x.Value() { PlaceMono(h, x.Value(), t); }
    CongFromMultiple(X + U * M, X, U, M);
    SignOf(z.m);
    var cmp := CompareTo(x, z.m);
    if cmp >= 0 {
      SubTo(x, z.m, x);
      OneLess(h, M, t);
      CongAdd(Place(h, t), X, 0, 0, M);
    }
  }

  /** Subtracting m keeps the residue. */
  lemma OneLess(h: int, M: int, t: nat)
    requires M > 0
    ensures Cong(Place(h - M, t), Place(h, t), M)
  {
    PlaceAdd(h, M, t);
    PlaceMul(M, 1, t);
    MulComm(M, Place(1, t));
    CongFromMultiple(Place(h - M, t), Place(h, t), -Place(1, t), M);
  }

  // ----- Why the reduced number is the only one -----

  lemma OddProduct(k: int, m: int)
    requires k % 2 == 1 && m % 2 == 1
    ensures k * m % 2 == 1
  {
    var h, l := k / 2, m / 2;
    assert (2 * h + 1) * (2 * l + 1) == 2 * (2 * (h * l) + h + l) + 1;
  }

  /** An odd modulus lets factors of two be cancelled. */
  lemma {:induction false} CancelTwo(d: int, m: int)
    requires m > 0 && m % 2 == 1 && (2 * d) % m == 0
    ensures d % m == 0
  {
    var k := (2 * d) / m;
    DivMod(2 * d, m);
    if k % 2 == 1 { OddProduct(k, m); }
    MulAssoc(2, k / 2, m);
    DivUnique(d, m, k / 2, 0);
  }

  lemma CancelShift(d: int, n: nat, m: int)
    requires m > 0 && m % 2 == 1 && Shift(d, n) % m == 0
    ensures d % m == 0
  {
    if n > 0 {
      CancelTwo(Shift(d, n - 1), m);
      CancelShift(d, n - 1, m);
    }
  }

  /** R is invertible modulo an odd m. */
  lemma CancelPlace(a: int, b: int, n: nat, m: int)
    requires m > 0 && m % 2 == 1 && Cong(Place(a, n), Place(b, n), m)
    ensures Cong(a, b, m)
  {
    PlaceAdd(a, b, n);
    CongAdd(Place(a, n), Place(b, n), Place(b, n), Place(b, n), m);
    PlaceShift(a - b, n);
    DivUnique(0, m, 0, 0);
    CancelShift(a - b, 28 * n, m);
    CongAdd(a - b, 0, b, b, m);
  }

  /** The result of montReduce is determined by its contract. */
  lemma ReducedUnique(a: int, b: int, n: nat, x: int, m: int)
    requires m > 0 && m % 2 == 1 && 0 <= a < m && 0 <= b < m
    requires Cong(Place(a, n), x, m) && Cong(Place(b, n), x, m)
    ensures a == b
  {
    CancelPlace(a, b, n, m);
    CongRange(a, b, m);
  }
}
