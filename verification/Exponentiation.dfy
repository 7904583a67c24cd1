/** Powers modulo m: the reducers' common interface, square-and-multiply and sliding windows. */
module Exponentiation {
  import opened Numbers
  import opened Digits
  import opened BigIntegers
  import opened AddSub
  import opened Compare
  import opened Shifts
  import opened Multiply
  import opened Division
  import opened Reducer
  import opened MontgomeryReduction
  import opened BarrettReduction
  import opened Windows

  // ----- Constructors -----

  method NewClassic(m: BigInteger) returns (z: Reducer)
    requires m.Valid() && m.Value() > 0
    ensures z.Classic? && z.m == m && z.Valid()
  {
    z := Classic(m);
  }

  method NewMontgomery(m: BigInteger) returns (z: Reducer)
    requires m.Valid() && m.Value() > 0 && m.Value() % 2 == 1
    ensures z.Montgomery? && z.m == m && z.Valid()
  {
    SignOf(m);
    ValLow(m.digits, 0, m.t);
    OddLow(m.digits[0], Val(m.digits, 1, m.t));
    var mp := InvDigit(m);
    z := Montgomery(m, mp, mp % 0x8000, mp / 0x8000, 0x1fff, 2 * m.t);
  }

  lemma OddLow(d: int, h: int)
    requires (d + DV * h) % 2 == 1
    ensures d % 2 == 1
  {
    CongFromMultiple(d + DV * h, d, 0x800_0000 * h, 2);
  }

  method NewBarrett(m: BigInteger) returns (z: Reducer)
    requires m.Valid() && m.Value() > 0 && m.t + 3 <= DV
    ensures z.Barrett? && z.m == m && z.Valid() && fresh(z.Scratch()) && fresh(z.mu)
  {
    SignOf(m);
    var r2 := new BigInteger();
    var q3 := new BigInteger();
    var mu := new BigInteger();
    var one := Nbv(1);
    SignOf(one);
    LengthOf(one, 0);
    DLShiftTo(one, 2 * m.t, r2);
    DivRemTo(r2, m, mu, null);
    PlaceMono(0, 1, 2 * m.t);
    z := Barrett(m, r2, q3, mu);
  }

  // ----- Products and squares of residues -----

  /** The product of two residues, reduced, stands for the product. */
  lemma {:induction false} RepProduct(v: int, a: int, w: int, b: int, u: int, M: int, t: nat)
    requires M > 0 && M % 2 == 1
    requires Cong(v, Place(a, t), M) && Cong(w, Place(b, t), M) && Cong(Place(u, t), v * w, M)
    ensures Cong(u, Place(a * b, t), M)
  {
    CongMul(v, Place(a, t), w, Place(b, t), M);
    PlaceProduct(a, t, b, t);
    PlacePlace(a * b, t, t);
    CancelPlace(u, Place(a * b, t), t, M);
  }

  lemma {:induction false} ProductSize(v: int, w: int, M: int, t: nat)
    requires 0 <= v < M && 0 <= w < M && M < Place(1, t)
    ensures 0 <= v * w < Place(M, t) && v * w < Place(1, 2 * t)
  {
    SmallProduct(v, w, M, M);
    MulLe(M - 1, M, M - 1);
    MulLt(M - 1, M, M);
    MulLe(M, Place(1, t), M);
    PlaceMul(M, 1, t);
    MulComm(M, Place(1, t));
    PlaceMono(M, Place(1, t), t);
    PlacePlace(1, t, t);
  }

  /** x becomes the reduced form of x, a product of residues. */
  method Reduce(z: Reducer, x: BigInteger)
    requires z.Valid() && x.Valid() && x.s == 0 && x !in z.Fixed() && x !in z.Scratch()
    requires x.Value() < Place(z.m.Value(), z.m.t) && x.Value() < Place(1, 2 * z.m.t)
    modifies x, z.Scratch()
    ensures z.Valid() && x.Valid() && 0 <= x.Value() < z.m.Value()
    ensures z.Montgomery? ==> Cong(Place(x.Value(), z.m.t), old(x.Value()), z.m.Value())
    ensures !z.Montgomery? ==> Cong(x.Value(), old(x.Value()), z.m.Value())
  {
    SignOf(x);
    ghost var X := x.Value();
    CongSelf(X, z.m.Value());
    match z {
      case Classic(m) => DivRemTo(x, m, null, x);
      case Montgomery(_, _, _, _, _, _) => MontReduce(z, x);
      case Barrett(_, _, _, _) => BarrettReduce(z, x);
    }
  }

  /** r = x * y reduced; r neither x nor y. */
  method MulTo(z: Reducer, x: BigInteger, y: BigInteger, r: BigInteger, ghost a: int, ghost b: int)
    requires z.Valid() && x.Valid() && y.Valid() && z.Rep(x.Value(), a) && z.Rep(y.Value(), b)
    requires r != x && r != y && r !in z.Fixed() && r !in z.Scratch()
    modifies r, z.Scratch()
    ensures z.Valid() && r.Valid() && z.Rep(r.Value(), a * b)
  {
    SignOf(z.m);
    ghost var v, w, M, t := x.Value(), y.Value(), z.m.Value(), z.m.t;
    ProductSize(v, w, M, t);
    MultiplyTo(x, y, r);
    SignOf(r);
    Reduce(z, r);
    if z.Montgomery? { RepProduct(v, a, w, b, r.Value(), M, t); } else { CongMul(v, a, w, b, M); }
  }

  /** r = x^2 reduced; r not x. */
  method SqrTo(z: Reducer, x: BigInteger, r: BigInteger, ghost a: int)
    requires z.Valid() && x.Valid() && z.Rep(x.Value(), a)
    requires r != x && r !in z.Fixed() && r !in z.Scratch()
    modifies r, z.Scratch()
    ensures z.Valid() && r.Valid() && z.Rep(r.Value(), a * a)
  {
    SignOf(z.m);
    ghost var v, M, t := x.Value(), z.m.Value(), z.m.t;
    ProductSize(v, v, M, t);
    SquareTo(x, r);
    SignOf(r);
    Reduce(z, r);
    if z.Montgomery? { RepProduct(v, a, v, a, r.Value(), M, t); } else { CongMul(v, a, v, a, M); }
  }

  // ----- Into and out of residues -----

  lemma {:induction false} NegativeResidue(p: int, M: int)
    requires M > 0
    ensures Cong(if p % M > 0 then M - p % M else 0, -p, M)
  {
    DivMod(p, M);
    var q := p / M;
    if p % M > 0 {
      assert (q + 1) * M == q * M + M;
      CongFromMultiple(M - p % M, -p, q + 1, M);
    } else {
      CongFromMultiple(0, -p, q, M);
    }
  }

  method MontConvert(z: Reducer, x: BigInteger) returns (r: BigInteger)
    requires z.Montgomery? && z.Valid() && x.Valid()
    ensures fresh(r) && r.Valid() && z.Rep(r.Value(), x.Value())
  {
    SignOf(x);
    SignOf(z.m);
    ghost var X, M, t := x.Value(), z.m.Value(), z.m.t;
    r := new BigInteger();
    var u := Abs(x);
    SignOf(u);
    PlaceAdd(0, X, t);
    PlaceMono(0, u.Value(), t);
    DLShiftTo(u, z.m.t, r);
    ghost var p := r.Value();
    DivRemTo(r, z.m, null, r);
    var zero := Nbv(0);
    SignOf(r);
    SignOf(zero);
    DivMod(p, M);
    CongSelf(p, M);
    NegativeResidue(p, M);
    var cmp := CompareTo(r, zero);
    if x.s < 0 && cmp > 0 {
      SubTo(z.m, r, r);
    }
  }

  method BarrettConvert(z: Reducer, x: BigInteger) returns (r: BigInteger)
    requires z.Barrett? && z.Valid() && x.Valid() && x !in z.Scratch()
    modifies z.Scratch()
    ensures z.Valid() && r.Valid() && z.Rep(r.Value(), x.Value()) && (r == x || fresh(r))
  {
    SignOf(x);
    SignOf(z.m);
    CongSelf(x.Value(), z.m.Value());
    if x.s < 0 || x.t > 2 * z.m.t {
      r := Mod(x, z.m);
    } else {
      var cmp := CompareTo(x, z.m);
      if cmp < 0 {
        r := x;
      } else {
        r := new BigInteger();
        x.CopyTo(r);
        LengthOf(x, 2 * z.m.t);
        BarrettReduce(z, r);
      }
    }
  }

  /** A residue that stands for x. */
  method Convert(z: Reducer, x: BigInteger) returns (r: BigInteger)
    requires z.Valid() && x.Valid() && x !in z.Scratch()
    modifies z.Scratch()
    ensures z.Valid() && r.Valid() && z.Rep(r.Value(), x.Value()) && (r == x || fresh(r))
  {
    match z {
      case Classic(m) =>
        SignOf(x);
        SignOf(m);
        CongSelf(x.Value(), m.Value());
        var cmp := 0;
        if x.s >= 0 { cmp := CompareTo(x, m); }
        if x.s < 0 || cmp >= 0 { r := Mod(x, m); } else { r := x; }
      case Montgomery(_, _, _, _, _, _) =>
        r := MontConvert(z, x);
      case Barrett(_, _, _, _) =>
        r := BarrettConvert(z, x);
    }
  }

  /** The number below m that a residue stands for. */
  method Revert(z: Reducer, x: BigInteger, ghost a: int) returns (r: BigInteger)
    requires z.Valid() && x.Valid() && z.Rep(x.Value(), a)
    ensures r.Valid() && r.Value() == a % z.m.Value() && (r == x || fresh(r))
  {
    if z.Montgomery? {
      SignOf(x);
      SignOf(z.m);
      ProductSize(x.Value(), 0, z.m.Value(), z.m.t);
      PlaceGrows(z.m.Value(), 0, z.m.t);
      r := new BigInteger();
      x.CopyTo(r);
      MontReduce(z, r);
      CancelPlace(r.Value(), a, z.m.t, z.m.Value());
      CongUnique(r.Value(), a, z.m.Value());
    } else {
      r := x;
      CongUnique(x.Value(), a, z.m.Value());
    }
  }

  // ----- Square and multiply -----

  lemma {:induction false} PowDouble(x: int, h: nat, b: nat)
    requires b <= 1
    ensures Pow(x, 2 * h + b) == (Pow(x, h) * Pow(x, h)) * (if b == 1 then x else 1)
  {
    PowAdd(x, h, h);
    assert Pow(x, 2 * h + 1) == x * Pow(x, 2 * h);
    MulComm(x, Pow(x, 2 * h));
  }

  /** One more bit of the exponent. */
  lemma {:induction false} NextBit(h: int, e: int, i: nat)
    requires IsPrefix(h, e, i + 1)
    ensures IsPrefix(2 * h + (if BitSet(e, i) then 1 else 0), e, i)
  {
    var q := e / Pow(2, i);
    PrefixDiv(e, e, 0, i);
    PrefixDiv(q, e, i, 1);
    assert Pow(2, 1) == 2;
    PrefixUnique(q / 2, h, e, i + 1);
  }

  /** Square into r2; then multiply by g back into r, or exchange the two. */
  method BitStep(z: Reducer, r: BigInteger, r2: BigInteger, g: BigInteger, bit: bool, ghost X: int, ghost h: nat)
    returns (r': BigInteger, r2': BigInteger)
    requires z.Valid() && r.Valid() && g.Valid() && z.Rep(r.Value(), Pow(X, h)) && z.Rep(g.Value(), X)
    requires r != r2 && g != r && g != r2 && {r, r2} !! z.Fixed() && {r, r2, g} !! z.Scratch()
    modifies r, r2, z.Scratch()
    ensures z.Valid() && {r', r2'} == {r, r2} && r' != r2'
    ensures r'.Valid() && z.Rep(r'.Value(), Pow(X, 2 * h + if bit then 1 else 0))
  {
    PowDouble(X, h, if bit then 1 else 0);
    SqrTo(z, r, r2, Pow(X, h));
    if bit {
      MulTo(z, r2, g, r, Pow(X, h) * Pow(X, h), X);
      r', r2' := r, r2;
    } else {
      r', r2' := r2, r;
    }
  }

  /** One turn of the loop over the bits: r, the power to the bits of e from i + 1 on, takes in bit i. */
  method OneBit(z: Reducer, r: BigInteger, r2: BigInteger, g: BigInteger, e: int, i: nat, ghost h: int, ghost X: int)
    returns (r': BigInteger, r2': BigInteger, ghost h': int)
    requires z.Valid() && e >= 0 && h >= 1 && IsPrefix(h, e, i + 1)
    requires r != r2 && g != r && g != r2 && {r, r2} !! z.Fixed() && {r, r2, g} !! z.Scratch()
    requires r.Valid() && g.Valid() && z.Rep(r.Value(), Pow(X, h)) && z.Rep(g.Value(), X)
    modifies r, r2, z.Scratch()
    ensures z.Valid() && h' >= 1 && IsPrefix(h', e, i) && {r', r2'} == {r, r2} && r' != r2'
    ensures r'.Valid() && g.Valid() && z.Rep(r'.Value(), Pow(X, h')) && z.Rep(g.Value(), X)
  {
    hide Pow, IsPrefix, BitSet;
    NextBit(h, e, i);
    r', r2' := BitStep(z, r, r2, g, BitSet(e, i), X, h);
    h' := 2 * h + if BitSet(e, i) then 1 else 0;
  }

  /** The bits of e below bit i, from the top down; r is the power so far. */
  method RemainingBits(z: Reducer, r0: BigInteger, s0: BigInteger, g: BigInteger, e: int, i0: nat, ghost X: int)
    returns (y: BigInteger)
    requires z.Valid() && 0 < e && IsPrefix(1, e, i0)
    requires r0 != s0 && g != r0 && g != s0 && {r0, s0} !! z.Fixed() && {r0, s0, g} !! z.Scratch()
    requires r0.Valid() && g.Valid() && z.Rep(r0.Value(), X) && z.Rep(g.Value(), X)
    modifies r0, s0, z.Scratch()
    ensures y.Valid() && (y in {r0, s0} || fresh(y)) && y.Value() == Pow(X, e) % z.m.Value()
  {
    var r, r2, i := r0, s0, i0;
    ghost var h := 1;
    assert Pow(X, 1) == X * Pow(X, 0);
    hide Pow, IsPrefix, BitSet;
    while i > 0
      invariant 0 <= i && z.Valid() && IsPrefix(h, e, i) && h >= 1
      invariant {r, r2} == {r0, s0} && r != r2
      invariant r.Valid() && g.Valid() && z.Rep(r.Value(), Pow(X, h)) && z.Rep(g.Value(), X)
    {
      i := i - 1;
      r, r2, h := OneBit(z, r, r2, g, e, i, h, X);
    }
    PrefixWhole(h, e);
    y := Revert(z, r, Pow(X, e));
  }

  /** x^e for 1 <= e < 2^32, and 1 otherwise. */
  method Exp(x: BigInteger, e: int, z: Reducer) returns (y: BigInteger)
    requires x.Valid() && z.Valid() && x !in z.Scratch()
    modifies z.Scratch()
    ensures y.Valid() && fresh(y)
    ensures 1 <= e <= 0xffff_ffff ==> y.Value() == Pow(x.Value(), e) % z.m.Value()
    ensures !(1 <= e <= 0xffff_ffff) ==> y.Value() == 1
  {
    if e > 0xffff_ffff || e < 1 {
      y := Nbv(1);
      return;
    }
    var r := new BigInteger();
    var r2 := new BigInteger();
    ghost var X := x.Value();
    var g := Convert(z, x);
    var i := NBits(e);
    g.CopyTo(r);
    ShiftMul(2, 1, i - 1);
    y := RemainingBits(z, r, r2, g, e, i - 1, X);
  }

  /** x^e mod m for 1 <= e < 2^32. */
  method ModPowInt(x: BigInteger, e: int, m: BigInteger) returns (y: BigInteger)
    requires x.Valid() && m.Valid() && m.Value() > 0
    ensures y.Valid() && fresh(y)
    ensures 1 <= e <= 0xffff_ffff ==> y.Value() == Pow(x.Value(), e) % m.Value()
    ensures !(1 <= e <= 0xffff_ffff) ==> y.Value() == 1
  {
    var even := IsEven(m);
    var z: Reducer;
    if e < 256 || even { z := NewClassic(m); } else { z := NewMontgomery(m); }
    y := Exp(x, e, z);
  }

  // ----- Sliding windows -----

  /** The table of odd powers, below 2^k. */
  ghost predicate Table(z: Reducer, g: map<int, BigInteger>, X: int, n: int)
    requires z.Valid()
    reads z.Fixed(), g.Values
  {
    && g.Values !! z.Scratch()
    && forall w :: 1 <= w < n && w % 2 == 1 ==>
         w in g && g[w] in g.Values && g[w].Valid() && z.Rep(g[w].Value(), Pow(X, w))
  }

  lemma {:induction false} PowStep(x: int, n: nat)
    requires n >= 2
    ensures Pow(x, n) == (x * x) * Pow(x, n - 2)
  {
    assert Pow(x, n) == x * (x * Pow(x, n - 2));
    MulAssoc(x, x, Pow(x, n - 2));
  }

  lemma {:induction false} TableExtends(z: Reducer, g: map<int, BigInteger>, X: int, n: nat, p: BigInteger)
    requires z.Valid() && n % 2 == 1 && Table(z, g, X, n)
    requires p.Valid() && z.Rep(p.Value(), Pow(X, n)) && p !in z.Scratch()
    ensures Table(z, g[n := p], X, n + 2)
    ensures g[n := p].Values <= g.Values + {p}
  {
    var g' := g[n := p];
    forall w | 1 <= w < n + 2 && w % 2 == 1
      ensures w in g' && g'[w] in g'.Values && g'[w].Valid() && z.Rep(g'[w].Value(), Pow(X, w))
    {
      if w != n { assert w in g && g[w] in g.Values; }
    }
  }

  /** One more entry: g[n] = g2 * g[n-2] in a new number. */
  method NextPower(z: Reducer, g2: BigInteger, g: map<int, BigInteger>, ghost X: int, n: nat)
    returns (g': map<int, BigInteger>)
    requires z.Valid() && n >= 3 && n % 2 == 1 && g2.Valid() && z.Rep(g2.Value(), X * X) && Table(z, g, X, n)
    modifies z.Scratch()
    ensures z.Valid() && Table(z, g', X, n + 2)
    ensures forall v :: v in g'.Values ==> v in g.Values || fresh(v)
  {
    var p := new BigInteger();
    PowStep(X, n);
    assert n - 2 in g && g[n - 2] in g.Values;
    MulTo(z, g2, g[n - 2], p, X * X, Pow(X, n - 2));
    TableExtends(z, g, X, n, p);
    g' := g[n := p];
  }

  method Precompute(z: Reducer, x: BigInteger, k: nat) returns (g: map<int, BigInteger>)
    requires z.Valid() && x.Valid() && x !in z.Scratch() && 1 <= k
    modifies z.Scratch()
    ensures z.Valid() && Table(z, g, x.Value(), Pow(2, k))
    ensures forall v :: v in g.Values ==> v == x || fresh(v)
  {
    ghost var X := x.Value();
    var g1 := Convert(z, x);
    g := map[1 := g1];
    assert Pow(X, 1) == X * Pow(X, 0);
    assert Pow(2, 1) == 2;
    if k > 1 {
      g := OddPowers(z, g1, k, X);
    }
  }

  lemma {:induction false} FirstPower(z: Reducer, g: map<int, BigInteger>, X: int)
    requires z.Valid() && g.Keys == {1} && g.Values == {g[1]}
    requires g[1].Valid() && z.Rep(g[1].Value(), X) && g[1] !in z.Scratch()
    ensures Table(z, g, X, 3)
  {
    assert Pow(X, 1) == X * Pow(X, 0);
  }

  /** g[3], g[5], ... up to 2^k - 1. */
  method OddPowers(z: Reducer, g1: BigInteger, k: nat, ghost X: int) returns (g: map<int, BigInteger>)
    requires z.Valid() && g1.Valid() && z.Rep(g1.Value(), X) && g1 !in z.Scratch() && k > 1
    modifies z.Scratch()
    ensures z.Valid() && Table(z, g, X, Pow(2, k))
    ensures forall v :: v in g.Values ==> v == g1 || fresh(v)
  {
    g := map[1 := g1];
    assert g[1] in g.Values;
    FirstPower(z, g, X);
    var g2 := new BigInteger();
    SqrTo(z, g1, g2, X);
    var n := 3;
    var km := Pow(2, k) - 1;
    while n <= km
      invariant 3 <= n && n % 2 == 1 && z.Valid() && Table(z, g, X, n)
      invariant forall v :: v in g.Values ==> v == g1 || fresh(v)
      invariant g2.Valid() && z.Rep(g2.Value(), X * X) && g2 !in z.Scratch()
    {
      g := NextPower(z, g2, g, X, n);
      n := n + 2;
    }
  }

  /** n squarings of r, ending in the second number returned. */
  method SquareTimes(z: Reducer, r0: BigInteger, s0: BigInteger, n0: nat, ghost X: int, ghost h: nat)
    returns (r: BigInteger, r2: BigInteger)
    requires z.Valid() && r0.Valid() && z.Rep(r0.Value(), Pow(X, h))
    requires r0 != s0 && {r0, s0} !! z.Fixed() && {r0, s0} !! z.Scratch()
    modifies r0, s0, z.Scratch()
    ensures z.Valid() && {r, r2} == {r0, s0} && r != r2
    ensures Shift(h, n0) >= 0 && r2.Valid() && z.Rep(r2.Value(), Pow(X, Shift(h, n0)))
  {
    r, r2 := r0, s0;
    var n := n0;
    ghost var a := h;
    ShiftMono(0, h, n0);
    while n > 1
      invariant 0 <= n <= n0 && z.Valid() && r == r0 && r2 == s0
      invariant a >= 0 && Shift(a, n) == Shift(h, n0) && r.Valid() && z.Rep(r.Value(), Pow(X, a))
      decreases n
    {
      PowDouble(X, a, 0);
      PowDouble(X, 2 * a, 0);
      SqrTo(z, r, r2, Pow(X, a));
      SqrTo(z, r2, r, Pow(X, 2 * a));
      ShiftShift(a, 2, n - 2);
      assert Shift(a, 2) == 2 * Shift(a, 1) && Shift(a, 1) == 2 * Shift(a, 0);
      a := 4 * a;
      n := n - 2;
    }
    if n > 0 {
      PowDouble(X, a, 0);
      assert Shift(a, 1) == 2 * Shift(a, 0);
      SqrTo(z, r, r2, Pow(X, a));
    } else {
      r, r2 := r2, r;
    }
  }

  /** The effect of one window: r to the n-th square, times g[w]; the first window is copied. */
  method ApplyWindow(z: Reducer, g: map<int, BigInteger>, w: nat, n: nat, is1: bool, r0: BigInteger, s0: BigInteger,
                     ghost X: int, ghost h: nat, ghost top: nat)
    returns (r: BigInteger, r2: BigInteger)
    requires z.Valid() && Table(z, g, X, top) && 1 <= w < top && w % 2 == 1
    requires r0 != s0 && {r0, s0} !! z.Fixed() && {r0, s0} !! z.Scratch() && {r0, s0} !! g.Values
    requires if is1 then h == 0 else r0.Valid() && z.Rep(r0.Value(), Pow(X, h))
    modifies r0, s0, z.Scratch()
    ensures z.Valid() && Table(z, g, X, top) && {r, r2} == {r0, s0} && r != r2
    ensures Shift(h, n) >= 0 && r.Valid() && z.Rep(r.Value(), Pow(X, Shift(h, n) + w))
  {
    ShiftMono(0, h, n);
    ShiftMono(0, 0, n);
    hide Pow, Shift;
    if is1 {
      assert g[w] in g.Values;
      g[w].CopyTo(r0);
      r, r2 := r0, s0;
    } else {
      r, r2 := SquareTimes(z, r0, s0, n, X, h);
      PowAdd(X, Shift(h, n), w);
      assert g[w] in g.Values;
      MulTo(z, r2, g[w], r, Pow(X, Shift(h, n)), Pow(X, w));
    }
  }

  /** Where the scan of the exponent d stands: next bit i of digit j, above it the prefix h. */
  ghost predicate Scan(d: seq<int>, t: nat, j: int, i: int, h: int) {
    && AreDigits(d, 0, t) && -1 <= j < t && 0 <= i < 28 && (j == -1 ==> i == 27)
    && 0 <= h && IsPrefix(h, Val(d, 0, t), 28 * j + i + 1)
  }

  /** Squarings for the zero bits up to the next window. */
  method SkipZeros(z: Reducer, r0: BigInteger, s0: BigInteger, e: BigInteger, j0: int, i0: int, ghost X: int,
                   ghost h0: nat)
    returns (r: BigInteger, r2: BigInteger, j: int, i: int, ghost h: nat)
    requires z.Valid() && r0.Valid() && z.Rep(r0.Value(), Pow(X, h0)) && e.t >= 0 && Scan(e.digits, e.t, j0, i0, h0)
    requires r0 != s0 && e != r0 && e != s0 && {r0, s0} !! z.Fixed() && {r0, s0, e} !! z.Scratch()
    modifies r0, s0, z.Scratch()
    ensures z.Valid() && {r, r2} == {r0, s0} && r != r2
    ensures Scan(e.digits, e.t, j, i, h) && 28 * j + i <= 28 * j0 + i0 && (j >= 0 ==> BitSet(e.digits[j], i))
    ensures r.Valid() && z.Rep(r.Value(), Pow(X, h))
  {
    r, r2, j, i, h := r0, s0, j0, i0, h0;
    while j >= 0 && !BitSet(e.digits[j], i)
      invariant z.Valid() && {r, r2} == {r0, s0} && r != r2
      invariant Scan(e.digits, e.t, j, i, h) && 28 * j + i <= 28 * j0 + i0
      invariant r.Valid() && z.Rep(r.Value(), Pow(X, h))
      decreases 28 * j + i
    {
      ZeroBit(e.digits, e.t, j, i, h);
      PowDouble(X, h, 0);
      SqrTo(z, r, r2, Pow(X, h));
      r, r2 := r2, r;
      h := 2 * h;
      i := i - 1;
      if i < 0 {
        i := 27;
        j := j - 1;
      }
    }
  }

  /** The next window w of n bits, and the position behind it. */
  method ReadOne(e: BigInteger, k: nat, j0: int, i0: int, ghost h: nat) returns (w: int, n: nat, j: int, i: int)
    requires 1 <= k < 28 && e.t >= 0 && Scan(e.digits, e.t, j0, i0, h) && j0 >= 0 && BitSet(e.digits[j0], i0)
    ensures 1 <= w < Pow(2, k) && w % 2 == 1 && Shift(h, n) >= 0
    ensures Scan(e.digits, e.t, j, i, Shift(h, n) + w) && 28 * j + i < 28 * j0 + i0
  {
    w, n := NextWindow(e.digits, e.t, j0, i0, k, h);
    j, i := j0, i0 - n;
    if i < 0 {
      i := i + 28;
      j := j - 1;
    }
    WindowInTable(w, n, k);
    ShiftMono(0, h, n);
  }

  /** One turn of the window loop: a window, then the zero bits behind it. */
  method OneWindow(z: Reducer, g: map<int, BigInteger>, e: BigInteger, k: nat, is1: bool, r0: BigInteger,
                   s0: BigInteger, j0: int, i0: int, ghost X: int, ghost h0: nat)
    returns (r: BigInteger, r2: BigInteger, j: int, i: int, ghost h: nat)
    requires z.Valid() && 1 <= k < 28 && Table(z, g, X, Pow(2, k)) && e.t >= 0
    requires r0 != s0 && e != r0 && e != s0 && {r0, s0} !! z.Fixed() && {r0, s0, e} !! z.Scratch()
    requires {r0, s0} !! g.Values
    requires Scan(e.digits, e.t, j0, i0, h0) && j0 >= 0 && BitSet(e.digits[j0], i0)
    requires if is1 then h0 == 0 else r0.Valid() && z.Rep(r0.Value(), Pow(X, h0))
    modifies r0, s0, z.Scratch()
    ensures z.Valid() && Table(z, g, X, Pow(2, k)) && {r, r2} == {r0, s0} && r != r2
    ensures Scan(e.digits, e.t, j, i, h) && 28 * j + i < 28 * j0 + i0 && (j >= 0 ==> BitSet(e.digits[j], i))
    ensures r.Valid() && z.Rep(r.Value(), Pow(X, h))
  {
    hide Pow, Shift, IsPrefix, Val, BitSet;
    var w, n;
    w, n, j, i := ReadOne(e, k, j0, i0, h0);
    r, r2 := ApplyWindow(z, g, w, n, is1, r0, s0, X, h0, Pow(2, k));
    r, r2, j, i, h := SkipZeros(z, r, r2, e, j, i, X, Shift(h0, n) + w);
  }

  /** The window loop; r0 and s0 are the two numbers it works in. */
  method PowLoop(z: Reducer, g: map<int, BigInteger>, e: BigInteger, k: nat, r0: BigInteger, s0: BigInteger,
                 ghost X: int, ghost E: nat)
    returns (r: BigInteger)
    requires z.Valid() && 1 <= k < 28 && Table(z, g, X, Pow(2, k))
    requires e.Valid() && e.s == 0 && e.t > 0 && E == Val(e.digits, 0, e.t)
    requires r0 != s0 && e != r0 && e != s0 && {r0, s0} !! z.Fixed() && {r0, s0, e} !! z.Scratch()
    requires {r0, s0} !! g.Values
    modifies r0, s0, z.Scratch()
    ensures z.Valid() && r in {r0, s0} && r.Valid() && z.Rep(r.Value(), Pow(X, E))
  {
    var r2: BigInteger;
    r, r2 := r0, s0;
    var j := e.t - 1;
    var i := NBits(e.digits[j]);
    i := i - 1;
    TopDigitLength(e.digits[j], i + 1);
    TopBit(e.digits, e.t, i);
    var is1 := true;
    ghost var h := 0;
    while j >= 0
      invariant z.Valid() && Table(z, g, X, Pow(2, k)) && {r, r2} == {r0, s0} && r != r2
      invariant Scan(e.digits, e.t, j, i, h) && (j >= 0 ==> BitSet(e.digits[j], i))
      invariant if is1 then h == 0 && j >= 0 else r.Valid() && z.Rep(r.Value(), Pow(X, h))
      decreases 28 * j + i
    {
      r, r2, j, i, h := OneWindow(z, g, e, k, is1, r, r2, j, i, X, h);
      is1 := false;
    }
    PrefixWhole(h, E);
  }

  lemma {:induction false} WindowInTable(w: int, n: nat, k: nat)
    requires w < Shift(1, n) && n <= k
    ensures w < Pow(2, k)
  {
    ShiftPow(1, n);
    PowMono(2, n, k);
  }

  /** The reducer for an exponent of i bits. */
  method ChooseReducer(i: int, m: BigInteger) returns (z: Reducer)
    requires m.Valid() && m.Value() > 0 && m.t + 3 <= DV
    ensures z.Valid() && z.m == m && fresh(z.Scratch())
    ensures z.Barrett? ==> fresh(z.mu)
  {
    var even := IsEven(m);
    if i < 8 { z := NewClassic(m); }
    else if even { z := NewBarrett(m); }
    else { z := NewMontgomery(m); }
  }

  /** x^e mod m for e >= 0, except that x^0 is 1 even modulo 1. */
  method ModPow(x: BigInteger, e: BigInteger, m: BigInteger) returns (y: BigInteger)
    requires x.Valid() && e.Valid() && e.Value() >= 0 && m.Valid() && m.Value() > 0 && m.t + 3 <= DV
    ensures fresh(y) && y.Valid()
    ensures e.Value() > 0 ==> y.Value() == Pow(x.Value(), e.Value()) % m.Value()
    ensures e.Value() == 0 ==> y.Value() == 1
  {
    SignOf(e);
    var i := BitLength(e);
    var r := Nbv(1);
    if i <= 0 { return r; }
    var k := if i < 18 then 1 else if i < 48 then 3 else if i < 144 then 4 else if i < 768 then 5 else 6;
    var z := ChooseReducer(i, m);
    y := PowWith(x, e, k, z, r);
  }

  /** The power with a given reducer and window size; r is the number that started as one. */
  method PowWith(x: BigInteger, e: BigInteger, k: nat, z: Reducer, r: BigInteger) returns (y: BigInteger)
    requires x.Valid() && e.Valid() && e.Value() > 0 && 1 <= k < 28 && z.Valid()
    requires {x, e, r} !! z.Scratch() && r !in z.Fixed() && r != x && r != e
    modifies r, z.Scratch()
    ensures (y == r || fresh(y)) && y.Valid()
    ensures y.Value() == Pow(x.Value(), e.Value()) % old(z.m.Value())
  {
    SignOf(e);
    ghost var X, E := x.Value(), e.Value();
    var g := Precompute(z, x, k);
    var r2 := new BigInteger();
    var u := PowLoop(z, g, e, k, r, r2, X, E);
    y := Revert(z, u, Pow(X, E));
  }
}
