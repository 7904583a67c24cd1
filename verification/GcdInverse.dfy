/** Binary greatest common divisor and modular inverse. */
module GcdInverse {
  import opened Numbers
  import opened Digits
  import opened BigIntegers
  import opened AddSub
  import opened Compare
  import opened Shifts
  import opened Divisors
  import opened InverseRun
  import opened MontgomeryReduction

  // ----- The lowest set bit -----

  /** Drop k zero bits if they are all zero. */
  method DropZeros(x: int, r: nat, k: nat, ghost v: int) returns (x': int, r': nat)
    requires 0 < x && v == Shift(x, r)
    ensures 0 < x' <= x && v == Shift(x', r') && r' >= r
    ensures x % Pow(2, k) == 0 ==> x' == x / Pow(2, k)
    ensures x % Pow(2, k) != 0 ==> x' == x
  {
    x', r' := x, r;
    if x % Pow(2, k) == 0 {
      DivMod(x, Pow(2, k));
      DivPos(x, Pow(2, k));
      ShiftPow(x / Pow(2, k), k);
      ShiftShift(x / Pow(2, k), k, r);
      x', r' := x / Pow(2, k), r + k;
    }
  }

  /** Once 2k zero bits have been ruled out, dropping k leaves fewer than k. */
  lemma {:induction false} FewerZeros(x: int, m: int)
    requires m > 0 && m * m > 0 && x % (m * m) != 0
    ensures x % m == 0 ==> (x / m) % m != 0
  {
    if x % m == 0 && (x / m) % m == 0 {
      DivMod(x, m);
      DivMod(x / m, m);
      MulAssoc(x / m / m, m, m);
      DivUnique(x, m * m, x / m / m, 0);
    }
  }

  /** The index of the lowest set bit of a positive word. */
  method LBit(x0: int) returns (r: nat)
    requires 0 < x0 < 0x8000_0000
    ensures exists q :: x0 == Shift(q, r) && q % 2 == 1
  {
    PowAdd(2, 8, 8); PowAdd(2, 4, 4);
    var x := x0;
    r := 0;
    x, r := DropZeros(x, r, 16, x0);
    assert x % 0x1_0000 != 0 by { WordHasBit(x0, x); }
    FewerZeros(x, 0x100);
    x, r := DropZeros(x, r, 8, x0);
    FewerZeros(x, 0x10);
    x, r := DropZeros(x, r, 4, x0);
    FewerZeros(x, 4);
    x, r := DropZeros(x, r, 2, x0);
    FewerZeros(x, 2);
    ghost var q := x;
    if x % 2 == 0 {
      ShiftShift(x / 2, 1, r);
      assert Shift(x / 2, 1) == 2 * Shift(x / 2, 0);
      q := x / 2;
      r := r + 1;
    }
    assert x0 == Shift(q, r) && q % 2 == 1;
  }

  lemma {:induction false} WordHasBit(x0: int, x: int)
    requires 0 < x0 < 0x8000_0000
    requires x == (if x0 % 0x1_0000 == 0 then x0 / 0x1_0000 else x0)
    ensures x % 0x1_0000 != 0
  {}

  /** The value above trailing zero digits. */
  lemma {:induction false} LowestValue(d: seq<int>, t: nat, s: int, i: nat, q: int, r: nat)
    requires i < t && AreDigits(d, 0, t) && forall k :: 0 <= k < i ==> d[k] == 0
    requires d[i] == Shift(q, r) && q % 2 == 1 && r < 28
    ensures exists h :: SVal(d, t, s) == Shift(h, 28 * i + r) && h % 2 == 1
  {
    ValSplit(d, 0, i, t);
    ValZero(d, 0, i);
    ValLow(d, i, t);
    PlacePlace(s, t - i, i);
    var w := Val(d, i + 1, t) + Place(s, t - i - 1);
    PlaceAdd(Val(d, i, t), Place(s, t - i), i);
    var h := LowestBit(q, r, w);
    PlaceOfShift(h, i, r);
    assert SVal(d, t, s) == Shift(h, 28 * i + r);
  }

  /** A digit q * 2^r with q odd, and any digits w above it. */
  lemma {:induction false} LowestBit(q: int, r: nat, w: int) returns (h: int)
    requires q % 2 == 1 && r < 28
    ensures h % 2 == 1 && Shift(q, r) + DV * w == Shift(h, r)
  {
    ShiftShift(w, 28 - r, r);
    ShiftPow(w, 28); PowDV();
    h := q + Shift(w, 28 - r);
    ShiftAdd(q, Shift(w, 28 - r), r);
    assert Shift(w, 28 - r) == 2 * Shift(w, 27 - r);
  }

  lemma {:induction false} BitInDigit(q: int, r: nat)
    requires 0 < Shift(q, r) < DV && q % 2 == 1
    ensures r < 28
  {
    ShiftMono(0, q, r);
    if q <= 0 { ShiftMono(q, 0, r); }
    if r >= 28 {
      ShiftShift(q, 28, r - 28);
      ShiftPow(q, 28); PowDV();
      ShiftMono(0, q, 28);
      ShiftGrows(Shift(q, 28), r - 28);
    }
  }

  /** The number of trailing zero bits of x, -1 for zero: x is h * 2^r with h odd. */
  method GetLowestSetBit(x: BigInteger) returns (r: int, ghost h: int)
    requires x.Valid()
    ensures x.Value() == 0 ==> r == -1
    ensures x.Value() != 0 ==> r >= 0 && x.Value() == Shift(h, r) && h % 2 == 1
  {
    SignOf(x);
    h := 0;
    var i := 0;
    while i < x.t
      invariant 0 <= i <= x.t && forall k :: 0 <= k < i ==> x.digits[k] == 0
    {
      if x.digits[i] != 0 {
        var l := LBit(x.digits[i]);
        ghost var q :| x.digits[i] == Shift(q, l) && q % 2 == 1;
        BitInDigit(q, l);
        LowestValue(x.digits, x.t, x.s, i, q, l);
        h :| x.Value() == Shift(h, 28 * i + l) && h % 2 == 1;
        r := i * 28 + l;
        return;
      }
      i := i + 1;
    }
    ValZero(x.digits, 0, x.t);
    PlaceMono(0, 0, x.t);
    if x.s < 0 {
      r := x.t * 28;
      h := -1;
      PlaceShift(-1, x.t);
    } else {
      r := -1;
    }
  }

  // ----- Greatest common divisor -----

  method Clone(x: BigInteger) returns (r: BigInteger)
    requires x.Valid()
    ensures fresh(r) && r.Valid() && r.Value() == x.Value()
  {
    r := new BigInteger();
    x.CopyTo(r);
  }

  /** x >> n for a multiple of 2^n. */
  method ShiftOut(x: BigInteger, n: nat, ghost q: int)
    requires x.Valid() && x.Value() == Shift(q, n)
    modifies x
    ensures x.Valid() && x.Value() == q
  {
    RShiftTo(x, n, x);
    if x.Value() < q { ShiftMono(x.Value() + 1, q, n); }
    if q < x.Value() { ShiftMono(q, x.Value(), n); }
  }

  /** Divide out all factors of two of a positive number, the other one being odd unless x is. */
  method MakeOdd(x: BigInteger, ghost y: nat)
    requires x.Valid() && x.Value() > 0 && (x.Value() % 2 == 1 || y % 2 == 1)
    modifies x
    ensures x.Valid() && 0 < x.Value() <= old(x.Value()) && x.Value() % 2 == 1
    ensures Gcd(x.Value(), y) == Gcd(old(x.Value()), y)
  {
    var i: int;
    ghost var h: int;
    i, h := GetLowestSetBit(x);
    if h <= 0 { ShiftMono(h, 0, i); }
    ShiftGrows(h, i);
    if i > 0 {
      assert Shift(h, i) == 2 * Shift(h, i - 1);
      GcdShift(h, y, i);
      ShiftOut(x, i, h);
    }
  }

  lemma {:induction false} HalfDifference(a: nat, b: nat)
    requires a >= b > 0 && a % 2 == 1 && b % 2 == 1
    ensures (a - b) % 2 == 0 && Gcd((a - b) / 2, b) == Gcd(a, b)
  {
    GcdSubtract(a, b);
    GcdHalve((a - b) / 2, b);
  }

  /** x = (x - y) / 2 for odd x >= y. */
  method SubtractHalve(x: BigInteger, y: BigInteger)
    requires x.Valid() && y.Valid() && x != y && x.Value() >= y.Value() > 0
    requires x.Value() % 2 == 1 && y.Value() % 2 == 1
    modifies x
    ensures x.Valid() && 0 <= x.Value() < old(x.Value())
    ensures 2 * x.Value() == old(x.Value()) - y.Value()
    ensures Gcd(x.Value(), y.Value()) == Gcd(old(x.Value()), y.Value())
  {
    HalfDifference(x.Value(), y.Value());
    SubTo(x, y, x);
    HalveExact(x);
  }

  /** |x| in a new number. */
  method AbsCopy(x: BigInteger) returns (r: BigInteger)
    requires x.Valid()
    ensures fresh(r) && r.Valid() && r.s == 0 && r.Value() == Absolute(x.Value())
  {
    SignOf(x);
    if x.s < 0 { r := Negate(x); } else { r := Clone(x); }
    SignOf(r);
  }

  /** The greatest common divisor of |x| and |a|. */
  method GCD(x0: BigInteger, a: BigInteger) returns (r: BigInteger)
    requires x0.Valid() && a.Valid()
    ensures r.Valid() && fresh(r)
    ensures r.Value() == Gcd(Absolute(x0.Value()), Absolute(a.Value()))
  {
    var x := AbsCopy(x0);
    var y := AbsCopy(a);
    GcdSym(x.Value(), y.Value());
    var cmp := CompareTo(x, y);
    if cmp < 0 { x, y := y, x; }
    r := GcdOfOrdered(x, y);
  }

  /** The same for x >= y >= 0, which are consumed. */
  method GcdOfOrdered(x: BigInteger, y: BigInteger) returns (r: BigInteger)
    requires x.Valid() && y.Valid() && x != y && x.Value() >= y.Value() >= 0
    modifies x, y
    ensures r in {x, y} && r.Valid() && r.Value() == Gcd(old(x.Value()), old(y.Value()))
  {
    var i, g: int;
    ghost var h, h': int;
    i, h := GetLowestSetBit(x);
    g, h' := GetLowestSetBit(y);
    if g < 0 { return x; }
    ghost var x1, y1 := CommonPower(x.Value(), i, h, y.Value(), g, h');
    if i < g { g := i; }
    r := OddGcd(x, y, g, x1, y1);
  }

  /** Both numbers are multiples of the smaller power of two, and one quotient is odd. */
  lemma {:induction false} CommonPower(X: int, i: nat, h: int, Y: int, g: nat, h': int) returns (x1: nat, y1: nat)
    requires X >= 0 && Y > 0 && X == Shift(h, i) && h % 2 == 1 && Y == Shift(h', g) && h' % 2 == 1
    ensures var n := if i < g then i else g; X == Shift(x1, n) && Y == Shift(y1, n)
    ensures (x1 % 2 == 1 || y1 % 2 == 1) && y1 > 0
  {
    var n := if i < g then i else g;
    ShiftShift(h, i - n, n);
    ShiftShift(h', g - n, n);
    var a, b := Shift(h, i - n), Shift(h', g - n);
    if a < 0 { ShiftMono(a, 0, n); }
    if b <= 0 { ShiftMono(b, 0, n); }
    x1, y1 := a, b;
  }

  /** The main loop, after the common power 2^g has been taken out. */
  method OddGcd(x: BigInteger, y: BigInteger, g: nat, ghost x1: nat, ghost y1: nat) returns (r: BigInteger)
    requires x.Valid() && y.Valid() && x != y && (x1 % 2 == 1 || y1 % 2 == 1) && y1 > 0
    requires x.Value() == Shift(x1, g) && y.Value() == Shift(y1, g)
    modifies x, y
    ensures r == y && r.Valid() && Shift(x1, g) >= 0 && Shift(y1, g) >= 0
    ensures r.Value() == Gcd(Shift(x1, g), Shift(y1, g))
  {
    GcdShiftBoth(x1, y1, g);
    if g > 0 {
      ShiftOut(x, g, x1);
      ShiftOut(y, g, y1);
    }
    var sx := SigNum(x);
    while sx > 0
      invariant x.Valid() && y.Valid() && x.Value() >= 0 && y.Value() > 0
      invariant x.Value() % 2 == 1 || y.Value() % 2 == 1
      invariant Gcd(x.Value(), y.Value()) == Gcd(x1, y1)
      invariant sx > 0 <==> x.Value() > 0
      decreases x.Value() + y.Value()
    {
      Reduce(x, y);
      sx := SigNum(x);
    }
    GcdSym(0, y.Value());
    if g > 0 { LShiftTo(y, g, y); }
    r := y;
  }

  /** Both numbers lose their factors of two. */
  method BothOdd(x: BigInteger, y: BigInteger)
    requires x.Valid() && y.Valid() && x != y && x.Value() > 0 && y.Value() > 0
    requires x.Value() % 2 == 1 || y.Value() % 2 == 1
    modifies x, y
    ensures x.Valid() && y.Valid() && 0 < x.Value() <= old(x.Value()) && 0 < y.Value() <= old(y.Value())
    ensures x.Value() % 2 == 1 && y.Value() % 2 == 1
    ensures Gcd(x.Value(), y.Value()) == Gcd(old(x.Value()), old(y.Value()))
  {
    MakeOdd(x, y.Value());
    GcdSym(x.Value(), y.Value());
    MakeOdd(y, x.Value());
    GcdSym(x.Value(), y.Value());
  }

  /** One turn: make both odd, then replace the larger by half the difference. */
  method Reduce(x: BigInteger, y: BigInteger)
    requires x.Valid() && y.Valid() && x != y && x.Value() > 0 && y.Value() > 0
    requires x.Value() % 2 == 1 || y.Value() % 2 == 1
    modifies x, y
    ensures x.Valid() && y.Valid() && x.Value() >= 0 && y.Value() > 0
    ensures x.Value() % 2 == 1 || y.Value() % 2 == 1
    ensures Gcd(x.Value(), y.Value()) == Gcd(old(x.Value()), old(y.Value()))
    ensures x.Value() + y.Value() < old(x.Value()) + old(y.Value())
  {
    BothOdd(x, y);
    SignOf(x); SignOf(y);
    var cmp := CompareTo(x, y);
    if cmp >= 0 {
      SubtractHalve(x, y);
    } else {
      GcdSym(x.Value(), y.Value());
      SubtractHalve(y, x);
      GcdSym(x.Value(), y.Value());
    }
  }

  function Absolute(v: int): nat {
    if v < 0 then -v else v
  }

  // ----- Modular inverse -----

  /** u is b * T modulo M and, where a is tracked too, exactly a * M + b * T. */
  ghost predicate Tracks(u: int, a: int, b: int, M: int, T: int, ac: bool)
    requires M > 0
  {
    Cong(b * T, u, M) && (ac ==> u == a * M + b * T)
  }

  lemma {:induction false} HalfCong(b: int, b': int, u: int, M: int, T: int)
    requires M > 0 && M % 2 == 1 && u % 2 == 0 && (b == 2 * b' || b - M == 2 * b') && Cong(b * T, u, M)
    ensures Cong(b' * T, u / 2, M)
  {
    MulAssoc(2, b', T);
    MulDistrib(T, b, M);
    if b - M == 2 * b' { CongFromMultiple(2 * b' * T, b * T, -T, M); }
    var k := CongMultiple(2 * b' * T, u, M);
    assert 2 * (b' * T - u / 2) == k * M;
    DivUnique(2 * (b' * T - u / 2), M, k, 0);
    CancelTwo(b' * T - u / 2, M);
    DivMod(b' * T - u / 2, M);
    CongFromMultiple(b' * T, u / 2, (b' * T - u / 2) / M, M);
  }

  /** With an even modulus and an odd number the coefficients are even together or become so. */
  lemma {:induction false} EvenTogether(u: int, a: int, b: int, M: int, T: int)
    requires M % 2 == 0 && T % 2 == 1 && u % 2 == 0 && u == a * M + b * T
    ensures b % 2 == 0 && (b - M) % 2 == 0
    ensures a % 2 == 1 ==> (a + T) % 2 == 0
  {
    MulAssoc(a, M / 2, 2);
    assert (b * T) % 2 == 0 by { CongFromMultiple(b * T, u, -(a * (M / 2)), 2); }
    OddTimes(b, T);
  }

  lemma {:induction false} HalfExact(u: int, a: int, b: int, a': int, b': int, M: int, T: int)
    requires M > 0 && u % 2 == 0 && u == a * M + b * T
    requires (a == 2 * a' && b == 2 * b') || (a + T == 2 * a' && b - M == 2 * b')
    ensures u / 2 == a' * M + b' * T && Cong(b' * T, u / 2, M)
  {
    if a == 2 * a' {
      assert u == 2 * (a' * M + b' * T);
    } else {
      assert (a + T) * M + (b - M) * T == a * M + b * T;
      assert u == 2 * (a' * M + b' * T);
    }
    CongFromMultiple(b' * T, u / 2, -a', M);
  }

  /** Halve a coefficient, exactly. */
  method HalveExact(x: BigInteger)
    requires x.Valid() && x.Value() % 2 == 0
    modifies x
    ensures x.Valid() && 2 * x.Value() == old(x.Value())
  {
    ghost var h := x.Value() / 2;
    assert Shift(h, 1) == 2 * Shift(h, 0);
    ShiftOut(x, 1, h);
  }

  ghost function TrackOf(u: BigInteger, a: BigInteger, b: BigInteger): Track
    requires u.Wf() && a.Wf() && b.Wf()
    reads u, a, b
  {
    Track(u.Value(), a.Value(), b.Value())
  }

  /** u is even: halve it, and its coefficients with it. */
  method HalveTracked(u: BigInteger, a: BigInteger, b: BigInteger, x: BigInteger, m: BigInteger, ac: bool)
    requires u.Valid() && a.Valid() && b.Valid() && x.Valid() && m.Valid()
    requires u != a && u != b && a != b && {u, a, b} !! {x, m}
    requires m.Value() > 0 && ac == (m.Value() % 2 == 0) && (ac ==> x.Value() % 2 == 1)
    requires u.Value() % 2 == 0 && Tracks(u.Value(), a.Value(), b.Value(), m.Value(), x.Value(), ac)
    modifies u, a, b
    ensures u.Valid() && a.Valid() && b.Valid() && 2 * u.Value() == old(u.Value())
    ensures Tracks(u.Value(), a.Value(), b.Value(), m.Value(), x.Value(), ac)
    ensures TrackOf(u, a, b) == Halved(old(TrackOf(u, a, b)), x.Value(), m.Value())
  {
    ghost var U, A, B, M, T := u.Value(), a.Value(), b.Value(), m.Value(), x.Value();
    HalveExact(u);
    if ac {
      EvenTogether(U, A, B, M, T);
      var ea := IsEven(a);
      var eb := IsEven(b);
      if !ea || !eb {
        AddTo(a, x, a);
        SubTo(b, m, b);
      }
      HalveExact(a);
      HalveExact(b);
      HalfExact(U, A, B, a.Value(), b.Value(), M, T);
    } else {
      var eb := IsEven(b);
      if !eb { SubTo(b, m, b); }
      HalveExact(b);
      HalfCong(B, b.Value(), U, M, T);
    }
  }

  /** While u is even, halve it; u and v are not both even. */
  method HalveWhileEven(u: BigInteger, a: BigInteger, b: BigInteger, x: BigInteger, m: BigInteger, ac: bool,
                        ghost v: nat)
    requires u.Valid() && a.Valid() && b.Valid() && x.Valid() && m.Valid()
    requires u != a && u != b && a != b && {u, a, b} !! {x, m}
    requires m.Value() > 0 && ac == (m.Value() % 2 == 0) && (ac ==> x.Value() % 2 == 1)
    requires u.Value() > 0 && Tracks(u.Value(), a.Value(), b.Value(), m.Value(), x.Value(), ac)
    requires u.Value() % 2 == 1 || v % 2 == 1
    modifies u, a, b
    ensures u.Valid() && a.Valid() && b.Valid() && 0 < u.Value() <= old(u.Value()) && u.Value() % 2 == 1
    ensures Tracks(u.Value(), a.Value(), b.Value(), m.Value(), x.Value(), ac)
    ensures Gcd(u.Value(), v) == Gcd(old(u.Value()), v)
    ensures TrackOf(u, a, b) == HalvedOut(old(TrackOf(u, a, b)), x.Value(), m.Value())
  {
    ghost var U, t := u.Value(), TrackOf(u, a, b);
    var even := IsEven(u);
    while even
      modifies u, a, b
      invariant u.Valid() && a.Valid() && b.Valid() && 0 < u.Value() <= U
      invariant Tracks(u.Value(), a.Value(), b.Value(), m.Value(), x.Value(), ac)
      invariant u.Value() % 2 == 1 || v % 2 == 1
      invariant Gcd(u.Value(), v) == Gcd(U, v)
      invariant HalvedOut(TrackOf(u, a, b), x.Value(), m.Value()) == HalvedOut(t, x.Value(), m.Value())
      invariant even <==> u.Value() % 2 == 0
      decreases u.Value()
    {
      GcdHalve(u.Value() / 2, v);
      HalveTracked(u, a, b, x, m, ac);
      even := IsEven(u);
    }
  }

  lemma {:induction false} TrackDifference(u: int, a: int, b: int, v: int, c: int, d: int, M: int, T: int, ac: bool)
    requires M > 0 && Tracks(u, a, b, M, T, ac) && Tracks(v, c, d, M, T, ac)
    ensures Cong((b - d) * T, u - v, M)
    ensures ac ==> u - v == (a - c) * M + (b - d) * T
  {
    CongAdd(b * T, u, d * T, v, M);
    MulDistrib(T, b, d);
    MulDistrib(M, a, c);
  }

  /** u -= v with the coefficients; a is followed only if ac. */
  method SubtractTracked(u: BigInteger, a: BigInteger, b: BigInteger, v: BigInteger, c: BigInteger, d: BigInteger,
                         ac: bool, ghost M: int, ghost T: int)
    requires u.Valid() && a.Valid() && b.Valid() && v.Valid() && c.Valid() && d.Valid()
    requires u != a && u != b && a != b && {u, a, b} !! {v, c, d} && M > 0
    requires u.Value() >= v.Value() > 0 && Tracks(u.Value(), a.Value(), b.Value(), M, T, ac)
    requires Tracks(v.Value(), c.Value(), d.Value(), M, T, ac)
    modifies u, a, b
    ensures u.Valid() && a.Valid() && b.Valid() && u.Value() == old(u.Value()) - v.Value()
    ensures Tracks(u.Value(), a.Value(), b.Value(), M, T, ac)
    ensures Gcd(u.Value(), v.Value()) == Gcd(old(u.Value()), v.Value())
    ensures ac == (M % 2 == 0) ==> TrackOf(u, a, b) == Less(old(TrackOf(u, a, b)), TrackOf(v, c, d), M)
  {
    TrackDifference(u.Value(), a.Value(), b.Value(), v.Value(), c.Value(), d.Value(), M, T, ac);
    GcdSubtract(u.Value(), v.Value());
    SubTo(u, v, u);
    if ac { SubTo(a, c, a); }
    SubTo(b, d, b);
  }

  /** The state of the extended algorithm: u and v with their coefficients. */
  ghost predicate Extended(u: BigInteger, v: BigInteger, a: BigInteger, b: BigInteger, c: BigInteger, d: BigInteger,
                           M: nat, T: nat, ac: bool)
    reads u, v, a, b, c, d
  {
    && u.Valid() && v.Valid() && a.Valid() && b.Valid() && c.Valid() && d.Valid()
    && u != v && u != a && u != b && u != c && u != d && v != a && v != b && v != c && v != d
    && a != b && a != c && a != d && b != c && b != d && c != d
    && M > 0 && u.Value() >= 0 && v.Value() > 0
    && (u.Value() % 2 == 1 || v.Value() % 2 == 1)
    && Tracks(u.Value(), a.Value(), b.Value(), M, T, ac) && Tracks(v.Value(), c.Value(), d.Value(), M, T, ac)
    && Gcd(u.Value(), v.Value()) == Gcd(M, T)
  }

  /** Both numbers made odd. */
  method HalveBoth(u: BigInteger, v: BigInteger, a: BigInteger, b: BigInteger, c: BigInteger, d: BigInteger,
                   x: BigInteger, m: BigInteger, ac: bool)
    requires x.Valid() && m.Valid() && m.Value() > 0 && x.Value() > 0 && {u, v, a, b, c, d} !! {x, m}
    requires ac == (m.Value() % 2 == 0) && (ac ==> x.Value() % 2 == 1)
    requires Extended(u, v, a, b, c, d, m.Value(), x.Value(), ac) && u.Value() > 0
    modifies u, v, a, b, c, d
    ensures Extended(u, v, a, b, c, d, m.Value(), x.Value(), ac)
    ensures 0 < u.Value() <= old(u.Value()) && 0 < v.Value() <= old(v.Value())
    ensures u.Value() % 2 == 1 && v.Value() % 2 == 1
    ensures TrackOf(u, a, b) == HalvedOut(old(TrackOf(u, a, b)), x.Value(), m.Value())
    ensures TrackOf(v, c, d) == HalvedOut(old(TrackOf(v, c, d)), x.Value(), m.Value())
  {
    HalveWhileEven(u, a, b, x, m, ac, v.Value());
    GcdSym(u.Value(), v.Value());
    HalveWhileEven(v, c, d, x, m, ac, u.Value());
    GcdSym(u.Value(), v.Value());
  }

  /** One turn of the main loop. */
  method ExtendedStep(u: BigInteger, v: BigInteger, a: BigInteger, b: BigInteger, c: BigInteger, d: BigInteger,
                      x: BigInteger, m: BigInteger, ac: bool)
    requires x.Valid() && m.Valid() && m.Value() > 0 && x.Value() > 0 && {u, v, a, b, c, d} !! {x, m}
    requires ac == (m.Value() % 2 == 0) && (ac ==> x.Value() % 2 == 1)
    requires Extended(u, v, a, b, c, d, m.Value(), x.Value(), ac) && u.Value() > 0
    modifies u, v, a, b, c, d
    ensures Extended(u, v, a, b, c, d, m.Value(), x.Value(), ac)
    ensures u.Value() + v.Value() < old(u.Value() + v.Value())
    ensures (TrackOf(u, a, b), TrackOf(v, c, d)) ==
        old(Turn(TrackOf(u, a, b), TrackOf(v, c, d), x.Value(), m.Value()))
  {
    hide Gcd, HalvedOut, Less, Cong;
    HalveBoth(u, v, a, b, c, d, x, m, ac);
    SignOf(u); SignOf(v);
    var cmp := CompareTo(u, v);
    if cmp >= 0 {
      SubtractTracked(u, a, b, v, c, d, ac, m.Value(), x.Value());
    } else {
      GcdSym(u.Value(), v.Value());
      SubtractTracked(v, c, d, u, a, b, ac, m.Value(), x.Value());
      GcdSym(u.Value(), v.Value());
    }
  }

  lemma {:induction false} CongShifted(d: int, T: int, M: int, k: int)
    requires M > 0 && Cong(d * T, 1, M)
    ensures Cong((d + k * M) * T, 1, M)
  {
    MulDistrib(T, d, k * M);
    MulAssoc(k, M, T); MulComm(M, T); MulAssoc(k, T, M);
    CongFromMultiple((d + k * M) * T, d * T, k * T, M);
  }

  /** The last corrections: at most one modulus down or two up. */
  method Adjust(d: BigInteger, m: BigInteger, ghost T: int) returns (r: BigInteger)
    requires d.Valid() && m.Valid() && d != m && m.Value() > 0 && Cong(d.Value() * T, 1, m.Value())
    modifies d
    ensures r.Valid() && (r == d || fresh(r)) && Cong(r.Value() * T, 1, m.Value())
    ensures r.Value() == Adjusted(old(d.Value()), m.Value())
  {
    ghost var D, M := d.Value(), m.Value();
    CongShifted(D, T, M, -1); CongShifted(D, T, M, 1); CongShifted(D, T, M, 2);
    assert D == D + 0 * M && D - M == D + (-1) * M && D + M == D + 1 * M && D + M + M == D + 2 * M;
    SignOf(d); SignOf(m);
    var cmp := CompareTo(d, m);
    if cmp >= 0 {
      r := Subtract(d, m);
      return;
    }
    var sd := SigNum(d);
    if sd < 0 { AddTo(d, m, d); } else { return d; }
    sd := SigNum(d);
    if sd < 0 { r := Add(d, m); } else { r := d; }
  }

  /** The inverse of x modulo m if there is one, ZERO otherwise. */
  method ModInverse(x: BigInteger, m: BigInteger) returns (r: BigInteger)
    requires x.Valid() && m.Valid() && x.Value() > 0 && m.Value() >= 0
    ensures r.Valid() && fresh(r)
    ensures m.Value() > 0 && Gcd(m.Value(), x.Value()) == 1 ==> Cong(r.Value() * x.Value(), 1, m.Value())
    ensures m.Value() > 0 && Gcd(m.Value(), x.Value()) == 1 ==>
        (0 <= r.Value() < m.Value() <==> -2 * m.Value() <= FinalCoefficient(x.Value(), m.Value()) < 2 * m.Value())
    ensures m.Value() > 0 && Gcd(m.Value(), x.Value()) == 1 ==>
        r.Value() == Adjusted(FinalCoefficient(x.Value(), m.Value()), m.Value())
    ensures m.Value() == 0 || Gcd(m.Value(), x.Value()) != 1 ==> r.Value() == 0
  {
    var ac := IsEven(m);
    var ex := IsEven(x);
    var sm := SigNum(m);
    if (ex && ac) || sm == 0 {
      if sm != 0 { BothEven(m.Value(), x.Value()); }
      r := Nbv(0);
      return;
    }
    r := Invert(x, m, ac);
    AdjustedInRange(FinalCoefficient(x.Value(), m.Value()), m.Value());
  }

  /** The inverse where it is not ruled out by both numbers being even. */
  method Invert(x: BigInteger, m: BigInteger, ac: bool) returns (r: BigInteger)
    requires x.Valid() && m.Valid() && x.Value() > 0 && m.Value() > 0
    requires ac == (m.Value() % 2 == 0) && (ac ==> x.Value() % 2 == 1)
    ensures r.Valid() && fresh(r)
    ensures Gcd(m.Value(), x.Value()) == 1 ==> Cong(r.Value() * x.Value(), 1, m.Value())
    ensures Gcd(m.Value(), x.Value()) == 1 ==>
        r.Value() == Adjusted(FinalCoefficient(x.Value(), m.Value()), m.Value())
    ensures Gcd(m.Value(), x.Value()) != 1 ==> r.Value() == 0
  {
    hide Gcd, Cong, Last, Turn;
    var u := Clone(m);
    var v := Clone(x);
    var a := Nbv(1);
    var b := Nbv(0);
    var c := Nbv(0);
    var d := Nbv(1);
    InitialTracks(m.Value(), x.Value());
    r := InverseLoop(u, v, a, b, c, d, x, m, ac);
  }

  lemma {:induction false} BothEven(M: nat, T: nat)
    requires M > 0 && M % 2 == 0 && T % 2 == 0
    ensures Gcd(M, T) != 1
  {
    GcdGreatest(M, T, 2);
  }

  lemma {:induction false} InitialTracks(M: int, T: int)
    requires M > 0
    ensures Tracks(M, 1, 0, M, T, true) && Tracks(T, 0, 1, M, T, true)
  {
    CongFromMultiple(0 * T, M, -1, M);
  }

  method InverseLoop(u: BigInteger, v: BigInteger, a: BigInteger, b: BigInteger, c: BigInteger, d: BigInteger,
                     x: BigInteger, m: BigInteger, ac: bool) returns (r: BigInteger)
    requires x.Valid() && m.Valid() && m.Value() > 0 && x.Value() > 0 && {u, v, a, b, c, d} !! {x, m}
    requires ac == (m.Value() % 2 == 0) && (ac ==> x.Value() % 2 == 1)
    requires Extended(u, v, a, b, c, d, m.Value(), x.Value(), ac)
    modifies u, v, a, b, c, d
    ensures r.Valid() && (r == d || fresh(r))
    ensures Gcd(m.Value(), x.Value()) == 1 ==> Cong(r.Value() * x.Value(), 1, m.Value())
    ensures Gcd(m.Value(), x.Value()) == 1 ==>
        r.Value() == Adjusted(old(Last(TrackOf(u, a, b), TrackOf(v, c, d), x.Value(), m.Value())).b, m.Value())
    ensures Gcd(m.Value(), x.Value()) != 1 ==> r.Value() == 0
  {
    ghost var last := Last(TrackOf(u, a, b), TrackOf(v, c, d), x.Value(), m.Value());
    var su := SigNum(u);
    while su != 0
      invariant Extended(u, v, a, b, c, d, m.Value(), x.Value(), ac)
      invariant su == 0 <==> u.Value() == 0
      invariant Last(TrackOf(u, a, b), TrackOf(v, c, d), x.Value(), m.Value()) == last
      decreases u.Value() + v.Value()
    {
      ExtendedStep(u, v, a, b, c, d, x, m, ac);
      su := SigNum(u);
    }
    GcdSym(0, v.Value());
    var one := Nbv(1);
    SignOf(v); SignOf(one);
    var cmp := CompareTo(v, one);
    if cmp != 0 {
      r := Nbv(0);
    } else {
      r := Adjust(d, m, x.Value());
    }
  }
}
