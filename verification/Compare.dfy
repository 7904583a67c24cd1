/** Ordering, sign tests and bit lengths. */
module Compare {
  import opened Numbers
  import opened Digits
  import opened BigIntegers

  /** The highest differing digit decides. */
  lemma ValCompare(a: seq<int>, b: seq<int>, i: nat, t: nat)
    requires i < t && AreDigits(a, 0, t) && AreDigits(b, 0, t)
    requires forall k :: i < k < t ==> a[k] == b[k]
    requires a[i] > b[i]
    ensures Val(a, 0, t) > Val(b, 0, t)
  {
    ValSplit(a, 0, i + 1, t);
    ValSplit(b, 0, i + 1, t);
    ValFrame(a, b, i + 1, t);
    ValBound(a, 0, i);
    ValBound(b, 0, i);
    PlaceAdd(b[i], 1, i);
    PlaceMono(b[i] + 1, a[i], i);
  }

  /** The difference at the highest place below n where a and b differ. */
  function DigitDifference(a: seq<int>, b: seq<int>, n: nat): int
    requires n <= |a| && n <= |b|
  {
    if n == 0 then 0
    else if a[n - 1] != b[n - 1] then a[n - 1] - b[n - 1]
    else DigitDifference(a, b, n - 1)
  }

  /** What compareTo answers: sign first, then length, then the highest differing digit. */
  function Comparison(a: seq<int>, t: nat, s: int, b: seq<int>, t': nat, s': int): int
    requires t <= |a| && t' <= |b|
  {
    if s != s' then s - s'
    else if t != t' then t - t'
    else DigitDifference(a, b, t)
  }

  lemma {:induction false} DigitDifferenceSign(a: seq<int>, b: seq<int>, n: nat)
    requires AreDigits(a, 0, n) && AreDigits(b, 0, n)
    ensures DigitDifference(a, b, n) > 0 <==> Val(a, 0, n) > Val(b, 0, n)
    ensures DigitDifference(a, b, n) < 0 <==> Val(a, 0, n) < Val(b, 0, n)
  {
    if n > 0 {
      if a[n - 1] > b[n - 1] { ValCompare(a, b, n - 1, n); }
      else if a[n - 1] < b[n - 1] { ValCompare(b, a, n - 1, n); }
      else { DigitDifferenceSign(a, b, n - 1); }
    }
  }

  /** Two negative numbers of different length: the one case compareTo orders backwards. */
  predicate Backwards(t: nat, s: int, t': nat, s': int) {
    s == -1 && s' == -1 && t != t'
  }

  /** The answer has the sign of the difference if and only if the operands are not Backwards. */
  lemma ComparisonExact(a: seq<int>, t: nat, s: int, b: seq<int>, t': nat, s': int)
    requires AreDigits(a, 0, t) && AreDigits(b, 0, t')
    requires (Canonical(a, t, s) && Canonical(b, t', s')) || (t == t' && s == s')
    ensures Comparison(a, t, s, b, t', s') == 0 <==> SVal(a, t, s) == SVal(b, t', s')
    ensures Comparison(a, t, s, b, t', s') > 0 <==>
      if Backwards(t, s, t', s') then SVal(a, t, s) < SVal(b, t', s') else SVal(a, t, s) > SVal(b, t', s')
  {
    if t != t' || s != s' {
      CanonicalRange(a, t, s);
      CanonicalRange(b, t', s');
    }
    if s == s' {
      if t < t' { PlaceGrows(1, t, t' - 1); }
      else if t > t' { PlaceGrows(1, t', t - 1); }
      else { DigitDifferenceSign(a, b, t); }
    }
  }

  /** -2^28 and -1: the smaller number is answered to be the greater. */
  lemma ComparisonCounterexample(none: seq<int>)
    ensures Canonical([0], 1, -1) && Canonical(none, 0, -1)
    ensures SVal([0], 1, -1) < SVal(none, 0, -1)
    ensures Comparison([0], 1, -1, none, 0, -1) > 0
  {
    assert Val([0], 0, 1) == 0 by { ValZero([0], 0, 1); }
    assert Place(-1, 1) == DV * Place(-1, 0);
  }

  /** The sign of the result is the sign of x - a, or its opposite exactly when Backwards. */
  method CompareTo(x: BigInteger, a: BigInteger) returns (r: int)
    requires x.Wf() && a.Wf()
    requires (x.Valid() && a.Valid()) || (x.t == a.t && x.s == a.s)
    ensures r == Comparison(x.digits, x.t, x.s, a.digits, a.t, a.s)
    ensures r == 0 <==> x.Value() == a.Value()
    ensures r > 0 <==> if Backwards(x.t, x.s, a.t, a.s) then x.Value() < a.Value() else x.Value() > a.Value()
  {
    ComparisonExact(x.digits, x.t, x.s, a.digits, a.t, a.s);
    r := x.s - a.s;
    if r != 0 { return; }
    var i := x.t;
    r := i - a.t;
    if r != 0 { return; }
    while i > 0
      invariant 0 <= i <= x.t == a.t
      invariant DigitDifference(x.digits, a.digits, x.t) == DigitDifference(x.digits, a.digits, i)
    {
      i := i - 1;
      r := x.digits[i] - a.digits[i];
      if r != 0 { return; }
    }
    r := 0;
  }

  /** 0 if x == 0, 1 if x > 0, -1 if x < 0. */
  method SigNum(x: BigInteger) returns (r: int)
    requires x.Valid()
    ensures r == if x.Value() < 0 then -1 else if x.Value() == 0 then 0 else 1
  {
    SignOf(x);
    if x.s < 0 { r := -1; }
    else if x.t <= 0 || (x.t == 1 && x.digits[0] <= 0) { r := 0; }
    else { r := 1; }
  }

  /** The lowest digit or, without digits, the sign has the parity of the number. */
  method IsEven(x: BigInteger) returns (r: bool)
    requires x.Wf()
    ensures r <==> x.Value() % 2 == 0
  {
    if x.t > 0 {
      r := x.digits[0] % 2 == 0;
      ValLow(x.digits, 0, x.t);
      var h := 0x800_0000 * (Val(x.digits, 1, x.t) + Place(x.s, x.t - 1));
      assert x.Value() == x.digits[0] + 2 * h;
    } else {
      r := x.s == 0;
    }
  }

  /** If the quotient by 2^r is x, that by 2^(r+k) is x / 2^k. */
  lemma Halve(x: int, v: int, r: nat, k: nat)
    requires Shift(x, r) <= v < Shift(x + 1, r)
    ensures Pow(2, k) > 0
    ensures Shift(x / Pow(2, k), r + k) <= v < Shift(x / Pow(2, k) + 1, r + k)
  {
    PowPos(2, k);
    var q := Pow(2, k);
    var d := x / q;
    DivMod(x, q);
    ShiftPow(d, k); ShiftPow(d + 1, k);
    assert (d + 1) * q == d * q + q;
    ShiftMono(d * q, x, r); ShiftMono(x + 1, (d + 1) * q, r);
    ShiftShift(d, k, r); ShiftShift(d + 1, k, r);
  }

  lemma DivBelow(x: int, p: int, q: int)
    requires 0 <= x < p * q && q > 0
    ensures 0 <= x / q < p
  {
    DivMod(x, q);
    if x / q >= p { MulLe(p, x / q, q); }
    if x / q < 0 { MulLe(x / q, -1, q); }
  }

  /** One probe of nbits: x is at most 2k bits long. */
  method Probe(x: int, r: int, k: nat, ghost v: int) returns (x': int, r': int)
    requires 1 <= x < Pow(2, k) * Pow(2, k) && r >= 1
    requires Shift(x, r - 1) <= v < Shift(x + 1, r - 1)
    ensures 1 <= x' < Pow(2, k) && r' >= r
    ensures Shift(x', r' - 1) <= v < Shift(x' + 1, r' - 1)
  {
    Halve(x, v, r - 1, k);
    DivBelow(x, Pow(2, k), Pow(2, k));
    var t := x / Pow(2, k);
    if t != 0 {
      x', r' := t, r + k;
    } else {
      x', r' := x, r;
      DivMod(x, Pow(2, k));
    }
  }

  /** The bit length of an unsigned 32-bit word (of 0 it is taken to be 1). */
  method NBits(x: int) returns (r: int)
    requires 0 <= x < 0x1_0000_0000
    ensures r >= 1
    ensures x >= 1 ==> Shift(1, r - 1) <= x < Shift(1, r)
    ensures x == 0 ==> r == 1
  {
    PowAdd(2, 8, 8); PowAdd(2, 4, 4);
    if x == 0 { return 1; }
    var y := x;
    y, r := Probe(y, 1, 16, x);
    y, r := Probe(y, r, 8, x);
    y, r := Probe(y, r, 4, x);
    y, r := Probe(y, r, 2, x);
    y, r := Probe(y, r, 1, x);
    assert y == 1;
    ShiftMul(2, 1, r - 1);
  }

  /** -1 - v read digit by digit. */
  lemma ValComplement(a: seq<int>, b: seq<int>, t: nat)
    requires t <= |a| && t <= |b| && forall k :: 0 <= k < t ==> b[k] == DM - a[k]
    ensures Val(b, 0, t) == Place(1, t) - 1 - Val(a, 0, t)
  {
    if t > 0 {
      ValComplement(a, b, t - 1);
      PlaceMul(DV, 1, t - 1);
      PlaceAdd(DV - 1, 1, t - 1);
      PlaceAdd(DM, a[t - 1], t - 1);
    }
  }

  /** The value without its sign, as two's complement counts bits. */
  function Magnitude(v: int): int {
    if v < 0 then -1 - v else v
  }

  lemma TopDigitBits(lo: int, d: int, n: nat, k: nat)
    requires 0 <= lo < Place(1, n) && k >= 1 && Shift(1, k - 1) <= d < Shift(1, k)
    ensures Shift(1, 28 * n + k - 1) <= lo + Place(d, n) < Shift(1, 28 * n + k)
  {
    PlaceMono(Shift(1, k - 1), d, n);
    PlaceMono(d + 1, Shift(1, k), n);
    PlaceAdd(d, 1, n);
    PlaceShift(Shift(1, k - 1), n);
    PlaceShift(Shift(1, k), n);
    ShiftShift(1, k - 1, 28 * n);
    ShiftShift(1, k, 28 * n);
  }

  /** The length of the top digit, sign bits flipped, gives that of the number. */
  lemma TopBits(x: BigInteger, top: int, k: nat)
    requires x.Valid() && x.t > 0 && k >= 1
    requires top == if x.s == 0 then x.digits[x.t - 1] else DM - x.digits[x.t - 1]
    requires Shift(1, k - 1) <= top < Shift(1, k)
    ensures Shift(1, 28 * (x.t - 1) + k - 1) <= Magnitude(x.Value()) < Shift(1, 28 * (x.t - 1) + k)
  {
    var t, d := x.t, x.digits;
    var m := if x.s == 0 then d else seq(t, i requires 0 <= i < |d| => DM - d[i]);
    if x.s == -1 { ValComplement(d, m, t); }
    CanonicalRange(d, t, x.s);
    ValBound(m, 0, t - 1);
    PlaceMono(0, 0, t); PlaceAdd(0, 1, t);
    TopDigitBits(Val(m, 0, t - 1), top, t - 1, k);
  }

  /** The number of bits of x, not counting the sign bit. */
  method BitLength(x: BigInteger) returns (n: int)
    requires x.Valid()
    ensures n >= 0 && (n == 0 <==> Magnitude(x.Value()) == 0)
    ensures n > 0 ==> Shift(1, n - 1) <= Magnitude(x.Value()) < Shift(1, n)
  {
    if x.t <= 0 {
      return 0;
    }
    var top := if x.s == 0 then x.digits[x.t - 1] else DM - x.digits[x.t - 1];
    var k := NBits(top);
    n := 28 * (x.t - 1) + k;
    TopBits(x, top, k);
    ShiftMono(0, 1, n - 1);
  }
}
