/** Numbers as little-endian sequences of 28-bit digits, with a sign extension:
    the value of t digits and a sign s in {0, -1} is their weighted sum plus s * DV^t. */
module Digits {
  import opened Numbers

  const DV: int := 0x1000_0000
  const DM: int := 0x0FFF_FFFF

  lemma PowDV()
    ensures Pow(2, 28) == DV && Pow(2, 14) == 0x4000 && Pow(2, 15) == 0x8000
  {
    assert Pow(2, 7) == 128;
    PowAdd(2, 7, 7); PowAdd(2, 14, 14); PowAdd(2, 14, 1);
  }

  /** x & BI_DM: the low digit of a word in two's complement. */
  function LowDigit(x: int): int
    requires Int32(x)
  {
    x % DV
  }

  /** x >> 28: what is carried into the next digit. */
  function Carry(x: int): int
    requires Int32(x)
  {
    x / DV
  }

  predicate AreDigits(a: seq<int>, lo: nat, hi: nat) {
    hi <= |a| && forall k :: lo <= k < hi ==> 0 <= a[k] < DV
  }

  // ----- Places: v moved up n digit places, v * DV^n -----

  function Place(v: int, n: nat): int {
    if n == 0 then v else DV * Place(v, n - 1)
  }

  lemma PlacePow(v: int, n: nat)
    ensures Place(v, n) == v * Pow(DV, n)
  {
    if n > 0 { PlacePow(v, n - 1); MulAssoc(DV, v, Pow(DV, n - 1)); MulAssoc(v, DV, Pow(DV, n - 1)); }
  }

  lemma PlaceAdd(v: int, w: int, n: nat)
    ensures Place(v + w, n) == Place(v, n) + Place(w, n)
    ensures Place(v - w, n) == Place(v, n) - Place(w, n)
  {
    if n > 0 { PlaceAdd(v, w, n - 1); }
  }

  lemma PlacePlace(v: int, m: nat, n: nat)
    ensures Place(v, m + n) == Place(Place(v, m), n)
  {
    if n > 0 { PlacePlace(v, m, n - 1); }
  }

  lemma PlaceMul(x: int, v: int, n: nat)
    ensures Place(x * v, n) == x * Place(v, n)
  {
    if n > 0 { PlaceMul(x, v, n - 1); }
  }

  lemma PlaceMono(v: int, w: int, n: nat)
    ensures v <= w <==> Place(v, n) <= Place(w, n)
    ensures v < w <==> Place(v, n) < Place(w, n)
    ensures Place(0, n) == 0
  {
    if n > 0 { PlaceMono(v, w, n - 1); }
  }

  lemma PlaceGrows(v: int, m: nat, n: nat)
    requires v >= 0 && m <= n
    ensures Place(v, m) <= Place(v, n)
  {
    PlaceMono(0, v, m);
    if m < n { PlaceGrows(v, m, n - 1); PlaceMono(0, v, n - 1); }
  }

  /** Two splittings of one number at the same place agree. */
  lemma PlaceUnique(low: int, high: int, low': int, high': int, n: nat)
    requires low + Place(high, n) == low' + Place(high', n)
    requires 0 <= low < Place(1, n) && 0 <= low' < Place(1, n)
    ensures low == low' && high == high'
  {
    PlacePow(high, n); PlacePow(high', n); PlacePow(1, n);
    MulComm(high, Pow(DV, n));
    MulComm(high', Pow(DV, n));
    SplitUnique(low, high, low', high', Pow(DV, n));
  }

  /** A digit place is 28 bit positions. */
  lemma PlaceShift(v: int, n: nat)
    ensures Place(v, n) == Shift(v, 28 * n)
  {
    if n > 0 {
      PlaceShift(v, n - 1);
      var w := Shift(v, 28 * (n - 1));
      ShiftShift(v, 28 * (n - 1), 28);
      ShiftPow(w, 28);
      PowDV();
    }
  }

  lemma PlaceOfShift(v: int, n: nat, k: nat)
    ensures Place(Shift(v, k), n) == Shift(Place(v, n), k)
    ensures Place(Shift(v, k), n) == Shift(v, k + 28 * n)
  {
    PlaceShift(Shift(v, k), n);
    PlaceShift(v, n);
    ShiftShift(v, k, 28 * n);
    ShiftShift(v, 28 * n, k);
  }

  // ----- Values -----

  /** The value of digits lo..hi, digit lo having weight one. */
  ghost function Val(a: seq<int>, lo: nat, hi: nat): int
    requires hi <= |a|
    decreases hi - lo
  {
    if hi <= lo then 0 else Val(a, lo, hi - 1) + Place(a[hi - 1], hi - 1 - lo)
  }

  lemma ValFrame(a: seq<int>, b: seq<int>, lo: nat, hi: nat)
    requires hi <= |a| && hi <= |b|
    requires forall k :: lo <= k < hi ==> a[k] == b[k]
    ensures Val(a, lo, hi) == Val(b, lo, hi)
    decreases hi - lo
  {
    if lo < hi { ValFrame(a, b, lo, hi - 1); }
  }

  /** The value depends on the digits, not on where they are stored. */
  lemma ValShift(a: seq<int>, lo: nat, b: seq<int>, lo': nat, n: nat)
    requires lo + n <= |a| && lo' + n <= |b|
    requires forall k :: lo <= k < lo + n ==> a[k] == b[k - lo + lo']
    ensures Val(a, lo, lo + n) == Val(b, lo', lo' + n)
  {
    if n > 0 { ValShift(a, lo, b, lo', n - 1); }
  }

  lemma ValSplit(a: seq<int>, lo: nat, mid: nat, hi: nat)
    requires lo <= mid <= hi <= |a|
    ensures Val(a, lo, hi) == Val(a, lo, mid) + Place(Val(a, mid, hi), mid - lo)
    decreases hi - mid
  {
    if mid < hi {
      ValSplit(a, lo, mid, hi - 1);
      PlaceAdd(Val(a, mid, hi - 1), Place(a[hi - 1], hi - 1 - mid), mid - lo);
      PlacePlace(a[hi - 1], hi - 1 - mid, mid - lo);
    } else {
      PlaceMono(0, 0, mid - lo);
    }
  }

  /** Taking off the lowest digit. */
  lemma ValLow(a: seq<int>, lo: nat, hi: nat)
    requires lo < hi <= |a|
    ensures Val(a, lo, hi) == a[lo] + DV * Val(a, lo + 1, hi)
  {
    ValSplit(a, lo, lo + 1, hi);
    assert Val(a, lo, lo) == 0;
    assert Place(Val(a, lo + 1, hi), 0) == Val(a, lo + 1, hi);
  }

  lemma ValBound(a: seq<int>, lo: nat, hi: nat)
    requires AreDigits(a, lo, hi) && lo <= hi
    ensures 0 <= Val(a, lo, hi) < Place(1, hi - lo)
    decreases hi - lo
  {
    if lo < hi {
      ValBound(a, lo, hi - 1);
      var n := hi - 1 - lo;
      PlaceMono(0, a[hi - 1], n);
      PlaceMono(a[hi - 1], DM, n);
      PlaceMul(DV, 1, n);
      PlaceAdd(DV, 1, n);
    }
  }

  /** A non-zero top digit bounds the value from below. */
  lemma ValTop(a: seq<int>, lo: nat, hi: nat)
    requires AreDigits(a, lo, hi) && lo < hi && a[hi - 1] > 0
    ensures Place(1, hi - lo - 1) <= Val(a, lo, hi)
  {
    ValBound(a, lo, hi - 1);
    PlaceMono(1, a[hi - 1], hi - lo - 1);
  }

  lemma ValZero(a: seq<int>, lo: nat, hi: nat)
    requires hi <= |a| && forall k :: lo <= k < hi ==> a[k] == 0
    ensures Val(a, lo, hi) == 0
    decreases hi - lo
  {
    if lo < hi { ValZero(a, lo, hi - 1); PlaceMono(0, 0, hi - 1 - lo); }
  }

  /** Splitting a value below and above a digit boundary is unique. */
  lemma ValSplitUnique(a: seq<int>, lo: nat, mid: nat, hi: nat, low: int, high: int)
    requires lo <= mid <= hi && AreDigits(a, lo, mid) && hi <= |a|
    requires Val(a, lo, hi) == low + Place(high, mid - lo)
    requires 0 <= low < Place(1, mid - lo)
    ensures Val(a, lo, mid) == low && Val(a, mid, hi) == high
  {
    ValSplit(a, lo, mid, hi);
    ValBound(a, lo, mid);
    PlaceUnique(low, high, Val(a, lo, mid), Val(a, mid, hi), mid - lo);
  }

  /** Equal values of equally many digits have equal digits. */
  lemma {:induction false} ValUnique(a: seq<int>, lo: nat, b: seq<int>, lo': nat, n: nat)
    requires AreDigits(a, lo, lo + n) && AreDigits(b, lo', lo' + n)
    requires Val(a, lo, lo + n) == Val(b, lo', lo' + n)
    ensures forall k :: lo <= k < lo + n ==> a[k] == b[k - lo + lo']
  {
    if n > 0 {
      ValBound(a, lo, lo + n - 1);
      ValBound(b, lo', lo' + n - 1);
      PlaceUnique(Val(a, lo, lo + n - 1), a[lo + n - 1], Val(b, lo', lo' + n - 1), b[lo' + n - 1], n - 1);
      ValUnique(a, lo, b, lo', n - 1);
    }
  }

  /** The signed value of t digits with sign extension s. */
  ghost function SVal(a: seq<int>, t: nat, s: int): int
    requires t <= |a|
  {
    Val(a, 0, t) + Place(s, t)
  }

  /** Storing a digit whose carry goes on to the next place keeps the running total. */
  lemma StoreDigit(a: seq<int>, b: seq<int>, i: nat, c: int, e: int, c': int)
    requires i <= |a| && i < |b| && forall k :: 0 <= k < i ==> b[k] == a[k]
    requires b[i] + c' * DV == c + e
    ensures SVal(b, i + 1, c') == SVal(a, i, c) + Place(e, i)
  {
    ValFrame(a, b, 0, i);
    PlaceMul(DV, c', i);
    PlaceAdd(b[i], DV * c', i);
    PlaceAdd(c, e, i);
  }

  predicate Canonical(a: seq<int>, t: nat, s: int) {
    && AreDigits(a, 0, t)
    && (s == 0 || s == -1)
    && (t > 0 ==> a[t - 1] != (if s == 0 then 0 else DM))
  }

  /** The sign decides the sign of the value, the length its size. */
  lemma CanonicalRange(a: seq<int>, t: nat, s: int)
    requires Canonical(a, t, s)
    ensures s == 0 ==> 0 <= SVal(a, t, s) < Place(1, t)
    ensures s == 0 && t > 0 ==> Place(1, t - 1) <= SVal(a, t, s)
    ensures s == -1 ==> -Place(1, t) <= SVal(a, t, s) < 0
    ensures s == -1 && t > 0 ==> SVal(a, t, s) < -Place(1, t - 1)
  {
    ValBound(a, 0, t);
    PlaceMono(0, 0, t);
    PlaceAdd(0, 1, t);
    if t > 0 && s == 0 { ValTop(a, 0, t); }
    if t > 0 && s == -1 {
      ValBound(a, 0, t - 1);
      PlaceMono(a[t - 1], DV - 2, t - 1);
      PlaceMul(DV, 1, t - 1);
      PlaceAdd(DV - 1, 1, t - 1);
      PlaceAdd(DV - 2, 1, t - 1);
    }
  }

  /** A canonical form is determined by its value. */
  lemma CanonicalUnique(a: seq<int>, t: nat, s: int, b: seq<int>, t': nat, s': int)
    requires Canonical(a, t, s) && Canonical(b, t', s')
    requires SVal(a, t, s) == SVal(b, t', s')
    ensures t == t' && s == s' && a[..t] == b[..t']
  {
    CanonicalRange(a, t, s);
    CanonicalRange(b, t', s');
    if t < t' { PlaceGrows(1, t, t' - 1); }
    if t' < t { PlaceGrows(1, t', t - 1); }
    ValUnique(a, 0, b, 0, t);
  }

  /** Dropping a top digit that only repeats the sign keeps the value. */
  lemma DropSignDigit(a: seq<int>, t: nat, s: int)
    requires 0 < t <= |a|
    requires s == 0 || s == -1
    requires a[t - 1] == if s == 0 then 0 else DM
    ensures SVal(a, t, s) == SVal(a, t - 1, s)
  {
    PlaceMul(DV, s, t - 1);
    PlaceAdd(a[t - 1], DV * s, t - 1);
  }

  /** A carry from one digit into the next. */
  lemma {:induction false} CarryWithin(D: seq<int>, D': seq<int>, w: nat, t: nat)
    requires w + 1 < t <= |D| == |D'| && D'[w] == D[w] - DV && D'[w + 1] == D[w + 1] + 1
    requires forall k :: 0 <= k < t && k != w && k != w + 1 ==> D'[k] == D[k]
    ensures Val(D', 0, t) == Val(D, 0, t)
  {
    ValSplit(D, 0, w + 2, t); ValSplit(D', 0, w + 2, t);
    ValFrame(D, D', w + 2, t); ValFrame(D, D', 0, w);
    PlaceAdd(D[w], DV, w);
    PlaceAdd(D[w + 1], 1, w + 1);
    PlaceMul(DV, 1, w);
  }
}
