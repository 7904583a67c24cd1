/** Reading an exponent from the top in windows of bits. */
module Windows {
  import opened Numbers
  import opened Digits
  import opened Compare

  /** q is what stands above the p lowest bits of e. */
  ghost predicate IsPrefix(q: int, e: int, p: nat) {
    Shift(q, p) <= e < Shift(q + 1, p)
  }

  lemma {:induction false} PrefixUnique(q: int, q': int, e: int, p: nat)
    requires IsPrefix(q, e, p) && IsPrefix(q', e, p)
    ensures q == q'
  {
    if q < q' { ShiftMono(q + 1, q', p); }
    if q' < q { ShiftMono(q' + 1, q, p); }
  }

  lemma {:induction false} PrefixWhole(q: int, e: int)
    requires IsPrefix(q, e, 0)
    ensures q == e
  {}

  /** A shorter prefix of a prefix. */
  lemma {:induction false} PrefixDiv(q: int, e: int, p: nat, m: nat)
    requires IsPrefix(q, e, p)
    ensures Pow(2, m) > 0 && IsPrefix(q / Pow(2, m), e, p + m)
    ensures q == Shift(q / Pow(2, m), m) + q % Pow(2, m)
  {
    PowPos(2, m);
    var h := q / Pow(2, m);
    DivMod(q, Pow(2, m));
    ShiftPow(h, m); ShiftPow(h + 1, m);
    MulDistrib(Pow(2, m), h, 1);
    ShiftMono(Shift(h, m), q, p);
    ShiftMono(q + 1, Shift(h + 1, m), p);
    ShiftShift(h, m, p); ShiftShift(h + 1, m, p);
  }

  /** Trailing zeros of a prefix can be left for later. */
  lemma {:induction false} PrefixTrim(q: int, e: int, p: nat, m: nat)
    requires IsPrefix(Shift(q, m), e, p)
    ensures IsPrefix(q, e, p + m)
  {
    ShiftShift(q, m, p); ShiftShift(q + 1, m, p);
    ShiftAdd(q, 1, m);
    ShiftMono(0, 1, m);
    ShiftMono(Shift(q, m) + 1, Shift(q + 1, m), p);
  }

  lemma {:induction false} ShiftMod(v: int, m: nat, k: nat, d: int)
    requires k <= m
    ensures Pow(2, k) > 0 && (Shift(v, m) + d) % Pow(2, k) == d % Pow(2, k)
  {
    PowPos(2, k);
    ShiftShift(v, m - k, k);
    ShiftPow(Shift(v, m - k), k);
    CongFromMultiple(Shift(v, m) + d, d, Shift(v, m - k), Pow(2, k));
  }

  /** The prefix of a number in digits, read at bit i of digit j. */
  ghost function At(d: seq<int>, n: nat, j: nat, i: nat): int
    requires j < n <= |d| && i < 28
  {
    PowPos(2, i);
    Shift(Val(d, j + 1, n), 28 - i) + d[j] / Pow(2, i)
  }

  /** Within one digit. */
  lemma {:induction false} AtWithin(d: seq<int>, n: nat, j: nat, i: nat)
    requires j < n && AreDigits(d, 0, n) && i < 28
    ensures IsPrefix(At(d, n, j, i), Val(d, j, n), i)
  {
    var q, h := At(d, n, j, i), d[j] / Pow(2, i);
    ValLow(d, j, n);
    PowPos(2, i);
    DivMod(d[j], Pow(2, i));
    ShiftPow(h, i);
    ShiftPow(1, i);
    ShiftShift(Val(d, j + 1, n), 28 - i, i);
    ShiftPow(Val(d, j + 1, n), 28);
    PowDV();
    ShiftAdd(Shift(Val(d, j + 1, n), 28 - i), h, i);
    ShiftAdd(q, 1, i);
  }

  lemma {:induction false} PrefixPrefix(q: int, h: int, e: int, p: nat, i: nat)
    requires IsPrefix(h, e, p) && IsPrefix(q, h, i)
    ensures IsPrefix(q, e, p + i)
  {
    ShiftMono(Shift(q, i), h, p);
    ShiftMono(h + 1, Shift(q + 1, i), p);
    ShiftShift(q, i, p);
    ShiftShift(q + 1, i, p);
  }

  lemma {:induction false} AtIsPrefix(d: seq<int>, n: nat, j: nat, i: nat)
    requires j < n && AreDigits(d, 0, n) && i < 28
    ensures IsPrefix(At(d, n, j, i), Val(d, 0, n), 28 * j + i)
  {
    var hi := Val(d, j, n);
    ValSplit(d, 0, j, n);
    ValBound(d, 0, j);
    PlaceAdd(hi, 1, j);
    PlaceShift(hi, j);
    PlaceShift(hi + 1, j);
    AtWithin(d, n, j, i);
    PrefixPrefix(At(d, n, j, i), hi, Val(d, 0, n), 28 * j, i);
  }

  /** (d & (1 << i)) != 0 */
  predicate BitSet(d: int, i: nat) {
    PowPos(2, i);
    d / Pow(2, i) % 2 == 1
  }

  lemma {:induction false} AtParity(d: seq<int>, n: nat, j: nat, i: nat)
    requires j < n <= |d| && i < 28
    ensures At(d, n, j, i) % 2 == 1 <==> BitSet(d[j], i)
  {
    PowPos(2, i);
    ShiftMod(Val(d, j + 1, n), 28 - i, 1, d[j] / Pow(2, i));
    assert Pow(2, 1) == 2;
  }

  lemma {:induction false} WindowWord(d: int, i: nat, k: nat)
    requires i < k - 1 && k < 28 && 0 <= d < DV
    ensures Low(d, i + 1) >= 0 && 0 <= Shift(Low(d, i + 1), k - 1 - i) < Pow(2, k) <= DV
  {
    PowPos(2, i + 1);
    PowDV();
    PowMono(2, k, 28);
    ShiftMono(0, Low(d, i + 1), k - 1 - i);
    ShiftMono(Low(d, i + 1), Pow(2, i + 1) - 1, k - 1 - i);
    ShiftAdd(Pow(2, i + 1), 1, k - 1 - i);
    ShiftMono(0, 1, k - 1 - i);
    ShiftPow(Pow(2, i + 1), k - 1 - i);
    PowAdd(2, i + 1, k - 1 - i);
  }

  /** Joining the low bits of one digit to the high bits of the digit below. */
  lemma {:induction false} JoinDigits(d: seq<int>, n: nat, j: nat, i: nat, k: nat)
    requires 0 < j < n && AreDigits(d, 0, n) && i < k - 1 && k < 28
    ensures 0 <= Shift(Low(d[j], i + 1), k - 1 - i)
    ensures Or(Shift(Low(d[j], i + 1), k - 1 - i), Shr(d[j - 1], 28 + i - (k - 1)))
         == At(d, n, j - 1, 28 + i - (k - 1)) % Pow(2, k)
  {
    var m, r := k - 1 - i, 28 + i - (k - 1);
    var lo, hi := Low(d[j], i + 1), Shr(d[j - 1], r);
    hide Low, Or, Shr, At, Val, Shift, Pow;
    WindowWord(d[j], i, k);
    DivBelow28(d[j - 1], m);
    OrDisjoint(hi, lo, m);
    OrComm(hi, Shift(lo, m));
    ValLow(d, j, n);
    JoinMod(d[j], Val(d, j + 1, n), i + 1, m, hi);
    JoinRange(lo, hi, i + 1, m);
  }

  lemma {:induction false} DivBelow28(d: int, m: nat)
    requires 0 <= d < DV && 0 < m < 28
    ensures 0 <= Shr(d, 28 - m) < Pow(2, m)
  {
    PowDV();
    PowAdd(2, m, 28 - m);
    DivBelow(d, Pow(2, m), Pow(2, 28 - m));
  }

  /** Modulo 2^(a+m) only the a low bits of the upper digit remain. */
  lemma {:induction false} JoinMod(d: int, v: int, a: nat, m: nat, hi: int)
    requires a + m < 28
    ensures (Shift(d + DV * v, m) + hi) % Pow(2, a + m) == (Shift(d % Pow(2, a), m) + hi) % Pow(2, a + m)
  {
    var q := d / Pow(2, a);
    DivMod(d, Pow(2, a));
    ShiftPow(q, a);
    ShiftPow(v, 28); PowDV();
    ShiftAdd(d, DV * v, m);
    ShiftAdd(Shift(q, a), d % Pow(2, a), m);
    ShiftShift(q, a, m);
    ShiftShift(v, 28, m);
    ShiftMod(v, 28 + m, a + m, Shift(d, m) + hi);
    ShiftMod(q, a + m, a + m, Shift(d % Pow(2, a), m) + hi);
  }

  lemma {:induction false} JoinRange(lo: int, hi: int, a: nat, m: nat)
    requires 0 <= lo < Pow(2, a) && 0 <= hi < Pow(2, m)
    ensures 0 <= Shift(lo, m) + hi < Pow(2, a + m)
    ensures (Shift(lo, m) + hi) % Pow(2, a + m) == Shift(lo, m) + hi
  {
    ShiftMono(0, lo, m);
    ShiftMono(lo + 1, Pow(2, a), m);
    ShiftAdd(lo, 1, m);
    ShiftPow(1, m);
    ShiftPow(Pow(2, a), m);
    PowAdd(2, a, m);
    DivUnique(Shift(lo, m) + hi, Pow(2, a + m), 0, Shift(lo, m) + hi);
  }

  /** The low bits of a number are those of its lowest digit. */
  lemma {:induction false} LowestDigit(d: seq<int>, n: nat, a: nat)
    requires 0 < n && AreDigits(d, 0, n) && a < 28
    ensures Val(d, 0, n) % Pow(2, a) == Low(d[0], a)
  {
    ValLow(d, 0, n);
    ShiftPow(Val(d, 1, n), 28);
    PowDV();
    ShiftMod(Val(d, 1, n), 28, a, d[0]);
  }

  /** A window within one digit. */
  lemma {:induction false} WithinDigit(d: seq<int>, n: nat, j: nat, i: nat, k: nat)
    requires j < n && AreDigits(d, 0, n) && i < 28 && k <= 28 - i
    ensures At(d, n, j, i) % Pow(2, k) == Shr(d[j], i) % Pow(2, k)
  {
    ShiftMod(Val(d, j + 1, n), 28 - i, k, d[j] / Pow(2, i));
  }

  /** The window of k bits whose top bit is bit i of digit j, with zeros below the lowest
      bit. Where the window does not pass that end, q is the prefix it closes. */
  method ReadWindow(d: seq<int>, n: nat, j: nat, i: nat, k: nat) returns (w: int, ghost q: int)
    requires j < n && AreDigits(d, 0, n) && i < 28 && 1 <= k < 28
    ensures 0 <= w < Pow(2, k)
    ensures 28 * j + i >= k - 1 ==> IsPrefix(q, Val(d, 0, n), 28 * j + i - (k - 1)) && w == q % Pow(2, k)
    ensures j == 0 && i < k - 1 ==> w == Shift(Val(d, 0, n) % Pow(2, i + 1), k - 1 - i)
  {
    var k1 := k - 1;
    if i >= k1 {
      w := Low(Shr(d[j], i - k1), k);
      q := At(d, n, j, i - k1);
      AtIsPrefix(d, n, j, i - k1);
      WithinDigit(d, n, j, i - k1, k);
    } else {
      WindowWord(d[j], i, k);
      w := Shl(Low(d[j], i + 1), k1 - i);
      if j > 0 {
        w := Or(w, Shr(d[j - 1], 28 + i - k1));
        q := At(d, n, j - 1, 28 + i - k1);
        JoinDigits(d, n, j, i, k);
        AtIsPrefix(d, n, j - 1, 28 + i - k1);
      } else {
        q := 0;
        LowestDigit(d, n, i + 1);
      }
    }
  }

  /** w with its trailing zeros taken off, and how many bits are left of k. */
  method StripZeros(w0: int, k: nat) returns (w: int, n: nat)
    requires 1 <= k && Shift(1, k - 1) <= w0 < Shift(1, k)
    ensures 1 <= n <= k && w % 2 == 1 && 0 < w < Shift(1, n) && w0 == Shift(w, k - n)
  {
    w, n := w0, k;
    ShiftMono(0, 1, k - 1);
    while w % 2 == 0
      invariant 1 <= n <= k && Shift(1, n - 1) <= w < Shift(1, n) && w0 == Shift(w, k - n)
      decreases n
    {
      HalveWindow(w, n, k - n);
      w := w / 2;
      n := n - 1;
    }
    ShiftMono(0, 1, n - 1);
  }

  lemma {:induction false} HalveWindow(w: int, n: nat, m: nat)
    requires n >= 1 && w % 2 == 0 && Shift(1, n - 1) <= w < Shift(1, n)
    ensures n >= 2 && Shift(w / 2, m + 1) == Shift(w, m)
    ensures Shift(1, n - 2) <= w / 2 < Shift(1, n - 1)
  {
    ShiftShift(w / 2, 1, m);
    assert Shift(w / 2, 1) == 2 * Shift(w / 2, 0);
    assert Shift(1, 1) == 2 * Shift(1, 0);
  }

  /** The prefix that a stripped window extends. */
  lemma {:induction false} WindowExtends(e: int, h: int, p: nat, k: nat, q: int, w0: int, w: int, n: nat)
    requires 1 <= n <= k <= p + 1 && IsPrefix(h, e, p + 1) && IsPrefix(q, e, p + 1 - k)
    requires w0 == q % Pow(2, k) && w0 == Shift(w, k - n)
    ensures IsPrefix(Shift(h, n) + w, e, p + 1 - n)
  {
    PrefixDiv(q, e, p + 1 - k, k);
    PrefixUnique(q / Pow(2, k), h, e, p + 1);
    ShiftShift(h, n, k - n);
    ShiftAdd(Shift(h, n), w, k - n);
    PrefixTrim(Shift(h, n) + w, e, p + 1 - k, k - n);
  }

  lemma {:induction false} OddShift(y: int, a: nat, w: int, b: nat)
    requires Shift(y, a) == Shift(w, b) && w % 2 == 1
    ensures a <= b && y == Shift(w, b - a)
  {
    if a > b {
      HigherShiftIsEven(y, a - b - 1, w, b);
    } else {
      ShiftShift(w, b - a, a);
      ShiftMono(Shift(w, b - a), y, a); ShiftMono(y, Shift(w, b - a), a);
    }
  }

  /** The same at the low end, where the window was filled up with zeros. */
  lemma {:induction false} WindowEnds(e: int, h: int, p: nat, k: nat, w: int, n: nat)
    requires 1 <= n <= k && p < k - 1 && IsPrefix(h, e, p + 1) && w % 2 == 1
    requires Shift(e % Pow(2, p + 1), k - 1 - p) == Shift(w, k - n)
    ensures n <= p + 1 && IsPrefix(Shift(h, n) + w, e, p + 1 - n)
  {
    var y := e % Pow(2, p + 1);
    DivMod(e, Pow(2, p + 1));
    PrefixDiv(e, e, 0, p + 1);
    PrefixUnique(e / Pow(2, p + 1), h, e, p + 1);
    OddShift(y, k - 1 - p, w, k - n);
    ShiftShift(h, n, p + 1 - n);
    ShiftAdd(Shift(h, n), w, p + 1 - n);
    assert e == Shift(Shift(h, n) + w, p + 1 - n);
    ShiftMono(Shift(h, n) + w, Shift(h, n) + w + 1, p + 1 - n);
  }

  /** A set bit at the head makes the window start with a one. */
  lemma {:induction false} WindowStarts(e: int, p: nat, b: int, k: nat, q: int, w: int)
    requires 1 <= k <= p + 1 && IsPrefix(b, e, p) && b % 2 == 1 && IsPrefix(q, e, p + 1 - k)
    requires w == q % Pow(2, k)
    ensures Shift(1, k - 1) <= w < Shift(1, k)
  {
    PrefixDiv(q, e, p + 1 - k, k - 1);
    PrefixUnique(q / Pow(2, k - 1), b, e, p);
    PrefixDiv(q, e, p + 1 - k, k);
    ShiftPow(1, k); ShiftPow(1, k - 1);
    DivMod(q, Pow(2, k)); DivMod(q, Pow(2, k - 1));
    OddQuotient(q, k);
  }

  lemma {:induction false} OddQuotient(q: int, k: nat)
    requires k >= 1 && (q / Pow(2, k - 1)) % 2 == 1
    ensures q % Pow(2, k) >= Pow(2, k - 1)
  {
    var m := Pow(2, k - 1);
    DivDiv(q, m, 2);
    MulComm(m, 2);
    DivMod(q, m); DivMod(q, 2 * m);
    var a := q / m;
    assert a == 2 * (a / 2) + 1;
    assert a * m == (a / 2) * (2 * m) + m by { MulAssoc(a / 2, 2, m); MulDistrib(m, 2 * (a / 2), 1); }
  }

  /** The same at the low end. */
  lemma {:induction false} WindowStartsLow(e: int, p: nat, b: int, k: nat)
    requires p < k - 1 && IsPrefix(b, e, p) && b % 2 == 1
    ensures Shift(1, k - 1) <= Shift(e % Pow(2, p + 1), k - 1 - p) < Shift(1, k)
  {
    PrefixDiv(e, e, 0, p);
    PrefixUnique(e / Pow(2, p), b, e, p);
    OddQuotient(e, p + 1);
    DivMod(e, Pow(2, p + 1));
    ShiftPow(1, p); ShiftPow(1, p + 1);
    ShiftMono(Shift(1, p), e % Pow(2, p + 1), k - 1 - p);
    ShiftMono(e % Pow(2, p + 1), Shift(1, p + 1), k - 1 - p);
    ShiftShift(1, p, k - 1 - p); ShiftShift(1, p + 1, k - 1 - p);
  }

  /** A window read at a set bit, stripped: w is odd, and h extended by its n bits is the
      prefix n places further down. */
  method NextWindow(d: seq<int>, t: nat, j: nat, i: nat, k: nat, ghost h: int) returns (w: int, n: nat)
    requires j < t && AreDigits(d, 0, t) && i < 28 && 1 <= k < 28
    requires BitSet(d[j], i) && IsPrefix(h, Val(d, 0, t), 28 * j + i + 1)
    ensures 1 <= n <= k && n <= 28 * j + i + 1 && w % 2 == 1 && 0 < w < Shift(1, n)
    ensures IsPrefix(Shift(h, n) + w, Val(d, 0, t), 28 * j + i + 1 - n)
  {
    ghost var p, e := 28 * j + i, Val(d, 0, t);
    var w0: int;
    ghost var q: int;
    w0, q := ReadWindow(d, t, j, i, k);
    AtIsPrefix(d, t, j, i);
    AtParity(d, t, j, i);
    if p >= k - 1 { WindowStarts(e, p, At(d, t, j, i), k, q, w0); } else { WindowStartsLow(e, p, At(d, t, j, i), k); }
    w, n := StripZeros(w0, k);
    if p >= k - 1 { WindowExtends(e, h, p, k, q, w0, w, n); } else { WindowEnds(e, h, p, k, w, n); }
  }

  /** A clear bit doubles the prefix. */
  lemma {:induction false} ZeroBit(d: seq<int>, t: nat, j: nat, i: nat, h: int)
    requires j < t && AreDigits(d, 0, t) && i < 28 && !BitSet(d[j], i)
    requires IsPrefix(h, Val(d, 0, t), 28 * j + i + 1)
    ensures IsPrefix(2 * h, Val(d, 0, t), 28 * j + i)
  {
    var q, e := At(d, t, j, i), Val(d, 0, t);
    AtIsPrefix(d, t, j, i);
    AtParity(d, t, j, i);
    PrefixDiv(q, e, 28 * j + i, 1);
    assert Pow(2, 1) == 2;
    PrefixUnique(q / 2, h, e, 28 * j + i + 1);
  }

  /** The highest set bit: nothing stands above it. */
  lemma {:induction false} TopBit(d: seq<int>, t: nat, i: nat)
    requires t > 0 && AreDigits(d, 0, t) && i < 28 && Shift(1, i) <= d[t - 1] < Shift(1, i + 1)
    ensures BitSet(d[t - 1], i) && IsPrefix(0, Val(d, 0, t), 28 * (t - 1) + i + 1)
  {
    ShiftPow(1, i); ShiftPow(1, i + 1);
    DivUnique(d[t - 1], Pow(2, i), 1, d[t - 1] - Pow(2, i));
    ValBound(d, 0, t - 1);
    ShiftMono(0, 1, i);
    PlaceMono(0, d[t - 1], t - 1);
    PlaceAdd(d[t - 1], 1, t - 1);
    PlaceMono(d[t - 1] + 1, Shift(1, i + 1), t - 1);
    PlaceOfShift(1, t - 1, i + 1);
    ShiftMono(0, 0, 28 * (t - 1) + i + 1);
  }
}
