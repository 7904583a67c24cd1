/** Digits of 28 bits read or written in groups of k bits, which straddle their borders. */
module BitGroups {
  import opened Numbers
  import opened Digits
  import opened BigIntegers
  import opened Shifts

  // ----- Reading from the top -----

  /** The value above digit i. */
  ghost function Upper(a: seq<int>, t: nat, s: int, i: nat): int
    requires i <= t <= |a|
  {
    Val(a, i, t) + Place(s, t - i)
  }

  /** What stands above the p lowest bits of digit i. */
  ghost function Above(a: seq<int>, t: nat, s: int, i: int, p: nat): int
    requires -1 <= i < t && p <= 28 && AreDigits(a, 0, t)
  {
    if i < 0 then Upper(a, t, s, 0) else Shift(Upper(a, t, s, i + 1), 28 - p) + Shr(a[i], p)
  }

  lemma {:induction false} UpperStep(a: seq<int>, t: nat, s: int, i: nat)
    requires i < t <= |a|
    ensures Upper(a, t, s, i) == a[i] + DV * Upper(a, t, s, i + 1)
  {
    ValLow(a, i, t);
  }

  /** Bits above position p of a digit. */
  lemma {:induction false} DigitSplit(d: int, p: nat)
    requires 0 <= d < DV && p <= 28
    ensures d == Shift(Shr(d, p), p) + Low(d, p) && 0 <= Low(d, p) < Pow(2, p)
    ensures 0 <= Shr(d, p) < Pow(2, 28 - p)
  {
    if p < 28 {
      UnshiftDigit(d, p);
    } else {
      PowDV();
      DivUnique(d, DV, 0, d);
      ShiftMono(0, 0, 28);
    }
  }

  /** A group across the border of two digits: p bits of the upper, k - p of the lower. */
  lemma {:induction false} Straddle(u: int, d: int, l: int, p: nat, k: nat)
    requires 0 <= d < DV && 0 <= l < DV && 0 < p < k <= 8
    ensures Int32(Shift(Low(d, p), k - p)) && 0 <= Shift(Low(d, p), k - p) && 0 <= Shr(l, p + 28 - k)
    ensures Or(Shift(Low(d, p), k - p), Shr(l, p + 28 - k)) == Shift(Low(d, p), k - p) + Shr(l, p + 28 - k)
    ensures 0 <= Shift(Low(d, p), k - p) + Shr(l, p + 28 - k) < Pow(2, k)
    ensures Shift(d + DV * u, k - p) + Shr(l, p + 28 - k)
         == Shift(Shift(u, 28 - p) + Shr(d, p), k) + (Shift(Low(d, p), k - p) + Shr(l, p + 28 - k))
  {
    DigitSplit(d, p);
    DigitSplit(l, p + 28 - k);
    StraddleJoin(Low(d, p), Shr(l, p + 28 - k), p, k);
    StraddleValue(u, d, Shr(d, p), Low(d, p), p, k);
  }

  lemma {:induction false} StraddleJoin(w: int, q: int, p: nat, k: nat)
    requires 0 < p < k <= 8 && 0 <= w < Pow(2, p) && 0 <= q < Pow(2, k - p)
    ensures 0 <= Shift(w, k - p) && Or(Shift(w, k - p), q) == Shift(w, k - p) + q
    ensures 0 <= Shift(w, k - p) + q < Pow(2, k) <= 256
  {
    ShiftMono(0, w, k - p); ShiftMono(w + 1, Pow(2, p), k - p);
    ShiftAdd(w, 1, k - p); ShiftPow(1, k - p); ShiftPow(Pow(2, p), k - p); PowAdd(2, p, k - p);
    PowMono(2, k, 8); PowEight();
    OrDisjoint(q, w, k - p);
    OrComm(q, Shift(w, k - p));
  }

  lemma {:induction false} StraddleValue(u: int, d: int, h: int, w: int, p: nat, k: nat)
    requires 0 < p < k <= 8 && d == Shift(h, p) + w
    ensures Shift(d + DV * u, k - p) == Shift(Shift(u, 28 - p) + h, k) + Shift(w, k - p)
  {
    ShiftAdd(Shift(h, p), w, k - p); ShiftShift(h, p, k - p);
    ShiftAdd(d, DV * u, k - p);
    ShiftAdd(Shift(u, 28 - p), h, k);
    ShiftShift(u, 28 - p, k); ShiftShift(u, 28, k - p); ShiftPow(u, 28); PowDV(); MulComm(u, DV);
  }

  lemma {:induction false} PowEight()
    ensures Pow(2, 8) == 256
  {
    assert Pow(2, 8) == 2 * Pow(2, 7); assert Pow(2, 7) == 2 * Pow(2, 6); assert Pow(2, 6) == 2 * Pow(2, 5);
    assert Pow(2, 5) == 2 * Pow(2, 4); assert Pow(2, 4) == 2 * Pow(2, 3); assert Pow(2, 3) == 2 * Pow(2, 2);
    assert Pow(2, 2) == 2 * Pow(2, 1); assert Pow(2, 1) == 2 * Pow(2, 0);
  }

  lemma {:induction false} StraddleAt(a: seq<int>, t: nat, s: int, i: nat, p: nat, k: nat)
    requires AreDigits(a, 0, t) && 0 < i < t && 0 < p < k <= 8
    ensures var h, l := Low(a[i], p), Shr(a[i - 1], p + 28 - k);
            && Int32(Shift(h, k - p)) && 0 <= Shift(h, k - p) && 0 <= l
            && 0 <= Or(Shift(h, k - p), l) < Pow(2, k)
            && Above(a, t, s, i - 1, p + 28 - k) == Shift(Above(a, t, s, i, p), k) + Or(Shift(h, k - p), l)
  {
    UpperStep(a, t, s, i);
    Straddle(Upper(a, t, s, i + 1), a[i], a[i - 1], p, k);
  }

  /** A group inside a digit. */
  lemma {:induction false} Inside(u: int, d: int, p: nat, k: nat)
    requires 0 <= d < DV && 1 <= k <= 8 && k <= p <= 28
    ensures 0 <= Low(Shr(d, p - k), k) < Pow(2, k)
    ensures Shift(u, 28 - (p - k)) + Shr(d, p - k) == Shift(Shift(u, 28 - p) + Shr(d, p), k) + Low(Shr(d, p - k), k)
  {
    ShrShr(d, p - k, k);
    DigitSplit(d, p - k);
    PowMono(2, 0, p - k);
    DigitSplit(Shr(d, p - k), k);
    ShiftAdd(Shift(u, 28 - p), Shr(d, p), k);
    ShiftShift(u, 28 - p, k);
  }

  lemma {:induction false} ShrShr(d: int, m: nat, k: nat)
    requires 0 <= d < DV && m + k <= 28
    ensures 0 <= Shr(d, m) < DV && Shr(Shr(d, m), k) == Shr(d, m + k)
  {
    PowPos(2, m); PowPos(2, k);
    DivPos(d, Pow(2, m));
    DivDiv(d, Pow(2, m), Pow(2, k));
    PowAdd(2, m, k);
  }

  /** The next k bits below position p of digit i, and the position behind them. */
  method NextGroup(a: seq<int>, t: nat, s: int, i: int, p: int, k: nat) returns (d: int, i': int, p': int)
    requires AreDigits(a, 0, t) && 0 <= i < t && 0 < p <= 28 && 1 <= k <= 8 && (28 * i + p) % k == 0
    ensures 0 <= d < Pow(2, k) && -1 <= i' < t && 0 < p' <= 28 && (i' < 0 ==> p' == 28)
    ensures 28 * i' + p' == 28 * i + p - k && (28 * i' + p') % k == 0
    ensures Above(a, t, s, i', p') == Shift(Above(a, t, s, i, p), k) + d
  {
    GroupsLeft(28 * i + p, k);
    if p < k {
      StraddleAt(a, t, s, i, p, k);
      d := Shl(Low(a[i], p), k - p);
      p' := p + 28 - k;
      i' := i - 1;
      d := Or(d, Shr(a[i'], p'));
    } else {
      ghost var u := Upper(a, t, s, i + 1);
      UpperStep(a, t, s, i);
      Inside(u, a[i], p, k);
      p' := p - k;
      i' := i;
      d := Low(Shr(a[i], p'), k);
      if p' <= 0 {
        WholeDigit(u, a[i]);
        p' := p' + 28;
        i' := i' - 1;
        NoneTaken(a, t, s, i');
      }
    }
  }

  lemma {:induction false} GroupsLeft(n: int, k: nat)
    requires n > 0 && 1 <= k && n % k == 0
    ensures n >= k && (n - k) % k == 0
  {
    DivMod(n, k);
    if n < k { DivUnique(n, k, 0, n); }
    assert n - k == (n / k - 1) * k;
    DivUnique(n - k, k, n / k - 1, 0);
  }

  lemma {:induction false} WholeDigit(u: int, d: int)
    requires 0 <= d < DV
    ensures Shift(u, 28) + Shr(d, 0) == d + DV * u
  {
    ShiftPow(u, 28); PowDV(); MulComm(u, DV);
    assert Pow(2, 0) == 1;
  }

  lemma {:induction false} NoneTaken(a: seq<int>, t: nat, s: int, i: int)
    requires -1 <= i < t && AreDigits(a, 0, t)
    ensures Above(a, t, s, i, 28) == Upper(a, t, s, i + 1)
  {
    if i >= 0 { DigitSplit(a[i], 28); }
  }

  /** Where reading starts: the topmost digit holds all but a whole number of groups. */
  lemma {:induction false} FirstPosition(a: seq<int>, t: nat, s: int, k: nat, p: int)
    requires AreDigits(a, 0, t) && t > 0 && 1 <= k <= 8 && p == 28 - (28 * t) % k
    ensures 20 < p <= 28 && (28 * (t - 1) + p) % k == 0
    ensures Above(a, t, s, t - 1, p) == Shift(s, 28 - p) + Shr(a[t - 1], p)
    ensures 0 <= Shr(a[t - 1], p) < Pow(2, 28 - p) && Pow(2, 28 - p) <= Pow(2, k - 1)
  {
    DivMod(28 * t, k);
    DivUnique(28 * (t - 1) + p, k, 28 * t / k, 0);
    DigitSplit(a[t - 1], p);
    PowMono(2, 28 - p, k - 1);
  }

  // ----- Writing from the bottom -----

  /** n bits have been written: sh of them in the topmost digit, unless it is full. */
  ghost predicate Packed(a: seq<int>, t: int, sh: int, n: nat) {
    && 0 <= t && AreDigits(a, 0, t) && 0 <= sh < 28
    && (if sh == 0 then n == 28 * t else t > 0 && n == 28 * (t - 1) + sh && a[t - 1] < Pow(2, sh))
  }

  lemma {:induction false} PackedBound(a: seq<int>, t: nat, x: int, b: seq<int>)
    requires AreDigits(a, 0, t) && t < |b| && b[t] == x && forall k :: 0 <= k < t ==> b[k] == a[k]
    ensures Val(b, 0, t + 1) == Val(a, 0, t) + Shift(x, 28 * t)
  {
    ValFrame(a, b, 0, t);
    PlaceShift(x, t);
  }

  /** Adding to the topmost digit. */
  lemma {:induction false} PackedTop(a: seq<int>, t: nat, x: int, sh: nat, b: seq<int>)
    requires AreDigits(a, 0, t) && 0 < t <= |b| && b[t - 1] == a[t - 1] + Shift(x, sh)
    requires forall k :: 0 <= k < t - 1 ==> b[k] == a[k]
    ensures Val(b, 0, t) == Val(a, 0, t) + Shift(x, 28 * (t - 1) + sh)
  {
    ValFrame(a, b, 0, t - 1);
    PlaceAdd(a[t - 1], Shift(x, sh), t - 1);
    PlaceOfShift(x, t - 1, sh);
  }

  /** A group that does not fit: its low bits fill the digit, its high bits start the next. */
  lemma {:induction false} Overflowing(x: int, k: nat, sh: nat, top: int)
    requires 0 <= x < Pow(2, k) && x < DV && k <= 8 && sh < 28 && sh + k > 28 && 0 <= top < Pow(2, sh)
    ensures 0 <= Low(x, 28 - sh) < Pow(2, 28 - sh) && 0 <= Shift(Low(x, 28 - sh), sh) < DV
    ensures Or(top, Shift(Low(x, 28 - sh), sh)) == top + Shift(Low(x, 28 - sh), sh)
    ensures 0 <= top + Shift(Low(x, 28 - sh), sh) < DV
    ensures 0 <= Shr(x, 28 - sh) < Pow(2, sh + k - 28) && Pow(2, sh + k - 28) <= DV
    ensures Shift(x, sh) == Shift(Low(x, 28 - sh), sh) + DV * Shr(x, 28 - sh)
  {
    ShiftDigit(x, sh);
    ShiftBelow(Low(x, 28 - sh), sh);
    OrDisjoint(top, Low(x, 28 - sh), sh);
    var m := 28 - sh;
    PowAdd(2, k - m, m); PowPos(2, m);
    DivMod(x, Pow(2, m));
    if x / Pow(2, m) >= Pow(2, k - m) { MulLe(Pow(2, k - m), x / Pow(2, m), Pow(2, m)); }
    DivPos(x, Pow(2, m));
    PowMono(2, k - m, 28); PowDV();
  }

  /** A group that fits. */
  lemma {:induction false} Fitting(x: int, k: nat, sh: nat, top: int)
    requires 0 <= x < Pow(2, k) && 1 <= k && 0 < sh && sh + k <= 28 && 0 <= top < Pow(2, sh)
    ensures 0 <= Shift(x, sh) < DV && Or(top, Shift(x, sh)) == top + Shift(x, sh)
    ensures 0 <= top + Shift(x, sh) < Pow(2, sh + k) && Pow(2, sh + k) <= DV
  {
    PowMono(2, k, 28 - sh);
    ShiftBelow(x, sh);
    OrDisjoint(top, x, sh);
    ShiftMono(x + 1, Pow(2, k), sh);
    ShiftAdd(x, 1, sh);
    ShiftPow(Pow(2, k), sh); PowAdd(2, k, sh);
    PowMono(2, sh + k, 28); PowDV();
  }

  /** Append the k bits of x above the n bits written so far. */
  method PutGroup(r: BigInteger, x: int, k: nat, sh: int, ghost n: nat) returns (sh': int)
    requires Packed(r.digits, r.t, sh, n) && 1 <= k <= 8 && 0 <= x < Pow(2, k)
    modifies r`digits, r`t
    ensures Packed(r.digits, r.t, sh', n + k)
    ensures Val(r.digits, 0, r.t) == old(Val(r.digits, 0, r.t)) + Shift(x, n)
  {
    ghost var a, t := r.digits, r.t;
    PowMono(2, k, 8); PowEight();
    if sh == 0 {
      r.Put(r.t, x);
      r.t := r.t + 1;
      PackedBound(a, t, x, r.digits);
    } else if sh + k > 28 {
      PutAcross(r, x, k, sh, n);
    } else {
      Fitting(x, k, sh, r.digits[r.t - 1]);
      r.Put(r.t - 1, Or(r.digits[r.t - 1], Shl(x, sh)));
      PackedTop(a, t, x, sh, r.digits);
    }
    sh' := sh + k;
    if sh' >= 28 { sh' := sh' - 28; }
  }

  method PutAcross(r: BigInteger, x: int, k: nat, sh: nat, ghost n: nat)
    requires Packed(r.digits, r.t, sh, n) && 1 <= k <= 8 && 0 <= x < Pow(2, k) && x < DV && sh < 28 && sh + k > 28
    modifies r`digits, r`t
    ensures r.t == old(r.t) + 1 && AreDigits(r.digits, 0, r.t) && r.digits[r.t - 1] < Pow(2, sh + k - 28)
    ensures Val(r.digits, 0, r.t) == old(Val(r.digits, 0, r.t)) + Shift(x, n)
  {
    ghost var a, t := r.digits, r.t;
    Overflowing(x, k, sh, r.digits[r.t - 1]);
    var low := Low(x, 28 - sh);
    r.Put(r.t - 1, Or(r.digits[r.t - 1], Shl(low, sh)));
    PackedTop(a, t, low, sh, r.digits);
    ghost var b := r.digits;
    r.Put(r.t, Shr(x, 28 - sh));
    r.t := r.t + 1;
    PackedBound(b, t, Shr(x, 28 - sh), r.digits);
    AcrossValue(x, low, Shr(x, 28 - sh), t, sh);
  }

  lemma {:induction false} AcrossValue(x: int, low: int, high: int, t: nat, sh: nat)
    requires t > 0 && Shift(x, sh) == Shift(low, sh) + DV * high
    ensures Shift(low, 28 * (t - 1) + sh) + Shift(high, 28 * t) == Shift(x, 28 * (t - 1) + sh)
  {
    PlaceOfShift(x, t - 1, sh); PlaceOfShift(low, t - 1, sh);
    PlaceAdd(Shift(low, sh), DV * high, t - 1);
    PlaceMul(DV, high, t - 1);
    PlaceShift(high, t);
  }
}
