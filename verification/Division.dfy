/** Long division, quotient digits being collected above the remainder in one array. */
module Division {
  import opened Numbers
  import opened Digits
  import opened BigIntegers
  import opened Compare
  import opened Shifts
  import opened AddSub
  import opened Multiply
  import opened Quotient

  /** After the quotient digits down to place j: they stand in R at j + ys and above, the
      remainder below, and the top digit of R is not zero. */
  ghost predicate Divided(R: seq<int>, T: nat, j: nat, ys: nat, X: int, Y: int) {
    && 1 <= ys && j + ys <= T && AreDigits(R, 0, T)
    && (T > ys ==> R[T - 1] > 0)
    && Val(R, 0, j + ys) + Place(Val(R, j + ys, T) * Y, j) == X
    && Val(R, 0, j + ys) < Place(Y, j)
  }

  /** The window of ys + 1 digits that decides the quotient digit for place j. */
  lemma Window(R: seq<int>, T: nat, j: nat, ys: nat, X: int, Y: int)
    requires Divided(R, T, j + 1, ys, X, Y) && Y > 0
    ensures 0 <= Val(R, j, j + ys + 1) < DV * Y
    ensures Val(R, 0, j + ys + 1) == Val(R, 0, j) + Place(Val(R, j, j + ys + 1), j)
    ensures 0 <= Val(R, 0, j) < Place(1, j)
  {
    var w := Val(R, j, j + ys + 1);
    ValSplit(R, 0, j, j + ys + 1);
    ValBound(R, 0, j);
    ValBound(R, j, j + ys + 1);
    PlaceMul(DV, Y, j);
    PlaceMono(w, DV * Y, j);
  }

  /** The two top digits of the window and of the divisor. */
  lemma WindowLeading(R: seq<int>, j: nat, ys: nat, y: seq<int>)
    requires ys >= 1 && AreDigits(R, j, j + ys + 1) && AreDigits(y, 0, ys) && y[ys - 1] > 0
    requires Val(R, j, j + ys + 1) < DV * Val(y, 0, ys)
    ensures Leading(Val(R, j, j + ys + 1), Val(y, 0, ys), R[j + ys] * DV + R[j + ys - 1],
                    y[ys - 1] * DV + (if ys > 1 then y[ys - 2] else 0), Place(1, ys - 1))
  {
    var n := ys - 1;
    var p := Place(1, n);
    PlaceMono(0, 1, n);
    ValBound(R, j, j + ys - 1);
    ValBound(R, j, j + ys + 1);
    TopTwo(Val(R, j, j + n), R[j + ys - 1], R[j + ys], n);
    ValTop(y, 0, ys);
    if ys > 1 {
      ValBound(y, 0, ys - 2);
      TopTwo(DV * Val(y, 0, ys - 2), y[ys - 2], y[ys - 1], n);
      PlaceMul(DV, 1, n - 1);
      PlaceMul(DV, y[ys - 2], n - 1); PlaceMul(DV, y[ys - 1], n);
    } else {
      assert Val(y, 0, 0) == 0 && Place(y[0], 0) == y[0];
    }
  }

  lemma TopTwo(low: int, lo: int, hi: int, n: nat)
    requires 0 <= low < Place(1, n)
    ensures (hi * DV + lo) * Place(1, n) <= low + Place(lo, n) + Place(hi, n + 1) < (hi * DV + lo + 1) * Place(1, n)
  {
    PlaceMul(DV, hi, n);
    PlaceAdd(DV * hi, lo, n);
    PlaceMul(hi * DV + lo, 1, n);
    PlaceAdd(hi * DV + lo, 1, n);
    PlaceMul(hi * DV + lo + 1, 1, n);
  }

  /** R' is R after trying the quotient digit p at place j: the window has lost m, p times
      the divisor, and p itself has been added just above the divisor's length. */
  ghost predicate Tried(R: seq<int>, R': seq<int>, T: nat, j: nat, ys: nat, m: int, p: int) {
    && j + ys < T <= |R| && AreDigits(R', 0, T) && R'[T - 1] > 0
    && Val(R', 0, j) == Val(R, 0, j)
    && Val(R', j, j + ys + 1) == Val(R, j, j + ys + 1) + Place(p, ys) - m
    && Val(R', j + ys + 1, T) == Val(R, j + ys + 1, T)
  }

  /** The digit above the remainder is p or more exactly when p was not too large. */
  lemma TrialDecides(R: seq<int>, R': seq<int>, T: nat, j: nat, ys: nat, Y: int, m: int, p: int)
    requires Tried(R, R', T, j, ys, m, p) && 0 < Y < Place(1, ys)
    requires Val(R, j, j + ys + 1) - m < Y
    ensures R'[j + ys] < p <==> Val(R, j, j + ys + 1) < m
    ensures R'[j + ys] >= p ==> R'[j + ys] == p && Val(R', j, j + ys) == Val(R, j, j + ys + 1) - m
  {
    var w := Val(R, j, j + ys + 1) - m;
    ValBound(R', j, j + ys);
    if w >= 0 {
      PlaceUnique(w, p, Val(R', j, j + ys), R'[j + ys], ys);
    } else {
      if R'[j + ys] >= p { PlaceMono(p, R'[j + ys], ys); }
    }
  }

  /** Three parts of a number with its window replaced. */
  lemma ThreeParts(R: seq<int>, j: nat, n: nat, T: nat)
    requires j + n <= T <= |R|
    ensures Val(R, 0, T) == Val(R, 0, j) + Place(Val(R, j, j + n) + Place(Val(R, j + n, T), n), j)
  {
    ValSplit(R, 0, j, T);
    ValSplit(R, j, j + n, T);
  }

  /** The number after subtracting the negated divisor at place j, in parts and in size. */
  lemma TakenBackValue(R: seq<int>, R': seq<int>, T: nat, j: nat, ys: nat, Y: int, p: int)
    requires Tried(R, R', T, j, ys, p * Y, p) && AreDigits(R, 0, T) && R[T - 1] > 0
    requires p >= 1 && 0 < Y < Place(1, ys)
    ensures Place(1, T - 1) <= Val(R', 0, T) - Place(Place(1, ys) - Y, j) < Place(1, T)
    ensures Val(R', 0, T) - Place(Place(1, ys) - Y, j) == Val(R, 0, j)
      + Place((Val(R, j, j + ys + 1) + Place(p - 1, ys) - (p - 1) * Y) + Place(Val(R, j + ys + 1, T), ys + 1), j)
  {
    var n := ys + 1;
    var w', h := Val(R', j, j + n), Val(R, j + n, T);
    WindowGrows(p, Y, ys);
    ThreeParts(R', j, n, T);
    PlaceAdd(w' + Place(h, n), Place(1, ys) - Y, j);
    TopStays(R, T, j, n, w' - (Place(1, ys) - Y));
    ValBound(R', 0, T);
    PlaceMono(0, Place(1, ys) - Y, j);
  }

  /** Subtracting the negated divisor takes back one unit of a trial digit. */
  lemma TakenBack(R: seq<int>, R': seq<int>, R'': seq<int>, T: nat, T'': nat, j: nat, ys: nat, Y: int, p: int)
    requires Tried(R, R', T, j, ys, p * Y, p) && AreDigits(R, 0, T) && R[T - 1] > 0
    requires p >= 1 && 0 < Y < Place(1, ys)
    requires Canonical(R'', T'', 0) && Val(R'', 0, T'') == Val(R', 0, T) - Place(Place(1, ys) - Y, j)
    ensures T'' == T && Tried(R, R'', T, j, ys, (p - 1) * Y, p - 1)
  {
    var n := ys + 1;
    var w'' := Val(R, j, j + n) + Place(p - 1, ys) - (p - 1) * Y;
    TakenBackValue(R, R', T, j, ys, Y, p);
    WindowGrows(p, Y, ys);
    ValBound(R, j, j + n);
    ValBound(R', j, j + n);
    ValBound(R, 0, j);
    SameLength(R'', T'', T);
    ValSplitUnique(R'', 0, j, T, Val(R, 0, j), w'' + Place(Val(R, j + n, T), n));
    ValSplitUnique(R'', j, j + n, T, w'', Val(R, j + n, T));
  }

  lemma WindowGrows(p: int, Y: int, ys: nat)
    requires p >= 1 && 0 < Y < Place(1, ys)
    ensures Place(p - 1, ys) - (p - 1) * Y >= 0
    ensures Place(p - 1, ys) - (p - 1) * Y == Place(p, ys) - p * Y - (Place(1, ys) - Y)
  {
    MulLe(0, p - 1, Place(1, ys) - Y);
    PlaceMul(p - 1, 1, ys);
    MulDistrib(p - 1, Place(1, ys), Y);
    PlaceAdd(p, 1, ys);
    MulDistrib(Y, p, 1);
  }

  /** The length of a canonical number between two powers of the base. */
  lemma SameLength(a: seq<int>, t: nat, n: nat)
    requires Canonical(a, t, 0) && n > 0 && Place(1, n - 1) <= Val(a, 0, t) < Place(1, n)
    ensures t == n
  {
    PlaceMono(0, 0, t);
    CanonicalRange(a, t, 0);
    if t > n { PlaceGrows(1, n, t - 1); }
    if t < n { PlaceGrows(1, t, n - 1); }
  }

  /** A window that does not shrink keeps the top digit of the whole away from zero. */
  lemma TopStays(R: seq<int>, T: nat, j: nat, n: nat, w: int)
    requires 1 <= n && j + n <= T && AreDigits(R, 0, T) && R[T - 1] > 0 && Val(R, j, j + n) <= w
    ensures Place(1, T - 1) <= Val(R, 0, j) + Place(w + Place(Val(R, j + n, T), n), j)
  {
    ThreeParts(R, j, n, T);
    ValTop(R, 0, T);
    PlaceMono(Val(R, j, j + n) + Place(Val(R, j + n, T), n), w + Place(Val(R, j + n, T), n), j);
  }

  /** The window after the first trial, which the digit above it still fits. */
  lemma FirstWindow(R: seq<int>, R1: seq<int>, R': seq<int>, T: nat, j: nat, ys: nat, Y: int, p: int, c: int, m: int)
    requires ys >= 1 && j + ys < T && AreDigits(R, 0, T) && |R1| == |R| == |R'|
    requires 0 < Y < Place(1, ys) && p <= DV
    requires Val(R, j, j + ys + 1) - m < Y && (p == DV ==> Val(R, j, j + ys + 1) < m)
    requires AreDigits(R1, j, j + ys) && forall k :: j <= k < j + ys ==> R'[k] == R1[k]
    requires Val(R1, j, j + ys) + Place(c, ys) == Val(R, j, j + ys) + Place(p, ys) - m
    requires R'[j + ys] == R[j + ys] + c
    ensures Val(R', j, j + ys + 1) == Val(R, j, j + ys + 1) + Place(p, ys) - m
    ensures R'[j + ys] < DV
  {
    ValFrame(R1, R', j, j + ys);
    PlaceAdd(R[j + ys], c, ys);
    ValBound(R1, j, j + ys);
    TrialFits(Val(R, j, j + ys + 1) - m, Y, p, ys, Val(R1, j, j + ys), R[j + ys] + c);
  }

  /** The first trial: what the multiply-and-add of the negated divisor gives. */
  lemma FirstTrial(R: seq<int>, R1: seq<int>, R': seq<int>, T: nat, j: nat, ys: nat, Y: int, p: int, c: int, m: int)
    requires ys >= 1 && j + ys < T && AreDigits(R, 0, T) && R[T - 1] > 0 && |R1| == |R| == |R'|
    requires 0 < Y < Place(1, ys) && p <= DV
    requires Val(R, j, j + ys + 1) - m < Y && (p == DV ==> Val(R, j, j + ys + 1) < m)
    requires forall k :: 0 <= k < T && !(j <= k < j + ys) ==> R1[k] == R[k]
    requires AreDigits(R1, j, j + ys) && c >= 0
    requires Val(R1, j, j + ys) + Place(c, ys) == Val(R, j, j + ys) + Place(p, ys) - m
    requires R' == R1[j + ys := R[j + ys] + c]
    ensures Tried(R, R', T, j, ys, m, p)
  {
    ValFrame(R, R', 0, j);
    ValFrame(R, R', j + ys + 1, T);
    FirstWindow(R, R1, R', T, j, ys, Y, p, c, m);
  }

  lemma NegatedProduct(p: int, Y: int, ys: nat)
    ensures p * (Place(1, ys) - Y) == Place(p, ys) - p * Y
  {
    PlaceMul(p, 1, ys);
    MulDistrib(p, Place(1, ys), Y);
  }

  lemma TrialFits(w: int, Y: int, p: int, ys: nat, v: int, d: int)
    requires 0 < Y < Place(1, ys) && p <= DV && w < Y && (p == DV ==> w < 0)
    requires v >= 0 && v + Place(d, ys) == w + Place(p, ys)
    ensures d < DV
  {
    if p < DV { PlaceAdd(p, 1, ys); PlaceMono(p + 1, DV, ys); }
    PlaceMono(d, DV, ys);
  }

  /** Once the right digit stands above the remainder, place j is done. */
  lemma DigitDone(R: seq<int>, R': seq<int>, T: nat, j: nat, ys: nat, X: int, Y: int, q: int)
    requires Divided(R, T, j + 1, ys, X, Y) && Y > 0 && Tried(R, R', T, j, ys, q * Y, q)
    requires R'[j + ys] == q && Val(R', j, j + ys) == Val(R, j, j + ys + 1) - q * Y < Y
    ensures Divided(R', T, j, ys, X, Y)
  {
    var h, w := Val(R, j + ys + 1, T), Val(R, j, j + ys + 1);
    Window(R, T, j, ys, X, Y);
    ValSplit(R', 0, j, j + ys);
    ValLow(R', j + ys, T);
    DoneValue(w, q, h, Y, j);
    PlaceAdd(w - q * Y, 1, j);
    PlaceMono(w - q * Y + 1, Y, j);
  }

  lemma DoneValue(w: int, q: int, h: int, Y: int, j: nat)
    ensures Place(w - q * Y, j) + Place((q + DV * h) * Y, j) == Place(w, j) + Place(h * Y, j + 1)
  {
    PlaceAdd(w, q * Y, j);
    assert (q + DV * h) * Y == q * Y + DV * (h * Y) by { MulDistrib(Y, q, DV * h); MulAssoc(DV, h, Y); }
    PlaceAdd(q * Y, DV * (h * Y), j);
    PlaceMul(DV, h * Y, j);
  }

  /** The divisor as the loop uses it: ys digits whose top bit is set. */
  ghost predicate Normalized(D: seq<int>, ys: nat) {
    1 <= ys && AreDigits(D, 0, ys) && D[ys - 1] >= 0x800_0000
  }

  lemma NormalizedRange(D: seq<int>, ys: nat)
    requires Normalized(D, ys)
    ensures 0 < Val(D, 0, ys) < Place(1, ys)
    ensures TopOf(D, ys) > 0
  {
    ValBound(D, 0, ys);
    ValTop(D, 0, ys);
    PlaceMono(0, 1, ys - 1);
  }

  /** The digit tried is at least the true one, and am3 can multiply by it. */
  lemma EstimateUsable(R: seq<int>, j: nat, ys: nat, D: seq<int>)
    requires Normalized(D, ys) && TopOf(D, ys) > 0 && AreDigits(R, j, j + ys + 1)
    requires Val(R, j, j + ys + 1) < DV * Val(D, 0, ys)
    ensures Val(D, 0, ys) > 0
    ensures Val(R, j, j + ys + 1) / Val(D, 0, ys) <= Estimate(R[j + ys], R[j + ys - 1], D[ys - 1], TopOf(D, ys)) <= DV
  {
    NormalizedRange(D, ys);
    WindowLeading(R, j, ys, D);
    EstimateBounds(Val(R, j, j + ys + 1), Val(D, 0, ys), R[j + ys], R[j + ys - 1], D[ys - 1],
                   if ys > 1 then D[ys - 2] else 0, Place(1, ys - 1));
  }

  /** Try the estimated digit: multiply-and-add the negated divisor. */
  method TryDigit(r: BigInteger, y: BigInteger, j: nat, ys: nat, qd: int, ghost Y: int, ghost T: nat)
    requires r != y && ys >= 1 && j + ys < T && AreDigits(r.digits, 0, T) && r.digits[T - 1] > 0
    requires AreDigits(y.digits, 0, ys) && Val(y.digits, 0, ys) == Place(1, ys) - Y && 0 < Y < Place(1, ys)
    requires 0 <= qd <= DV
    requires Val(r.digits, j, j + ys + 1) < DV * Y && Val(r.digits, j, j + ys + 1) < qd * Y + Y
    modifies r`digits
    ensures Tried(old(r.digits), r.digits, T, j, ys, qd * Y, qd)
  {
    ghost var R := r.digits;
    var i := j + ys;
    var c := Am3(y, 0, qd, r, j, 0, ys);
    ghost var R1 := r.digits;
    NegatedProduct(qd, Y, ys);
    r.digits := r.digits[i := r.digits[i] + c];
    FirstTrial(R, R1, r.digits, T, j, ys, Y, qd, c, qd * Y);
  }

  lemma QuotientBelow(w: int, Y: int, p: int)
    requires Y > 0
    ensures w / Y <= p <==> w < p * Y + Y
    ensures w < p * Y ==> w / Y < p
  {
    DivMod(w, Y);
    var q := w / Y;
    if q <= p { MulLe(q, p, Y); } else { MulLe(p + 1, q, Y); MulDistrib(Y, p, 1); }
    if q >= p { MulLe(p, q, Y); }
  }

  /** While the trial digit is too large, take it back. */
  method Correct(r: BigInteger, y: BigInteger, t: BigInteger, j: nat, ys: nat, qd0: int, ghost R: seq<int>,
                 ghost Y: int)
    returns (qd: int)
    requires r != t && y != r && r.Wf() && r.s == 0 && r.t > 0 && AreDigits(R, 0, r.t) && R[r.t - 1] > 0
    requires y.Wf() && y.Value() == Place(1, ys) - Y && 0 < Y < Place(1, ys)
    requires Tried(R, r.digits, r.t, j, ys, qd0 * Y, qd0) && Val(R, j, j + ys + 1) < qd0 * Y + Y
    modifies r, t
    ensures r.s == 0 && r.t == old(r.t)
    ensures Tried(R, r.digits, r.t, j, ys, qd * Y, qd) && Val(R, j, j + ys + 1) < qd * Y + Y
    ensures r.digits[j + ys] >= qd
  {
    ghost var T := r.t;
    qd := qd0;
    TrialDecides(R, r.digits, T, j, ys, Y, qd * Y, qd);
    if r.digits[j + ys] < qd {
      DLShiftTo(y, j, t);
      qd := TakeBack(r, t, j, ys, qd, R, Y);
      while r.digits[j + ys] < qd
        invariant r.Wf() && r.s == 0 && r.t == T
        invariant t.Wf() && t.Value() == Place(Place(1, ys) - Y, j)
        invariant Tried(R, r.digits, T, j, ys, qd * Y, qd)
        invariant Val(R, j, j + ys + 1) < qd * Y + Y
        decreases qd
      {
        TrialDecides(R, r.digits, T, j, ys, Y, qd * Y, qd);
        qd := TakeBack(r, t, j, ys, qd, R, Y);
      }
    }
  }

  /** One turn of the loop: the quotient digit for place j. */
  method DivideDigit(r: BigInteger, y: BigInteger, t: BigInteger, j: nat, ys: nat, y0: int, yt: int,
                     ghost D: seq<int>, ghost X: int)
    requires r != y && r != t && y != t && r.s == 0 && r.t >= 0
    requires Normalized(D, ys) && y0 == D[ys - 1] && yt == TopOf(D, ys)
    requires Divided(r.digits, r.t, j + 1, ys, X, Val(D, 0, ys))
    requires y.Wf() && y.s == 0 && y.t == ys && Val(y.digits, 0, ys) == Place(1, ys) - Val(D, 0, ys)
    modifies r, t
    ensures r.s == 0 && r.t == old(r.t) && Divided(r.digits, r.t, j, ys, X, Val(D, 0, ys))
  {
    ghost var R, T, Y := r.digits, r.t, Val(D, 0, ys);
    ghost var w := Val(R, j, j + ys + 1);
    NormalizedRange(D, ys);
    Window(R, T, j, ys, X, Y);
    EstimateUsable(R, j, ys, D);
    var i := j + ys;
    var qd := Estimate(r.digits[i], r.digits[i - 1], y0, yt);
    QuotientBelow(w, Y, qd);
    DivPos(w, Y);
    TryDigit(r, y, j, ys, qd, Y, T);
    PlaceMono(0, 0, ys);
    qd := Correct(r, y, t, j, ys, qd, R, Y);
    TrialDecides(R, r.digits, T, j, ys, Y, qd * Y, qd);
    DigitDone(R, r.digits, T, j, ys, X, Y, qd);
  }

  /** r.subTo(t, r) and --qd: the trial digit was too large. */
  method TakeBack(r: BigInteger, t: BigInteger, j: nat, ys: nat, qd: int, ghost R: seq<int>, ghost Y: int)
    returns (qd': int)
    requires r != t && r.Wf() && r.s == 0 && t.Wf() && t.Value() == Place(Place(1, ys) - Y, j)
    requires 0 < Y < Place(1, ys) && AreDigits(R, 0, r.t) && r.t > 0 && R[r.t - 1] > 0
    requires Tried(R, r.digits, r.t, j, ys, qd * Y, qd) && r.digits[j + ys] < qd
    requires Val(R, j, j + ys + 1) < qd * Y
    modifies r
    ensures qd' == qd - 1 && r.Valid() && r.s == 0 && r.t == old(r.t)
    ensures Tried(R, r.digits, r.t, j, ys, qd' * Y, qd') && Val(R, j, j + ys + 1) < qd' * Y + Y
  {
    ghost var R', T := r.digits, r.t;
    PlaceMono(0, 0, T);
    SubTo(r, t, r);
    TakenBackValue(R, R', T, j, ys, Y, qd);
    PlaceMono(0, 1, T - 1);
    SignOf(r);
    PlaceMono(0, 0, r.t);
    TakenBack(R, R', r.digits, T, r.t, j, ys, Y, qd);
    qd' := qd - 1;
    MulDistrib(Y, qd, 1);
  }

  /** A normalised divisor fits at most once into a number of its length. */
  lemma AtMostTwice(D: seq<int>, ys: nat, j: nat)
    requires Normalized(D, ys)
    ensures Place(1, j + ys) <= Place(Val(D, 0, ys), j) + Place(Val(D, 0, ys), j)
  {
    var Y := Val(D, 0, ys);
    ValBound(D, 0, ys - 1);
    PlaceMono(0x800_0000, D[ys - 1], ys - 1);
    PlaceAdd(0x800_0000, 0x800_0000, ys - 1);
    PlaceMul(DV, 1, ys - 1);
    PlacePlace(1, ys, j);
    PlaceMono(Place(1, ys), Y + Y, j);
    PlaceAdd(Y, Y, j);
  }

  /** The leading quotient digit, which is 0 or 1. */
  method LeadingQuotientDigit(r: BigInteger, y: BigInteger, t: BigInteger, j: nat)
    requires r != y && r != t && y != t && y.Wf() && y.s == 0 && y.t >= 0 && Normalized(y.digits, y.t)
    requires r.Wf() && r.s == 0 && r.t == j + y.t && (r.Valid() || r.t == y.t)
    modifies r, t
    ensures r.s == 0 && r.t >= j + y.t
    ensures Divided(r.digits, r.t, j, y.t, old(Val(r.digits, 0, r.t)), Val(y.digits, 0, y.t))
  {
    ghost var R, i, X, Y := r.digits, r.t, Val(r.digits, 0, r.t), Val(y.digits, 0, y.t);
    AtMostTwice(y.digits, y.t, j);
    NormalizedRange(y.digits, y.t);
    PlaceMono(0, 0, i); PlaceMono(0, 0, y.t); PlaceMono(0, Y, j);
    DLShiftTo(y, j, t);
    var cmp := CompareTo(r, t);
    ValBound(R, 0, i);
    if cmp >= 0 {
      r.Put(r.t, 1);
      ValFrame(R, r.digits, 0, i);
      r.t := r.t + 1;
      PlaceMono(0, 0, r.t);
      SubTo(r, t, r);
      LeadingOne(r, i, X - Place(Y, j));
    } else {
      assert Val(R, i, i) == 0;
    }
  }

  lemma LeadingOne(r: BigInteger, i: nat, low: int)
    requires r.Valid() && r.Value() == low + Place(1, i) && 0 <= low < Place(1, i)
    ensures r.s == 0 && r.t == i + 1 && r.digits[i] > 0 && Val(r.digits, 0, i) == low && Val(r.digits, i, i + 1) == 1
  {
    SignOf(r);
    PlaceMul(DV, 1, i);
    SameLength(r.digits, r.t, i + 1);
    ValSplitUnique(r.digits, 0, i, i + 1, low, 1);
  }

  /** "Negative" y, so that subtraction becomes multiply-and-add: y = DV^ys - y on ys digits. */
  method NegateDivisor(y: BigInteger, t: BigInteger, ys: nat)
    requires y != t && y.Wf() && y.s == 0 && y.t == ys && 0 < Val(y.digits, 0, ys) < Place(1, ys)
    modifies y, t
    ensures y.Wf() && y.s == 0 && y.t == ys
    ensures Val(y.digits, 0, ys) == Place(1, ys) - old(Val(y.digits, 0, ys))
  {
    PlaceMono(0, 0, ys);
    var one := Nbv(1);
    DLShiftTo(one, ys, t);
    SubTo(t, y, y);
    SignOf(y);
    LengthOf(y, ys);
    ghost var v := y.Value();
    while y.t < ys
      modifies y
      invariant y.Wf() && y.s == 0 && y.t <= ys && Val(y.digits, 0, y.t) == v
      decreases ys - y.t
    {
      ghost var d := y.digits;
      PlaceMono(0, 0, y.t);
      y.Put(y.t, 0);
      ValFrame(d, y.digits, 0, y.t);
      y.t := y.t + 1;
    }
  }

  /** Divide r by the normalised y: the quotient digits come to stand above the remainder. */
  method LongDivision(r: BigInteger, y: BigInteger, t: BigInteger)
    requires r != y && r != t && y != t && y.Wf() && y.s == 0 && Normalized(y.digits, y.t)
    requires r.Wf() && r.s == 0 && r.t >= y.t && (r.Valid() || r.t == y.t)
    modifies r, y, t
    ensures r.s == 0 && r.t >= 0
    ensures Divided(r.digits, r.t, 0, old(y.t), old(Val(r.digits, 0, r.t)), old(Val(y.digits, 0, y.t)))
  {
    ghost var D, X := y.digits, Val(r.digits, 0, r.t);
    var ys := y.t;
    var y0 := y.digits[ys - 1];
    NormalizedRange(D, ys);
    var yt := TopOf(y.digits, ys);
    var j := r.t - ys;
    LeadingQuotientDigit(r, y, t, j);
    NegateDivisor(y, t, ys);
    while j > 0
      invariant 0 <= j && r.s == 0 && r.t >= 0
      invariant y.Wf() && y.s == 0 && y.t == ys && Val(y.digits, 0, ys) == Place(1, ys) - Val(D, 0, ys)
      invariant Divided(r.digits, r.t, j, ys, X, Val(D, 0, ys))
    {
      j := j - 1;
      DivideDigit(r, y, t, j, ys, y0, yt, D, X);
    }
  }

  // ----- Signed division -----

  function AbsOf(v: int): int {
    if v < 0 then -v else v
  }

  /** Division of magnitudes, the quotient truncated toward zero. */
  function TruncQuotient(x: int, m: int): int
    requires m != 0
  {
    var q := AbsOf(x) / AbsOf(m);
    if (x < 0) == (m < 0) then q else -q
  }

  function TruncRemainder(x: int, m: int): int
    requires m != 0
  {
    var r := AbsOf(x) % AbsOf(m);
    if x < 0 then -r else r
  }

  /** What the two mean together. */
  lemma TruncDivision(x: int, m: int)
    requires m != 0
    ensures x == TruncQuotient(x, m) * m + TruncRemainder(x, m)
    ensures AbsOf(TruncRemainder(x, m)) < AbsOf(m)
    ensures TruncRemainder(x, m) != 0 ==> (TruncRemainder(x, m) < 0) == (x < 0)
  {
    DivMod(AbsOf(x), AbsOf(m));
    var q := AbsOf(x) / AbsOf(m);
    assert (-q) * m == q * (-m) && (-q) * (-m) == q * m;
  }

  lemma HalfBase()
    ensures Shift(1, 27) == 0x800_0000 && Shift(1, 28) == DV
  {
    ShiftPow(1, 28);
    PowDV();
  }

  /** The size of the shifted divisor. */
  lemma NormalizedSize(low: int, d: int, n: nat, k: nat)
    requires 0 <= low < Place(1, n) && 1 <= k <= 28 && Shift(1, k - 1) <= d < Shift(1, k)
    ensures Place(0x800_0000, n) <= Shift(low + Place(d, n), 28 - k) < Place(1, n + 1)
  {
    TopDigitBits(low, d, n, k);
    var v := low + Place(d, n);
    ShiftMono(Shift(1, 28 * n + k - 1), v, 28 - k);
    ShiftMono(v, Shift(1, 28 * n + k), 28 - k);
    ShiftShift(1, 28 * n + k - 1, 28 - k);
    ShiftShift(1, 28 * n + k, 28 - k);
    HalfBase();
    PlaceOfShift(1, n, 27);
    PlaceShift(1, n + 1);
  }

  /** Shifting the top digit's highest bit to the top normalises the whole divisor. */
  lemma NormalizedShift(a: seq<int>, t: nat, k: nat, b: seq<int>, t': nat)
    requires Canonical(a, t, 0) && t > 0 && 1 <= k <= 28 && Shift(1, k - 1) <= a[t - 1] < Shift(1, k)
    requires Canonical(b, t', 0) && Val(b, 0, t') == Shift(Val(a, 0, t), 28 - k)
    ensures t' == t && Normalized(b, t)
  {
    ValBound(a, 0, t - 1);
    NormalizedSize(Val(a, 0, t - 1), a[t - 1], t - 1, k);
    PlaceMono(1, 0x800_0000, t - 1);
    SameLength(b, t', t);
    ValBound(b, 0, t - 1);
    PlaceAdd(b[t - 1], 1, t - 1);
    PlaceMono(0x800_0000, b[t - 1] + 1, t - 1);
  }

  /** Normalise divisor and dividend by the same number of bits. */
  method Normalize(pt: BigInteger, pm: BigInteger, y: BigInteger, r: BigInteger) returns (nsh: nat)
    requires pm.Valid() && pm.s == 0 && pm.t > 0 && pt.Wf() && pt.s == 0
    requires y != pt && y != pm && y != r
    modifies y, r
    ensures nsh < 28 && y.Wf() && y.s == 0 && y.t == old(pm.t) && Normalized(y.digits, y.t)
    ensures y.Value() == Shift(old(pm.Value()), nsh)
    ensures r.Wf() && r.s == 0 && r.Value() == Shift(old(pt.Value()), nsh)
    ensures old(pt.Valid()) || nsh > 0 ==> r.Valid()
    ensures nsh == 0 ==> r.t == old(pt.t)
    ensures AreDigits(r.digits, 0, old(pt.t)) && Val(r.digits, 0, old(pt.t)) <= r.Value()
  {
    var k := NBits(pm.digits[pm.t - 1]);
    TopDigitLength(pm.digits[pm.t - 1], k);
    nsh := 28 - k;
    ghost var M, mt := pm.digits, pm.t;
    ghost var n := pt.t;
    PlaceMono(0, 0, mt);
    if nsh > 0 {
      LShiftTo(pm, nsh, y);
      LShiftTo(pt, nsh, r);
      PlaceMono(0, 0, n + 1);
      ValBound(r.digits, n, n + 1);
      ValSplit(r.digits, 0, n, n + 1);
      PlaceMono(0, Val(r.digits, n, n + 1), n);
    } else {
      pm.CopyTo(y);
      pt.CopyTo(r);
      PlaceMono(0, 0, n);
    }
    PlaceMono(0, 0, y.t);
    NormalizedShift(M, mt, k, y.digits, y.t);
  }

  lemma TopDigitLength(d: int, k: nat)
    requires 0 < d < DV && k >= 1 && Shift(1, k - 1) <= d
    ensures k <= 28
  {
    ShiftPow(1, 28); PowDV();
    if k > 28 { ShiftShift(1, 28, k - 1 - 28); ShiftGrows(Shift(1, 28), k - 1 - 28); }
  }

  /** The outcome of long division on magnitudes X and M, both shifted up by nsh: quotient
      digits from place ys on, the shifted remainder below. */
  ghost predicate Outcome(d: seq<int>, t: nat, ys: nat, nsh: nat, X: int, M: int)
    requires M > 0
  {
    && AreDigits(d, 0, ys) && AreDigits(d, 0, t)
    && Shift(X % M, nsh) <= Val(d, 0, ys) < Shift(X % M + 1, nsh)
    && (if t >= ys then Val(d, ys, t) == X / M else X / M == 0)
    && (t > ys ==> d[t - 1] > 0)
  }

  lemma OutcomeOf(d: seq<int>, t: nat, ys: nat, nsh: nat, X: int, M: int)
    requires M > 0 && X >= 0 && Divided(d, t, 0, ys, Shift(X, nsh), Shift(M, nsh))
    ensures Outcome(d, t, ys, nsh, X, M)
  {
    var q := Val(d, ys, t);
    var r := X - q * M;
    ShiftMul(q, M, nsh);
    ShiftAdd(X, q * M, nsh);
    ValBound(d, 0, ys);
    assert Val(d, 0, ys) == Shift(r, nsh);
    ShiftMono(0, r, nsh);
    ShiftMono(r, M, nsh);
    DivUnique(X, M, q, r);
    ShiftMono(r, r + 1, nsh);
  }

  lemma ZeroDigitsOf(d: seq<int>, n: nat)
    requires AreDigits(d, 0, n) && Val(d, 0, n) == 0
    ensures forall k :: 0 <= k < n ==> d[k] == 0
  {
    if n > 0 {
      ValBound(d, 0, n - 1);
      PlaceMono(0, d[n - 1], n - 1);
      PlaceMono(d[n - 1], 0, n - 1);
      ZeroDigitsOf(d, n - 1);
    }
  }

  /** A zero dividend whose digits the normalising shift clamped off: the divisor moves to
      negative places, is found to be no more than the dividend, and a one is left behind. */
  method ZeroDividend(r: BigInteger, y: BigInteger, t: BigInteger, ys: nat)
    requires r != y && r != t && y != t && y.Wf() && y.s == 0 && y.t == ys >= 1
    requires r.Valid() && r.s == 0 && r.t == 0
    requires AreDigits(r.digits, 0, ys) && Val(r.digits, 0, ys) == 0
    modifies r, t
    ensures r.Wf() && r.s == 0 && r.t == 1
    ensures AreDigits(r.digits, 0, ys) && Val(r.digits, 0, ys) == 1
  {
    ZeroDigitsOf(r.digits, ys);
    t.t, t.s := y.t - ys, y.s;
    var cmp := CompareTo(r, t);
    if cmp >= 0 {
      r.Put(r.t, 1);
      r.t := r.t + 1;
      assert Val(r.digits, 0, 0) == 0 && Val(r.digits, 0, 1) == 1;
      PlaceMono(0, 0, 1);
      SubTo(r, t, r);
    }
    SignOf(r);
    assert Place(1, 0) == 1;
    SameLength(r.digits, r.t, 1);
    assert Val(r.digits, 0, 0) == 0 && Val(r.digits, 0, 1) == r.digits[0];
    TopAndZeros1(r.digits, ys);
  }

  lemma TopAndZeros1(d: seq<int>, n: nat)
    requires 1 <= n <= |d| && d[0] == 1 && forall k :: 1 <= k < n ==> d[k] == 0
    ensures Val(d, 0, n) == 1
  {
    ValLow(d, 0, n);
    ValZero(d, 1, n);
  }

  /** A dividend is canonical, except that zero may come with as many digits as the divisor. */
  ghost predicate Dividend(x: BigInteger, m: BigInteger)
    reads x, m
  {
    x.Wf() && (x.Valid() || (x.Value() == 0 && x.s == 0 && m.s == 0 && x.t == m.t))
  }

  /** A canonical dividend does not get shorter by the normalising shift. */
  lemma LongEnough(r: BigInteger, X: int, n: nat, nsh: nat)
    requires r.Valid() && r.s == 0 && r.Value() == Shift(X, nsh) && n > 0 && Place(1, n - 1) <= X
    ensures r.t >= n
  {
    PlaceMono(0, 1, n - 1);
    ShiftGrows(X, nsh);
    LengthOf(r, n - 1);
  }

  /** Normalise and divide magnitudes into r; t is scratch. */
  method DivideMagnitudes(pt: BigInteger, pm: BigInteger, r: BigInteger, t: BigInteger) returns (nsh: nat)
    requires pm.Valid() && pm.s == 0 && pt.s == 0 && pt.t >= pm.t > 0 && Dividend(pt, pm) && r != t
    modifies r, t
    ensures r.s == 0 && r.Wf() && old(pm.Value()) > 0
    ensures Outcome(r.digits, r.t, old(pm.t), nsh, old(pt.Value()), old(pm.Value()))
  {
    ghost var X, M, n, canonical := pt.Value(), pm.Value(), pt.t, pt.Valid();
    SignOf(pm);
    PlaceMono(0, 1, pm.t - 1);
    PlaceMono(0, 0, pt.t);
    ValBound(pt.digits, 0, pt.t);
    if canonical { SignOf(pt); }
    var ys := pm.t;
    var y := new BigInteger();
    nsh := Normalize(pt, pm, y, r);
    PlaceMono(0, 0, y.t);
    PlaceMono(0, 0, r.t);
    if canonical { LongEnough(r, X, n, nsh); }
    if r.t >= ys {
      LongDivision(r, y, t);
      OutcomeOf(r.digits, r.t, ys, nsh, X, M);
    } else {
      ShiftMono(0, 0, nsh);
      SignOf(r);
      ValBound(r.digits, 0, ys);
      ZeroDividend(r, y, t, ys);
      ShiftMono(1, 1, nsh - 1);
      ShiftGrows(1, nsh - 1);
      DivUnique(0, M, 0, 0);
    }
  }

  lemma WfSign(x: BigInteger)
    requires x.Wf()
    ensures x.s == (if x.Value() < 0 then -1 else 0)
  {
    ValBound(x.digits, 0, x.t);
    PlaceMono(0, 0, x.t);
    PlaceAdd(0, 1, x.t);
  }

  /** Divide x by m, quotient and remainder to q and r, either of which may be absent. Not
      allowed: q the same object as r or x. By zero nothing happens. */
  method DivRemTo(x: BigInteger, m: BigInteger, q: BigInteger?, r: BigInteger?)
    requires Dividend(x, m) && m.Valid()
    requires q != null ==> q != r && q != x
    modifies q, r
    ensures old(m.Value()) == 0 && q != null ==> unchanged(q)
    ensures old(m.Value()) == 0 && r != null ==> unchanged(r)
    ensures old(m.Value()) != 0 && q != null ==>
      q.Valid() && q.Value() == TruncQuotient(old(x.Value()), old(m.Value()))
    ensures old(m.Value()) != 0 && r != null ==>
      r.Valid() && r.Value() == TruncRemainder(old(x.Value()), old(m.Value()))
  {
    WfSign(m);
    WfSign(x);
    ghost var X, M := x.Value(), m.Value();
    var ts, ms := x.s, m.s;
    var pm := Abs(m);
    SignOf(pm);
    if pm.t <= 0 { return; }
    var pt := Abs(x);
    if pt.t < pm.t {
      SmallDividend(pt, pm);
      if q != null { q.FromInt(0); }
      if r != null { x.CopyTo(r); }
      return;
    }
    var rem := r;
    if rem == null { rem := new BigInteger(); }
    var t := q;
    if t == null { t := new BigInteger(); }
    var ys := pm.t;
    var nsh := DivideMagnitudes(pt, pm, rem, t);
    if q != null { TakeQuotient(rem, q, ys, nsh, ts, ms, X, M); }
    TakeRemainder(rem, ys, nsh, ts, X, M);
  }

  /** q = the digits from place ys on, with the sign of the quotient. */
  method TakeQuotient(r: BigInteger, q: BigInteger, ys: nat, nsh: nat, ts: int, ms: int, ghost X: int, ghost M: int)
    requires r != q && M != 0 && r.Wf() && r.s == 0 && Outcome(r.digits, r.t, ys, nsh, AbsOf(X), AbsOf(M))
    requires ts == (if X < 0 then -1 else 0) && ms == (if M < 0 then -1 else 0)
    modifies q
    ensures q.Valid() && q.Value() == TruncQuotient(X, M)
  {
    DRShiftTo(r, ys, q);
    QuotientDigits(r.digits, r.t, q, ys, AbsOf(X) / AbsOf(M));
    if ts != ms { NegateTo(q, q); }
  }

  lemma QuotientDigits(d: seq<int>, t: nat, q: BigInteger, ys: nat, v: int)
    requires AreDigits(d, 0, t) && (t > ys ==> d[t - 1] > 0)
    requires q.Wf() && q.s == 0 && q.t == (if ys <= t then t - ys else 0)
    requires forall k :: 0 <= k < q.t ==> q.digits[k] == d[k + ys]
    requires if t >= ys then Val(d, ys, t) == v else v == 0
    ensures q.Valid() && q.Value() == v
  {
    PlaceMono(0, 0, q.t);
    if t >= ys { ValShift(q.digits, 0, d, ys, q.t); }
  }

  /** r = its low ys digits, shifted back, with the sign of the dividend. */
  method TakeRemainder(r: BigInteger, ys: nat, nsh: nat, ts: int, ghost X: int, ghost M: int)
    requires M != 0 && r.Wf() && r.s == 0 && Outcome(r.digits, r.t, ys, nsh, AbsOf(X), AbsOf(M))
    requires ts == (if X < 0 then -1 else 0)
    modifies r
    ensures r.Valid() && r.Value() == TruncRemainder(X, M)
  {
    ghost var v := AbsOf(X) % AbsOf(M);
    r.t := ys;
    PlaceMono(0, 0, ys);
    r.Clamp();
    if nsh > 0 { RShiftTo(r, nsh, r); }
    if r.Value() < v { ShiftMono(r.Value() + 1, v, nsh); }
    if r.Value() > v { ShiftMono(v + 1, r.Value(), nsh); }
    if ts < 0 { NegateTo(r, r); }
  }

  lemma SmallDividend(pt: BigInteger, pm: BigInteger)
    requires pt.Valid() && pt.s == 0 && pm.Valid() && pm.s == 0 && pt.t < pm.t
    ensures 0 <= pt.Value() < pm.Value()
    ensures pt.Value() / pm.Value() == 0 && pt.Value() % pm.Value() == pt.Value()
  {
    SignOf(pt); SignOf(pm);
    PlaceGrows(1, pt.t, pm.t - 1);
    DivUnique(pt.Value(), pm.Value(), 0, pt.Value());
  }
}
