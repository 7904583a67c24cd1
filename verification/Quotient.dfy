/** The estimate of a quotient digit from the two top digits, over exact rationals. */
module Quotient {
  import opened Numbers
  import opened Digits

  const F1: int := 0x100_0000            // 1 << BI_F1, BI_F1 = 52 - 28
  const FV: int := 0x10_0000_0000_0000   // 2^52
  const E: int := 16                     // 1 << BI_F2, BI_F2 = 56 - 52

  /** The divisor's two top digits, as far as the estimate uses them. */
  function TopOf(y: seq<int>, ys: nat): int
    requires 1 <= ys <= |y|
  {
    y[ys - 1] * F1 + (if ys > 1 then y[ys - 2] / 16 else 0)
  }

  /** The quotient digit tried for dividend digits hi, lo against top divisor digit y0. */
  function Estimate(hi: int, lo: int, y0: int, yt: int): int
    requires yt > 0
  {
    if hi == y0 then DM
    else
      var d1 := FV as real / yt as real;
      var d2 := F1 as real / yt as real;
      (hi as real * d1 + (lo + E) as real * d2).Floor
  }

  lemma QuotientOfReals(a: int, b: int)
    requires b > 0
    ensures (a as real / b as real).Floor == a / b
  {
    var q, r := a / b, a % b;
    DivMod(a, b);
    assert a as real == q as real * b as real + r as real;
    assert a as real / b as real == q as real + r as real / b as real;
    assert 0.0 <= r as real / b as real < 1.0;
  }

  /** The estimate is one floor division. */
  lemma EstimateIsFloor(hi: int, lo: int, y0: int, yt: int)
    requires yt > 0 && hi != y0
    ensures Estimate(hi, lo, y0, yt) == ((hi * DV + lo + E) * F1) / yt
  {
    var b := yt as real;
    var a := hi * FV + (lo + E) * F1;
    assert hi as real * (FV as real / b) == (hi as real * FV as real) / b;
    assert (lo + E) as real * (F1 as real / b) == ((lo + E) as real * F1 as real) / b;
    assert a as real == hi as real * FV as real + (lo + E) as real * F1 as real;
    assert hi as real * (FV as real / b) + (lo + E) as real * (F1 as real / b) == a as real / b;
    QuotientOfReals(a, yt);
    assert a == (hi * DV + lo + E) * F1;
  }

  lemma NotTooSmall(w: int, y: int, n: int, yt: int, q: int, p: int)
    requires p > 0 && q >= 0 && q * y <= w < (n + 1) * p
    requires 16 * yt * p <= DV * y
    ensures q * yt <= (n + E) * F1
  {
    MulLe(16 * yt * p, DV * y, q);
    assert (16 * (q * yt)) * p == (16 * yt * p) * q;
    assert (DV * y) * q == DV * (q * y);
    assert (DV * (n + 1)) * p == DV * ((n + 1) * p);
    MulCancelLt(16 * (q * yt), DV * (n + 1), p);
  }

  lemma NotTooLarge(w: int, y: int, n: int, yt: int, q: int, p: int)
    requires p > 0 && q >= 0 && n * p <= w < (q + 1) * y
    requires DV * y < (16 * yt + 16) * p
    requires q + DV < yt
    ensures (n + E) * F1 < (q + 2) * yt
  {
    MulLt(DV * y, (16 * yt + 16) * p, q + 1);
    assert ((16 * yt + 16) * p) * (q + 1) == (16 * ((q + 1) * (yt + 1))) * p;
    assert (DV * y) * (q + 1) == DV * ((q + 1) * y);
    assert (DV * n) * p == DV * (n * p);
    MulCancelLt(DV * n, 16 * ((q + 1) * (yt + 1)), p);
    assert (q + 1) * (yt + 1) == (q + 1) * yt + q + 1;
    assert (q + 2) * yt == (q + 1) * yt + yt;
  }

  lemma LeadingDigitsEqual(w: int, y: int, y0: int, q: int, p: int)
    requires p > 0 && q >= 0 && (y0 * DV) * p <= w < (q + 1) * y
    requires DV * y < ((y0 + 1) * DV) * p
    requires y0 >= 0x800_0000
    ensures DM <= q + 1
  {
    MulLt(DV * y, ((y0 + 1) * DV) * p, q + 1);
    assert (((y0 + 1) * DV) * p) * (q + 1) == (DV * ((q + 1) * (y0 + 1))) * p;
    assert (DV * y) * (q + 1) == DV * ((q + 1) * y);
    assert (DV * (y0 * DV)) * p == DV * ((y0 * DV) * p);
    MulCancelLt(DV * (y0 * DV), DV * ((q + 1) * (y0 + 1)), p);
    if q + 1 <= DV - 2 { MulLe(q + 1, DV - 2, y0 + 1); }
  }

  /** The facts about the leading digits that both bounds rest on. */
  ghost predicate Leading(w: int, y: int, n: int, y2: int, p: int) {
    && p > 0 && y > 0
    && n * p <= w < (n + 1) * p
    && y2 * p <= DV * y < (y2 + 1) * p
    && 0 <= w < DV * y
  }

  /** The estimated quotient digit is the true one or one more, if the divisor's top
      digit has its top bit set. */
  lemma EstimateBounds(w: int, y: int, hi: int, lo: int, y0: int, y1: int, p: int)
    requires Leading(w, y, hi * DV + lo, y0 * DV + y1, p)
    requires 0x800_0000 <= y0 < DV && 0 <= y1 < DV && 0 <= lo < DV && 0 <= hi
    ensures w / y <= Estimate(hi, lo, y0, y0 * F1 + y1 / 16) <= w / y + 1
    ensures 0 <= w / y < DV
  {
    var q, n, yt := w / y, hi * DV + lo, y0 * F1 + y1 / 16;
    DivMod(w, y);
    if q >= DV { MulLe(DV, q, y); }
    if q < 0 { MulLe(q, -1, y); }
    assert (q + 1) * y == q * y + y;
    if hi == y0 {
      MulLe(y0 * DV + y1 + 1, (y0 + 1) * DV, p);
      MulLe(y0 * DV, n, p);
      LeadingDigitsEqual(w, y, y0, q, p);
    } else {
      EstimateIsFloor(hi, lo, y0, yt);
      MulLe(16 * yt, y0 * DV + y1, p);
      MulLe(y0 * DV + y1 + 1, 16 * yt + 16, p);
      NotTooSmall(w, y, n, yt, q, p);
      NotTooLarge(w, y, n, yt, q, p);
      FloorBetween((n + E) * F1, yt, q);
    }
  }

  lemma FloorBetween(a: int, b: int, q: int)
    requires b > 0 && q * b <= a < (q + 2) * b
    ensures q <= a / b <= q + 1
  {
    DivMod(a, b);
    var d := a / b;
    if d < q { MulLe(d + 1, q, b); }
    if d > q + 1 { MulLe(q + 2, d, b); }
  }
}
