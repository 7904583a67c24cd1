/** Integer arithmetic shared by the whole model: powers, floor division and the
    bit operations of JavaScript numbers, which first truncate to 32 bits. */
module Numbers {

  /** b^n. */
  function Pow(b: int, n: nat): (r: int)
    ensures b > 0 ==> r > 0
  {
    if n == 0 then 1 else b * Pow(b, n - 1)
  }

  function Max(a: int, b: int): int {
    if a > b then a else b
  }

  lemma PowAdd(b: int, m: nat, n: nat)
    ensures Pow(b, m + n) == Pow(b, m) * Pow(b, n)
  {
    if m > 0 {
      PowAdd(b, m - 1, n);
      MulAssoc(b, Pow(b, m - 1), Pow(b, n));
    }
  }

  lemma PowPos(b: int, n: nat)
    requires b > 0
    ensures Pow(b, n) > 0
  {
    if n > 0 { PowPos(b, n - 1); MulPos(b, Pow(b, n - 1)); }
  }

  lemma PowMul(b: int, m: nat, n: nat)
    ensures 0 <= m * n
    ensures Pow(b, m * n) == Pow(Pow(b, m), n)
  {
    if n > 0 {
      PowMul(b, m, n - 1);
      assert m * n == m + m * (n - 1);
      PowAdd(b, m, m * (n - 1));
    }
  }

  lemma {:induction false} PowMono(b: int, m: nat, n: nat)
    requires b > 0 && m <= n
    ensures Pow(b, m) <= Pow(b, n)
  {
    PowAdd(b, m, n - m);
    PowPos(b, m);
    PowPos(b, n - m);
    MulLe(1, Pow(b, n - m), Pow(b, m));
  }

  lemma MulAssoc(a: int, b: int, c: int)
    ensures (a * b) * c == a * (b * c)
  {}

  lemma MulDistrib(a: int, b: int, c: int)
    ensures a * (b + c) == a * b + a * c
    ensures a * (b - c) == a * b - a * c
  {}

  lemma MulComm(a: int, b: int)
    ensures a * b == b * a
  {}

  lemma MulPos(a: int, b: int)
    requires a > 0 && b > 0
    ensures a * b > 0
  {}

  lemma MulNonNeg(a: int, b: int)
    requires a >= 0 && b >= 0
    ensures a * b >= 0
  {}

  lemma MulLe(a: int, b: int, c: int)
    requires a <= b && 0 <= c
    ensures a * c <= b * c
  {}

  lemma MulLt(a: int, b: int, c: int)
    requires a < b && 0 < c
    ensures a * c < b * c
  {}

  lemma MulCancelLt(a: int, b: int, c: int)
    requires c > 0 && a * c < b * c
    ensures a < b
  {
    if b <= a { MulLe(b, a, c); }
  }

  /** Quotient and remainder are determined by x == q*d + r and 0 <= r < d. */
  lemma DivUnique(x: int, d: int, q: int, r: int)
    requires d > 0 && x == q * d + r && 0 <= r < d
    ensures x / d == q && x % d == r
  {
    var q', r' := x / d, x % d;
    assert x == q' * d + r';
    assert (q - q') * d == r' - r by { MulDistrib(d, q, q'); }
    if q - q' >= 1 { MulLe(1, q - q', d); } else if q - q' <= -1 { MulLe(q - q', -1, d); }
  }

  /** Two splittings of one number at the same weight agree. */
  lemma SplitUnique(low: int, high: int, low': int, high': int, p: int)
    requires low + p * high == low' + p * high'
    requires 0 <= low < p && 0 <= low' < p
    ensures low == low' && high == high'
  {
    var x := low + p * high;
    DivUnique(x, p, high, low);
    DivUnique(x, p, high', low');
  }

  /** The converse reading: what / and % mean for a positive divisor. */
  lemma DivMod(x: int, d: int)
    requires d > 0
    ensures x == (x / d) * d + x % d && 0 <= x % d < d
  {}

  /** Floor division by a product is two floor divisions. */
  lemma DivDiv(x: int, c: int, d: int)
    requires c > 0 && d > 0
    ensures c * d > 0
    ensures x / (c * d) == x / c / d
  {
    MulPos(c, d);
    var y, r := x / c, x % c;
    var q, r' := y / d, y % d;
    assert x == (q * d + r') * c + r;
    assert (q * d + r') * c == q * (c * d) + r' * c;
    MulLe(r', d - 1, c);
    MulNonNeg(r', c);
    assert (d - 1) * c == c * d - c;
    DivUnique(x, c * d, q, r' * c + r);
  }

  lemma DivPos(x: int, d: int)
    requires d > 0 && x >= 0
    ensures 0 <= x / d <= x
  {
    var q := x / d;
    DivMod(x, d);
    if q < 0 { MulLe(q, -1, d); }
    if q > 0 { MulLe(1, d, q); }
  }

  /** x and y leave the same remainder modulo m. */
  predicate Cong(x: int, y: int, m: int)
    requires m > 0
  {
    x % m == y % m
  }

  lemma {:induction false} CongFromMultiple(x: int, y: int, k: int, m: int)
    requires m > 0 && x == y + k * m
    ensures Cong(x, y, m)
  {
    DivMod(y, m);
    assert x == (y / m + k) * m + y % m by { MulDistrib(m, y / m, k); }
    DivUnique(x, m, y / m + k, y % m);
  }

  /** Congruent numbers differ by a multiple of the modulus. */
  lemma {:induction false} CongMultiple(x: int, y: int, m: int) returns (k: int)
    requires m > 0 && Cong(x, y, m)
    ensures x == y + k * m
  {
    DivMod(x, m); DivMod(y, m);
    k := x / m - y / m;
    MulDistrib(m, x / m, y / m);
  }

  lemma {:induction false} CongSelf(x: int, m: int)
    requires m > 0
    ensures Cong(x % m, x, m)
  {
    DivMod(x, m);
    DivUnique(x % m, m, 0, x % m);
  }

  lemma {:induction false} CongAdd(x: int, x': int, y: int, y': int, m: int)
    requires m > 0 && Cong(x, x', m) && Cong(y, y', m)
    ensures Cong(x + y, x' + y', m) && Cong(x - y, x' - y', m)
  {
    var k := CongMultiple(x, x', m);
    var l := CongMultiple(y, y', m);
    MulDistrib(m, k, l);
    CongFromMultiple(x + y, x' + y', k + l, m);
    CongFromMultiple(x - y, x' - y', k - l, m);
  }

  lemma {:induction false} CongProduct(x: int, x': int, y: int, y': int, k: int, l: int, m: int)
    requires x == x' + k * m && y == y' + l * m
    ensures x * y == x' * y' + (x' * l + k * y) * m
  {
    MulDistrib(y, x', k * m);
    MulDistrib(x', y', l * m);
    MulAssoc(x', l, m);
    MulAssoc(k, m, y);
    MulAssoc(k, y, m);
    MulDistrib(m, x' * l, k * y);
  }

  lemma {:induction false} CongMul(x: int, x': int, y: int, y': int, m: int)
    requires m > 0 && Cong(x, x', m) && Cong(y, y', m)
    ensures Cong(x * y, x' * y', m)
  {
    var k := CongMultiple(x, x', m);
    var l := CongMultiple(y, y', m);
    var n := x' * l + k * y;
    CongProduct(x, x', y, y', k, l, m);
    CongFromMultiple(x * y, x' * y', n, m);
  }

  lemma {:induction false} CongPow(x: int, y: int, n: nat, m: int)
    requires m > 0 && Cong(x, y, m)
    ensures Cong(Pow(x, n), Pow(y, n), m)
  {
    if n > 0 {
      CongPow(x, y, n - 1, m);
      CongMul(x, y, Pow(x, n - 1), Pow(y, n - 1), m);
    }
  }

  /** A residue in [0, m) is the remainder of everything congruent to it. */
  lemma CongUnique(x: int, y: int, m: int)
    requires m > 0 && Cong(x, y, m) && 0 <= x < m
    ensures x == y % m
  {
    DivUnique(x, m, 0, x);
  }

  lemma CongRange(x: int, y: int, m: int)
    requires m > 0 && Cong(x, y, m) && 0 <= x < m && 0 <= y < m
    ensures x == y
  {
    DivUnique(x, m, 0, x);
    DivUnique(y, m, 0, y);
  }

  // ----- Bit positions: v * 2^n -----

  function Shift(v: int, n: nat): int {
    if n == 0 then v else 2 * Shift(v, n - 1)
  }

  lemma ShiftPow(v: int, n: nat)
    ensures Shift(v, n) == v * Pow(2, n)
  {
    if n > 0 { ShiftPow(v, n - 1); MulAssoc(2, v, Pow(2, n - 1)); MulAssoc(v, 2, Pow(2, n - 1)); }
  }

  lemma ShiftAdd(v: int, w: int, n: nat)
    ensures Shift(v + w, n) == Shift(v, n) + Shift(w, n)
    ensures Shift(v - w, n) == Shift(v, n) - Shift(w, n)
  {
    if n > 0 { ShiftAdd(v, w, n - 1); }
  }

  lemma ShiftShift(v: int, m: nat, n: nat)
    ensures Shift(v, m + n) == Shift(Shift(v, m), n)
  {
    if n > 0 { ShiftShift(v, m, n - 1); }
  }

  lemma ShiftMul(x: int, v: int, n: nat)
    ensures Shift(x * v, n) == x * Shift(v, n)
  {
    if n > 0 { ShiftMul(x, v, n - 1); }
  }

  lemma ShiftMono(v: int, w: int, n: nat)
    ensures v <= w <==> Shift(v, n) <= Shift(w, n)
    ensures v < w <==> Shift(v, n) < Shift(w, n)
    ensures Shift(0, n) == 0
  {
    if n > 0 { ShiftMono(v, w, n - 1); }
  }

  // ----- 32-bit words -----

  /** The range of the operands and results of a JavaScript bit operation. */
  predicate Int32(x: int) {
    -0x8000_0000 <= x < 0x8000_0000
  }

  /** The integers a JavaScript number represents exactly. */
  predicate Exact(x: int) {
    -0x20_0000_0000_0000 <= x <= 0x20_0000_0000_0000
  }

  /** x & (n - 1) on 32-bit words, n a power of two. */
  function Mask(x: int, n: int): int
    requires Int32(x) && n > 0
  {
    x % n
  }

  /** x >> k on 32-bit words: an arithmetic shift, that is floor division. */
  function Shr(x: int, k: nat): (r: int)
    requires Int32(x) && k < 32
    ensures 0 <= x ==> 0 <= r <= x
  {
    PowPos(2, k);
    if x >= 0 then DivPos(x, Pow(2, k)); x / Pow(2, k)
    else x / Pow(2, k)
  }

  /** x & ((1 << k) - 1) on 32-bit words in two's complement. */
  function Low(x: int, k: nat): int
    requires Int32(x) && k < 31
  {
    PowPos(2, k);
    x % Pow(2, k)
  }

  /** x << k when no bit is lost. */
  function Shl(x: int, k: nat): int
    requires k < 32 && Int32(Shift(x, k))
  {
    Shift(x, k)
  }

  /** x | y on non-negative words. */
  function Or(x: nat, y: nat): nat {
    if x == 0 then y
    else if y == 0 then x
    else (if x % 2 == 1 || y % 2 == 1 then 1 else 0) + 2 * Or(x / 2, y / 2)
  }

  /** Words without a common bit: | is +. */
  lemma OrDisjoint(x: nat, y: nat, k: nat)
    requires x < Pow(2, k)
    ensures 0 <= Shift(y, k)
    ensures Or(x, Shift(y, k)) == x + Shift(y, k)
    decreases k
  {
    ShiftMono(0, y, k);
    if k > 0 && x > 0 {
      ShiftMono(0, y, k - 1);
      OrDisjoint(x / 2, y, k - 1);
    }
  }

  lemma OrComm(x: nat, y: nat)
    ensures Or(x, y) == Or(y, x)
  {}

  lemma {:induction false} HigherShiftIsEven(y: int, k: nat, w: int, b: nat)
    requires Shift(y, k + 1 + b) == Shift(w, b)
    ensures w % 2 == 0
  {
    ShiftShift(y, k + 1, b);
    var v := Shift(y, k + 1);
    assert v == 2 * Shift(y, k);
    ShiftMono(v, w, b); ShiftMono(w, v, b);
  }
}
