/** Greatest common divisors and primes of plain integers. */
module Divisors {
  import opened Numbers

  /** d divides n. */
  predicate Divides(d: int, n: int)
    requires d > 0
  {
    n % d == 0
  }

  lemma {:induction false} DividesTimes(d: int, k: int)
    requires d > 0
    ensures Divides(d, k * d)
  {
    DivUnique(k * d, d, k, 0);
  }

  lemma {:induction false} Factor(d: int, n: int) returns (k: int)
    requires d > 0 && Divides(d, n)
    ensures n == k * d
  {
    k := n / d;
    DivMod(n, d);
  }

  /** A divisor of two numbers divides their integer combinations. */
  lemma {:induction false} DividesCombination(d: int, a: int, b: int, s: int, t: int)
    requires d > 0 && Divides(d, a) && Divides(d, b)
    ensures Divides(d, s * a + t * b)
  {
    var k := Factor(d, a);
    var l := Factor(d, b);
    MulAssoc(s, k, d); MulAssoc(t, l, d);
    MulDistrib(d, s * k, t * l);
    DividesTimes(d, s * k + t * l);
  }

  lemma {:induction false} DividesLe(d: int, n: int)
    requires d > 0 && n > 0 && Divides(d, n)
    ensures d <= n
  {
    if d > n { DivUnique(n, d, 0, n); }
  }

  /** The greatest common divisor, by Euclid's algorithm. */
  function Gcd(a: nat, b: nat): nat
    decreases b
  {
    if b == 0 then a else DivMod(a, b); Gcd(b, a % b)
  }

  /** It divides both and is a combination of both. */
  lemma {:induction false} GcdBezout(a: nat, b: nat) returns (s: int, t: int)
    requires a > 0 || b > 0
    ensures Gcd(a, b) > 0 && Divides(Gcd(a, b), a) && Divides(Gcd(a, b), b)
    ensures Gcd(a, b) == s * a + t * b
    decreases b
  {
    if b == 0 {
      s, t := 1, 0;
      DivUnique(a, a, 1, 0);
      DivUnique(0, a, 0, 0);
    } else {
      DivMod(a, b);
      var q, r := a / b, a % b;
      var s', t' := GcdBezout(b, r);
      DividesCombination(Gcd(b, r), b, r, q, 1);
      s, t := t', s' - t' * q;
      assert t' * (a - q * b) == t' * a - (t' * q) * b by { MulDistrib(t', a, q * b); MulAssoc(t', q, b); }
      MulDistrib(b, s', t' * q);
    }
  }

  /** A common divisor that is a combination is the greatest. */
  lemma {:induction false} GcdIs(a: nat, b: nat, g: int, s: int, t: int)
    requires (a > 0 || b > 0) && g > 0 && Divides(g, a) && Divides(g, b) && g == s * a + t * b
    ensures Gcd(a, b) == g
  {
    var s', t' := GcdBezout(a, b);
    DividesCombination(Gcd(a, b), a, b, s, t);
    DividesCombination(g, a, b, s', t');
    DividesLe(Gcd(a, b), g);
    DividesLe(g, Gcd(a, b));
  }

  /** Every common divisor divides the greatest. */
  lemma {:induction false} GcdGreatest(a: nat, b: nat, d: int)
    requires (a > 0 || b > 0) && d > 0 && Divides(d, a) && Divides(d, b)
    ensures Divides(d, Gcd(a, b)) && d <= Gcd(a, b)
  {
    var s, t := GcdBezout(a, b);
    DividesCombination(d, a, b, s, t);
    DividesLe(d, Gcd(a, b));
  }

  lemma {:induction false} GcdSym(a: nat, b: nat)
    ensures Gcd(a, b) == Gcd(b, a)
  {
    if a > 0 || b > 0 {
      var s, t := GcdBezout(a, b);
      GcdIs(b, a, Gcd(a, b), t, s);
    }
  }

  /** Subtracting one from the other keeps the greatest common divisor. */
  lemma {:induction false} GcdSubtract(a: nat, b: nat)
    requires a >= b && a > 0
    ensures Gcd(a - b, b) == Gcd(a, b)
  {
    var s, t := GcdBezout(a, b);
    var g := Gcd(a, b);
    DividesCombination(g, a, b, 1, -1);
    assert s * (a - b) + (s + t) * b == s * a + t * b by { MulDistrib(s, a, b); MulDistrib(b, s, t); }
    GcdIs(a - b, b, g, s, s + t);
  }

  /** An odd divisor of 2a divides a. */
  lemma {:induction false} OddDivides(d: int, a: int)
    requires d > 0 && d % 2 == 1 && Divides(d, 2 * a)
    ensures Divides(d, a)
  {
    var k := Factor(d, 2 * a);
    OddTimes(k, d);
    MulAssoc(2, k / 2, d);
    DividesTimes(d, k / 2);
  }

  lemma {:induction false} OddTimes(k: int, d: int)
    requires d % 2 == 1 && (k * d) % 2 == 0
    ensures k % 2 == 0
  {
    var h, l := k / 2, d / 2;
    assert (2 * h + 1) * (2 * l + 1) == 2 * (2 * (h * l) + h + l) + 1;
  }

  /** Against an odd number factors of two do not matter. */
  lemma {:induction false} GcdHalve(a: nat, b: nat)
    requires b % 2 == 1
    ensures Gcd(2 * a, b) == Gcd(a, b)
  {
    var s, t := GcdBezout(2 * a, b);
    var s', t' := GcdBezout(a, b);
    var g, h := Gcd(2 * a, b), Gcd(a, b);
    DividesCombination(h, a, b, 2, 0);
    GcdGreatest(2 * a, b, h);
    OddDivisor(g, b);
    OddDivides(g, a);
    GcdGreatest(a, b, g);
  }

  lemma {:induction false} OddDivisor(d: int, n: int)
    requires d > 0 && n % 2 == 1 && Divides(d, n)
    ensures d % 2 == 1
  {
    var k := Factor(d, n);
    if d % 2 == 0 {
      MulAssoc(k, d / 2, 2);
    }
  }

  lemma {:induction false} GcdShift(a: nat, b: nat, n: nat)
    requires b % 2 == 1
    ensures Shift(a, n) >= 0 && Gcd(Shift(a, n), b) == Gcd(a, b)
  {
    ShiftMono(0, a, n);
    if n > 0 {
      GcdShift(a, b, n - 1);
      GcdHalve(Shift(a, n - 1), b);
    }
  }

  /** A common power of two can be taken out. */
  lemma {:induction false} GcdShiftBoth(a: nat, b: nat, n: nat)
    requires a > 0 || b > 0
    ensures Shift(a, n) >= 0 && Shift(b, n) >= 0
    ensures Gcd(Shift(a, n), Shift(b, n)) == Shift(Gcd(a, b), n)
  {
    var s, t := GcdBezout(a, b);
    var g := Gcd(a, b);
    ShiftMono(0, a, n); ShiftMono(0, b, n); ShiftMono(0, g, n);
    var k := Factor(g, a);
    var l := Factor(g, b);
    ShiftMul(k, g, n); ShiftMul(l, g, n);
    DividesTimes(Shift(g, n), k); DividesTimes(Shift(g, n), l);
    ShiftMul(s, a, n); ShiftMul(t, b, n);
    ShiftAdd(s * a, t * b, n);
    GcdIs(Shift(a, n), Shift(b, n), Shift(g, n), s, t);
  }

  // ----- Primes -----

  ghost predicate Prime(p: int) {
    p >= 2 && forall d :: 2 <= d < p ==> !Divides(d, p)
  }

  /** A prime that divides a product divides a factor. */
  lemma {:induction false} Euclid(p: int, a: nat, b: int)
    requires Prime(p) && Divides(p, a * b)
    ensures Divides(p, a) || Divides(p, b)
  {
    var s, t := GcdBezout(p, a);
    var g := Gcd(p, a);
    DividesLe(g, p);
    if g == 1 {
      assert b == (s * b) * p + t * (a * b) by {
        calc {
          b;
          (s * p + t * a) * b;
          s * p * b + t * a * b;
          { MulAssoc(s, p, b); MulComm(p, b); MulAssoc(s, b, p); MulAssoc(t, a, b); }
          (s * b) * p + t * (a * b);
        }
      }
      DivUnique(p, p, 1, 0);
      DividesCombination(p, p, a * b, s * b, t);
    }
  }
}
