/** Fermat's little theorem and the square roots of one, the two facts primality testing rests on. */
module Fermat {
  import opened Numbers
  import opened Divisors

  // ----- Binomial coefficients -----

  function Choose(n: nat, k: nat): nat {
    if k == 0 then 1
    else if n == 0 then 0
    else Choose(n - 1, k - 1) + Choose(n - 1, k)
  }

  lemma ChooseAbove(n: nat, k: nat)
    requires k > n
    ensures Choose(n, k) == 0
  {}

  lemma ChooseAll(n: nat)
    ensures Choose(n, n) == 1
  {
    if n > 0 { ChooseAbove(n - 1, n); }
  }

  lemma {:induction false} Absorb(n: nat, k: nat)
    requires n > 0 && k > 0
    ensures k * Choose(n, k) == n * Choose(n - 1, k - 1)
  {
    if n == 1 {
      if k > 1 { ChooseAbove(1, k); ChooseAbove(0, k - 1); }
    } else {
      Absorb(n - 1, k);
      var c := Choose(n - 1, k - 1);
      MulDistrib(k, c, Choose(n - 1, k));
      if k > 1 {
        Absorb(n - 1, k - 1);
        MulDistrib(n - 1, Choose(n - 2, k - 2), Choose(n - 2, k - 1));
      }
      assert k * c == (k - 1) * c + c;
      assert n * c == (n - 1) * c + c;
    }
  }

  /** The middle coefficients of a prime are multiples of it. */
  lemma {:induction false} PrimeDividesChoose(p: int, k: nat)
    requires Prime(p) && 0 < k < p
    ensures Divides(p, Choose(p, k))
  {
    Absorb(p, k);
    MulComm(p, Choose(p - 1, k - 1));
    DividesTimes(p, Choose(p - 1, k - 1));
    Euclid(p, k, Choose(p, k));
    if Divides(p, k) { DividesLe(p, k); }
  }

  // ----- The binomial theorem -----

  /** The first k + 1 terms of (a + 1)^n. */
  function Expansion(a: int, n: nat, k: nat): int {
    if k == 0 then 1 else Expansion(a, n, k - 1) + Choose(n, k) * Pow(a, k)
  }

  lemma {:induction false} ExpansionStep(a: int, n: nat, k: nat)
    ensures Expansion(a, n + 1, k + 1) == Expansion(a, n, k + 1) + a * Expansion(a, n, k)
  {
    var c, c', q := Choose(n, k), Choose(n, k + 1), Pow(a, k);
    assert Pow(a, k + 1) == a * q;
    assert (c + c') * (a * q) == c' * (a * q) + a * (c * q) by {
      MulComm(c + c', a * q); MulDistrib(a * q, c, c'); MulComm(a * q, c'); MulAssoc(a, q, c); MulComm(q, c);
    }
    if k > 0 {
      ExpansionStep(a, n, k - 1);
      MulDistrib(a, Expansion(a, n, k - 1), c * q);
    }
  }

  lemma {:induction false} Binomial(a: int, n: nat)
    ensures Expansion(a, n, n) == Pow(a + 1, n)
  {
    if n > 0 {
      Binomial(a, n - 1);
      ExpansionStep(a, n - 1, n - 1);
      ChooseAbove(n - 1, n);
      var e := Expansion(a, n - 1, n - 1);
      assert e + a * e == (a + 1) * e;
    }
  }

  // ----- Fermat -----

  lemma {:induction false} MiddleVanishes(a: int, p: int, k: nat)
    requires Prime(p) && k < p
    ensures Cong(Expansion(a, p, k), 1, p)
  {
    if k > 0 {
      MiddleVanishes(a, p, k - 1);
      PrimeDividesChoose(p, k);
      var c := Factor(p, Choose(p, k));
      MulAssoc(c, p, Pow(a, k)); MulComm(p, Pow(a, k)); MulAssoc(c, Pow(a, k), p);
      CongFromMultiple(Choose(p, k) * Pow(a, k), 0, c * Pow(a, k), p);
      CongAdd(Expansion(a, p, k - 1), 1, Choose(p, k) * Pow(a, k), 0, p);
    }
  }

  /** a^p is a modulo a prime p. */
  lemma {:induction false} LittleTheorem(a: nat, p: int)
    requires Prime(p)
    ensures Cong(Pow(a, p), a, p)
  {
    if a == 0 {
      assert Pow(0, p) == 0 * Pow(0, p - 1);
    } else {
      LittleTheorem(a - 1, p);
      Binomial(a - 1, p);
      ChooseAll(p);
      MiddleVanishes(a - 1, p, p - 1);
      CongAdd(Expansion(a - 1, p, p - 1), 1, Pow(a - 1, p), a - 1, p);
    }
  }

  /** a^(p-1) is 1 modulo a prime p that does not divide a. */
  lemma {:induction false} UnitPower(a: nat, p: int)
    requires Prime(p) && !Divides(p, a)
    ensures Cong(Pow(a, p - 1), 1, p)
  {
    LittleTheorem(a, p);
    var k := CongMultiple(Pow(a, p), a, p);
    var b := Pow(a, p - 1) - 1;
    MulDistrib(a, Pow(a, p - 1), 1);
    DividesTimes(p, k);
    Euclid(p, a, b);
    var l := Factor(p, b);
    CongFromMultiple(Pow(a, p - 1), 1, l, p);
  }

  /** Modulo a prime one has only the roots 1 and -1. */
  lemma {:induction false} RootsOfOne(y: int, p: int)
    requires Prime(p) && 0 <= y < p && Cong(y * y, 1, p)
    ensures y == 1 || y == p - 1
  {
    var k := CongMultiple(y * y, 1, p);
    if y == 0 {
      assert Cong(0, 1, p);
      CongRange(0, 1, p);
    } else {
      assert (y - 1) * (y + 1) == k * p;
      DividesTimes(p, k);
      Euclid(p, y - 1, y + 1);
      if Divides(p, y - 1) && y > 1 { DividesLe(p, y - 1); }
      if Divides(p, y + 1) { DividesLe(p, y + 1); }
    }
  }
}
