/** Why RSA decryption undoes encryption, and the Chinese remainder step. */
module RsaArithmetic {
  import opened Numbers
  import opened Divisors
  import opened Fermat

  lemma {:induction false} PowOfOne(n: nat)
    ensures Pow(1, n) == 1
  {
    if n > 0 { PowOfOne(n - 1); }
  }

  /** Exponents that are inverse modulo p - 1 cancel, multiples of p included. */
  lemma {:induction false} ExponentsCancel(m: nat, p: int, e: nat, d: nat)
    requires Prime(p) && e > 0 && d > 0 && Cong(e * d, 1, p - 1)
    ensures Cong(Pow(Pow(m, e), d), m, p)
  {
    PowMul(m, e, d);
    MulPos(e, d);
    var k := CongMultiple(e * d, 1, p - 1);
    if k < 0 { MulLe(k, -1, p - 1); }
    var n := e * d - 1;
    assert Pow(m, e * d) == m * Pow(m, n);
    if Divides(p, m) {
      var l := Factor(p, m);
      MulAssoc(l, p, Pow(m, n)); MulComm(p, Pow(m, n)); MulAssoc(l, Pow(m, n), p);
      CongFromMultiple(m * Pow(m, n), m, l * Pow(m, n) - l, p);
    } else {
      UnitPower(m, p);
      MulComm(k, p - 1);
      PowMul(m, p - 1, k);
      CongPow(Pow(m, p - 1), 1, k, p);
      PowOfOne(k);
      CongMul(m, m, Pow(m, n), 1, p);
    }
  }

  /** The recombination: y below p * q with the given residues. */
  lemma {:induction false} Recombined(xp: int, xq: int, c: int, p: int, q: int, y: int)
    requires p > 0 && 0 <= xq < q && Cong(c * q, 1, p)
    requires y == (xp - xq) * c % p * q + xq
    ensures 0 <= y < p * q && Cong(y, xp, p) && Cong(y, xq, q)
  {
    var h := (xp - xq) * c % p;
    DivMod((xp - xq) * c, p);
    MulNonNeg(h, q);
    MulLe(h, p - 1, q);
    MulDistrib(q, p, 1); MulComm(q, p); MulComm(q, p - 1);
    CongFromMultiple(y, xq, h, q);
    CongSelf((xp - xq) * c, p);
    CongMul(h, (xp - xq) * c, q, q, p);
    MulAssoc(xp - xq, c, q);
    CongMul(xp - xq, xp - xq, c * q, 1, p);
    CongAdd(h * q, xp - xq, xq, xq, p);
  }

  /** A common multiple of two primes is a multiple of their product. */
  lemma {:induction false} CommonMultiple(v: int, k: int, l: int, p: int, q: int)
    requires Prime(p) && Prime(q) && p != q && v > 0 && v == k * q && v == l * p
    ensures v >= p * q
  {
    if k <= 0 { MulLe(k, 0, q); }
    DividesTimes(p, l);
    Euclid(p, k, q);
    if Divides(p, q) {
      NoPrimeDivides(p, q);
    } else {
      DividesLe(p, k);
      MulLe(p, k, q);
    }
  }

  lemma {:induction false} NoPrimeDivides(p: int, q: int)
    requires Prime(p) && Prime(q) && Divides(p, q)
    ensures p == q
  {
    DividesLe(p, q);
  }

  /** A number below the product of two primes is determined by its residues. */
  lemma {:induction false} ResiduesDetermine(y: int, z: int, p: int, q: int)
    requires Prime(p) && Prime(q) && p != q && 0 <= y < p * q && 0 <= z < p * q
    requires Cong(y, z, p) && Cong(y, z, q)
    ensures y == z
    decreases y < z
  {
    if y < z {
      ResiduesDetermine(z, y, p, q);
    } else if y > z {
      var k := CongMultiple(y, z, q);
      var l := CongMultiple(y, z, p);
      CommonMultiple(y - z, k, l, p, q);
    }
  }

  /** A congruence modulo a product holds modulo each factor. */
  lemma {:induction false} CongFactor(x: int, y: int, p: int, q: int)
    requires p > 0 && q > 0 && p * q > 0 && Cong(x, y, p * q)
    ensures Cong(x, y, p) && Cong(x, y, q)
  {
    var k := CongMultiple(x, y, p * q);
    MulAssoc(k, p, q);
    CongFromMultiple(x, y, k * p, q);
    MulComm(p, q); MulAssoc(k, q, p);
    CongFromMultiple(x, y, k * q, p);
  }

  /** An inverse of q modulo p exists only for another prime. */
  lemma {:induction false} InverseMeansDistinct(c: int, p: int, q: int)
    requires Prime(p) && Cong(c * q, 1, p)
    ensures p != q
  {
    if p == q {
      CongFromMultiple(c * q, 0, c, p);
      CongRange(0, 1, p);
    }
  }

  /** A number with the residues of the decrypted message is the message. */
  lemma {:induction false} DecryptionUndoes(m: nat, p: int, q: int, e: nat, dp: nat, dq: nat, y: int)
    requires Prime(p) && Prime(q) && p != q && p * q > 0 && m < p * q && 0 <= y < p * q
    requires e > 0 && dp > 0 && dq > 0 && Cong(e * dp, 1, p - 1) && Cong(e * dq, 1, q - 1)
    requires Cong(y, Pow(Pow(m, e) % (p * q), dp), p) && Cong(y, Pow(Pow(m, e) % (p * q), dq), q)
    ensures y == m
  {
    var c := Pow(m, e) % (p * q);
    CongSelf(Pow(m, e), p * q);
    CongFactor(c, Pow(m, e), p, q);
    CongPow(c, Pow(m, e), dp, p);
    CongPow(c, Pow(m, e), dq, q);
    ExponentsCancel(m, p, e, dp);
    ExponentsCancel(m, q, e, dq);
    ResiduesDetermine(y, m, p, q);
  }
}
