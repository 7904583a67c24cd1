/** RSA keys: encryption, decryption, and that the second undoes the first. */
module Rsa {
  import opened Numbers
  import opened Digits
  import opened BigIntegers
  import opened AddSub
  import opened Compare
  import opened Multiply
  import opened BarrettReduction
  import opened Exponentiation
  import opened Divisors
  import opened RsaArithmetic
  import opened Numerals
  import opened Text
  import opened Padding
  import opened Options
  import BitGroups
  import Shifts

  class RSAKey {
    var n: BigInteger?
    var e: int
    var d: BigInteger?
    var p: BigInteger?
    var q: BigInteger?
    var dmp1: BigInteger?
    var dmq1: BigInteger?
    var coeff: BigInteger?

    /** An empty key. */
    constructor ()
      ensures n == null && e == 0 && d == null && p == null && q == null
    {
      n, e, d, p, q, dmp1, dmq1, coeff := null, 0, null, null, null, null, null, null;
    }

    ghost predicate Public()
      reads this, n
    {
      Modulus(n) && 1 <= e <= 0xffff_ffff
    }

    /** The fields the private step reads are set: d alone, or the parts for the remainder step. */
    ghost predicate Private()
      reads this, n, d, p, q, dmp1, dmq1, coeff
    {
      && Modulus(n)
      && if p == null || q == null then Exponent(d)
         else Modulus(p) && Modulus(q) && Exponent(dmp1) && Exponent(dmq1) && coeff != null && coeff.Valid()
    }

    /** y is the private image of x: the residues of two smaller powers, or one power modulo n. */
    ghost predicate PrivateImage(x: int, y: int)
      requires Private()
      reads this, n, d, p, q, dmp1, dmq1, coeff
    {
      if p == null || q == null then y == Pow(x, d.Value()) % n.Value()
      else
        && Cong(y, Pow(x, dmp1.Value()), p.Value()) && Cong(y, Pow(x, dmq1.Value()), q.Value())
        && 0 <= y < p.Value() * q.Value()
    }

    /** A key pair over the primes P and Q, which are not the same. Where the parts are there the inverse in coeff
        tells. */
    ghost predicate Pair(P: int, Q: int)
      reads this, n, d, p, q, dmp1, dmq1, coeff
    {
      && Public() && Private() && Prime(P) && Prime(Q) && n.Value() == P * Q
      && if p == null || q == null then
           P != Q && d.Value() > 0 && Cong(e * d.Value(), 1, P - 1) && Cong(e * d.Value(), 1, Q - 1)
         else
           && p.Value() == P && q.Value() == Q && Cong(coeff.Value() * Q, 1, P)
           && dmp1.Value() > 0 && Cong(e * dmp1.Value(), 1, P - 1)
           && dmq1.Value() > 0 && Cong(e * dmq1.Value(), 1, Q - 1)
    }
  }

  ghost predicate Modulus(m: BigInteger?)
    reads m
  {
    m != null && m.Valid() && m.Value() > 1 && m.t < 0x400_0000
  }

  ghost predicate Exponent(d: BigInteger?)
    reads d
  {
    d != null && d.Valid() && d.Value() >= 0
  }

  // ----- The two raw operations -----

  method DoPublic(key: RSAKey, x: BigInteger) returns (y: BigInteger)
    requires key.Public() && x.Valid()
    ensures fresh(y) && y.Valid() && y.Value() >= 0 && y.Value() == Pow(x.Value(), key.e) % key.n.Value()
  {
    y := ModPowInt(x, key.e, key.n);
    DivMod(Pow(x.Value(), key.e), key.n.Value());
  }

  /** x^e mod m for x reduced first. */
  method ReducedPower(x: BigInteger, e: BigInteger, m: BigInteger) returns (y: BigInteger)
    requires x.Valid() && Exponent(e) && Modulus(m)
    ensures fresh(y) && y.Valid() && 0 <= y.Value() < m.Value() && Cong(y.Value(), Pow(x.Value(), e.Value()), m.Value())
  {
    var u := Mod(x, m);
    CongSelf(x.Value(), m.Value());
    CongPow(u.Value(), x.Value(), e.Value(), m.Value());
    y := ModPow(u, e, m);
    CongSelf(Pow(u.Value(), e.Value()), m.Value());
    DivMod(Pow(u.Value(), e.Value()), m.Value());
  }

  method DoPrivate(key: RSAKey, x: BigInteger) returns (y: BigInteger)
    requires key.Private() && x.Valid()
    requires key.p != null && key.q != null ==> Cong(key.coeff.Value() * key.q.Value(), 1, key.p.Value())
    ensures fresh(y) && y.Valid() && key.PrivateImage(x.Value(), y.Value())
  {
    if key.p == null || key.q == null {
      y := ModPow(x, key.d, key.n);
      PowerZero(x.Value(), key.d.Value(), key.n.Value());
      return;
    }
    var xp := ReducedPower(x, key.dmp1, key.p);
    var xq := ReducedPower(x, key.dmq1, key.q);
    y := Recombine(xp, xq, key.p, key.q, key.coeff);
  }

  lemma {:induction false} PowerZero(x: int, e: nat, m: int)
    requires m > 1
    ensures e == 0 ==> Pow(x, e) % m == 1
  {
    DivUnique(1, m, 0, 1);
  }

  /** The number below p * q that is xp modulo p and xq modulo q. */
  method Recombine(xp0: BigInteger, xq: BigInteger, p: BigInteger, q: BigInteger, coeff: BigInteger)
    returns (y: BigInteger)
    requires xp0.Valid() && xq.Valid() && p.Valid() && q.Valid() && coeff.Valid()
    requires p.Value() > 0 && 0 <= xp0.Value() && 0 <= xq.Value() < q.Value()
    requires Cong(coeff.Value() * q.Value(), 1, p.Value())
    ensures fresh(y) && y.Valid() && 0 <= y.Value() < p.Value() * q.Value()
    ensures Cong(y.Value(), xp0.Value(), p.Value()) && Cong(y.Value(), xq.Value(), q.Value())
  {
    var xp := Raise(xp0, xq, p);
    var t := Subtract(xp, xq);
    var u := new BigInteger();
    MultiplyTo(t, coeff, u);
    var v := Mod(u, p);
    var w := new BigInteger();
    MultiplyTo(v, q, w);
    y := Add(w, xq);
    Recombined(xp.Value(), xq.Value(), coeff.Value(), p.Value(), q.Value(), y.Value());
  }

  /** Add p until the number is not below xq. */
  method Raise(xp0: BigInteger, xq: BigInteger, p: BigInteger) returns (xp: BigInteger)
    requires xp0.Valid() && xq.Valid() && p.Valid() && p.Value() > 0 && 0 <= xp0.Value() && 0 <= xq.Value()
    ensures xp.Valid() && xp.Value() >= xq.Value() && Cong(xp.Value(), xp0.Value(), p.Value())
  {
    xp := xp0;
    SignOf(xp); SignOf(xq);
    var c := CompareTo(xp, xq);
    while c < 0
      invariant xp.Valid() && xp.Value() >= 0 && Cong(xp.Value(), xp0.Value(), p.Value())
      invariant c < 0 <==> xp.Value() < xq.Value()
      decreases xq.Value() - xp.Value()
    {
      CongFromMultiple(xp.Value() + p.Value(), xp.Value(), 1, p.Value());
      xp := Add(xp, p);
      SignOf(xp);
      c := CompareTo(xp, xq);
    }
  }

  // ----- Message lengths -----

  /** How many bytes a number takes. */
  function ByteLength(v: nat): nat {
    if v == 0 then 0 else ByteLength(v / 256) + 1
  }

  lemma {:induction false} ByteLengthIs(v: nat, l: nat)
    requires l > 0 && Shift(1, l - 1) <= v < Shift(1, l)
    ensures ByteLength(v) == (l + 7) / 8 && Shift(1, 8 * (ByteLength(v) - 1)) <= v
  {
    if l > 8 {
      EightBits(v, l);
      ByteLengthIs(v / 256, l - 8);
      var b := 8 * (ByteLength(v / 256) - 1);
      ShiftShift(1, b, 8);
      ShiftPow(Shift(1, b), 8);
      BitGroups.PowEight();
      DivMod(v, 256);
    } else {
      ShiftPow(1, l); ShiftPow(1, l - 1);
      PowMono(2, l, 8);
      BitGroups.PowEight();
      assert v / 256 == 0;
    }
  }

  lemma {:induction false} EightBits(v: nat, l: nat)
    requires l > 8 && Shift(1, l - 1) <= v < Shift(1, l)
    ensures Shift(1, l - 9) <= v / 256 < Shift(1, l - 8)
  {
    ShiftShift(1, l - 9, 8); ShiftShift(1, l - 8, 8);
    ShiftPow(Shift(1, l - 9), 8); ShiftPow(Shift(1, l - 8), 8);
    BitGroups.PowEight();
  }

  /** (n.bitLength() + 7) >> 3. */
  method ModulusBytes(n: BigInteger) returns (k: int)
    requires Modulus(n)
    ensures k == ByteLength(n.Value()) > 0 && Shift(1, 8 * (k - 1)) <= n.Value()
  {
    var l := BitLength(n);
    BitLengthSmall(n, l);
    ByteLengthIs(n.Value(), l);
    k := Shr(l + 7, 3);
    assert Pow(2, 3) == 2 * Pow(2, 2); assert Pow(2, 2) == 2 * Pow(2, 1); assert Pow(2, 1) == 2 * Pow(2, 0);
  }

  lemma {:induction false} BitLengthSmall(n: BigInteger, l: int)
    requires Modulus(n) && l > 0 && Shift(1, l - 1) <= n.Value()
    ensures l + 7 < 0x8000_0000
  {
    SignOf(n);
    PlaceShift(1, n.t);
    if l - 1 > 28 * n.t {
      ShiftShift(1, l - 1 - 28 * n.t, 28 * n.t);
      Shifts.ShiftGrows(1, l - 1 - 28 * n.t);
      ShiftMono(1, Shift(1, l - 1 - 28 * n.t), 28 * n.t);
    }
  }

  // ----- Encryption and decryption -----

  /** An even number of hexadecimal digits for the encrypted padded message, none if it is too long. */
  method Encrypt(key: RSAKey, text: seq<int>, pad: seq<int>) returns (r: Option<string>)
    requires key.Public() && NonZeroBytes(pad) && |pad| >= ByteLength(key.n.Value()) - |text| - 3
    ensures r == None <==> |text| + 11 > ByteLength(key.n.Value())
    ensures r.Some? ==> |r.value| % 2 == 0 && DigitsBelow(r.value, 16)
    ensures r.Some? ==>
      Parse(r.value, 16) == Pow(BytesValue(Padded(text, pad, ByteLength(key.n.Value()))), key.e) % key.n.Value()
  {
    var k := ModulusBytes(key.n);
    var m := Pkcs1Pad2(text, k, pad);
    if m == null { return None; }
    var c := DoPublic(key, m);
    var h := EvenHex(c);
    r := Some(h);
  }

  /** x in hexadecimal, with a zero in front where that makes the length even. */
  method EvenHex(c: BigInteger) returns (h: string)
    requires c.Valid() && c.Value() >= 0
    ensures |h| % 2 == 0 && DigitsBelow(h, 16) && Parse(h, 16) == c.Value()
  {
    h := ToString(c, 16);
    ParseText(c.Value(), 16);
    if |h| % 2 == 0 { return; }
    EvenLength(c.Value(), h);
    h := "0" + h;
  }

  lemma {:induction false} EvenLength(v: nat, h: string)
    requires h == Numerals.Text(v, 16)
    ensures DigitsBelow("0" + h, 16) && Parse("0" + h, 16) == v
  {
    ParseText(v, 16);
    NumeralReads(v, 16);
    ZeroFirst(h, 16);
  }

  lemma {:induction false} ZeroFirst(s: string, b: nat)
    requires b > 0 && DigitsBelow(s, b)
    ensures ReadDigits("0" + s, b) == ReadDigits(s, b)
  {
    var z := "0" + s;
    if s == "" {
      assert z[..0] == "";
    } else {
      ZeroFirst(s[..|s| - 1], b);
      assert z[..|s|] == "0" + s[..|s| - 1];
    }
  }

  /** The message in the private image of the number ctext denotes. */
  method Decrypt(key: RSAKey, ctext: string) returns (r: Option<seq<int>>)
    requires key.Private() && DigitsBelow(ctext, 16)
    requires key.p != null && key.q != null ==> Cong(key.coeff.Value() * key.q.Value(), 1, key.p.Value())
    ensures exists m :: key.PrivateImage(Parse(ctext, 16), m) && r == Unpad(Bytes(m), ByteLength(key.n.Value()))
  {
    var c := new BigInteger();
    FromString(c, ctext, 16);
    var y := DoPrivate(key, c);
    var k := ModulusBytes(key.n);
    r := Pkcs1Unpad2(y, k);
    assert key.PrivateImage(Parse(ctext, 16), y.Value());
  }

  /** The private image of the public image of m below the modulus is m. */
  lemma {:induction false} PrivateUndoesPublic(key: RSAKey, P: int, Q: int, m: nat, y: int)
    requires key.Pair(P, Q) && m < key.n.Value()
    requires key.PrivateImage(Pow(m, key.e) % key.n.Value(), y)
    ensures y == m
  {
    var N := key.n.Value();
    var c := Pow(m, key.e) % N;
    MulPos(P, Q);
    if key.p == null || key.q == null {
      var x := Pow(c, key.d.Value());
      CongSelf(x, N);
      DivMod(x, N);
      CongFactor(y, x, P, Q);
      DecryptionUndoes(m, P, Q, key.e, key.d.Value(), key.d.Value(), y);
    } else {
      InverseMeansDistinct(key.coeff.Value(), P, Q);
      DecryptionUndoes(m, P, Q, key.e, key.dmp1.Value(), key.dmq1.Value(), y);
    }
  }

  /** A padded message is below a modulus of as many bytes. */
  lemma {:induction false} PaddedFits(text: seq<int>, pad: seq<int>, n: int, k: nat)
    requires k >= |text| + 11 && |pad| >= k - |text| - 3 && Shift(1, 8 * (k - 1)) <= n
    ensures 0 <= BytesValue(Padded(text, pad, k)) < n
  {
    PaddedRange(Padded(text, pad, k));
    ShiftShift(1, 8, 8 * (k - 2));
    ShiftPow(1, 8);
    BitGroups.PowEight();
    ShiftMono(128, 256, 8 * (k - 2));
  }

  /** What the benchmark does: decrypt what was encrypted. A message of surviving units comes back unchanged. */
  method EncryptAndDecrypt(key: RSAKey, ghost P: int, ghost Q: int, text: seq<int>, pad: seq<int>)
    returns (r: Option<seq<int>>)
    requires key.Pair(P, Q) && NonZeroBytes(pad) && |pad| >= ByteLength(key.n.Value()) - |text| - 3
    requires forall i :: 0 <= i < |text| ==> CodeUnit(text[i])
    ensures |text| + 11 > ByteLength(key.n.Value()) ==> r == None
    ensures |text| + 11 <= ByteLength(key.n.Value()) ==> r == Some(Received(text))
    ensures r == Some(text)
      <==> |text| + 11 <= ByteLength(key.n.Value()) && forall i :: 0 <= i < |text| ==> Survives(text[i])
  {
    ReceivedExact(text);
    var encrypted := Encrypt(key, text, pad);
    if encrypted.None? { return None; }
    r := Decrypt(key, encrypted.value);
    ghost var m: int :|
      key.PrivateImage(Parse(encrypted.value, 16), m) && r == Unpad(Bytes(m), ByteLength(key.n.Value()));
    Recovered(key, P, Q, text, pad, m);
  }

  lemma {:induction false} Recovered(key: RSAKey, P: int, Q: int, text: seq<int>, pad: seq<int>, m: int)
    requires key.Pair(P, Q) && NonZeroBytes(pad)
    requires ByteLength(key.n.Value()) >= |text| + 11 && |pad| >= ByteLength(key.n.Value()) - |text| - 3
    requires key.PrivateImage(Pow(BytesValue(Padded(text, pad, ByteLength(key.n.Value()))), key.e) % key.n.Value(), m)
    ensures Unpad(Bytes(m), ByteLength(key.n.Value())) == Some(Received(text))
  {
    var N := key.n.Value();
    var k := ByteLength(N);
    ByteLengthLow(N);
    PaddedFits(text, pad, N, k);
    PrivateUndoesPublic(key, P, Q, BytesValue(Padded(text, pad, k)), m);
    UnpadPadded(text, pad, k);
  }

  lemma {:induction false} ByteLengthLow(v: nat)
    requires v > 0
    ensures Shift(1, 8 * (ByteLength(v) - 1)) <= v
  {
    if v >= 256 {
      ByteLengthLow(v / 256);
      var b := 8 * (ByteLength(v / 256) - 1);
      ShiftShift(1, b, 8);
      ShiftPow(Shift(1, b), 8);
      BitGroups.PowEight();
      DivMod(v, 256);
    }
  }
}
