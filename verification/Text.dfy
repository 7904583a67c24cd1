/** Numbers as strings and as byte strings. */
module Text {
  import opened Numbers
  import opened Digits
  import opened BigIntegers
  import opened AddSub
  import opened Shifts
  import opened BitGroups
  import opened Numerals

  // ----- Reading -----

  /** Set r to the integer that s denotes in base b; characters that are no digits are passed over. */
  method FromString(r: BigInteger, s: string, b: int)
    requires b in {2, 4, 8, 16, 32} && DigitsBelow(s, b)
    modifies r
    ensures r.Valid() && r.Value() == Parse(s, b)
  {
    var k := DigitWidth(b);
    DigitWidthIs(b);
    r.t := 0;
    r.s := 0;
    var i, mi, sh := |s|, false, 0;
    ghost var n: nat := 0;
    assert s[..i] == s;
    while i > 0
      invariant 0 <= i <= |s| && r.s == 0 && Packed(r.digits, r.t, sh, n)
      invariant ReadDigits(s, b) == Shift(ReadDigits(s[..i], b), n) + Val(r.digits, 0, r.t)
      invariant mi == LeadingMinus(s[i..])
    {
      i := i - 1;
      var x := IntAt(s[i]);
      CharTaken(s, b, k, i, n);
      if x < 0 {
        if s[i] == '-' { mi := true; }
      } else {
        mi := false;
        sh := PutGroup(r, x, k, sh, n);
        n := n + k;
      }
    }
    AllRead(s, b, n, Val(r.digits, 0, r.t));
    PlaceMono(0, 0, r.t);
    r.Clamp();
    assert s[0..] == s;
    if mi { NegateTo(r, r); }
  }

  lemma {:induction false} CharTaken(s: string, b: nat, k: nat, i: nat, n: nat)
    requires i < |s| && DigitsBelow(s, b) && Pow(2, k) == b
    ensures LeadingMinus(s[i..]) <==> IntAt(s[i]) < 0 && (s[i] == '-' || LeadingMinus(s[i + 1..]))
    ensures IntAt(s[i]) < 0 ==> ReadDigits(s[..i + 1], b) == ReadDigits(s[..i], b)
    ensures IntAt(s[i]) >= 0 ==>
      Shift(ReadDigits(s[..i + 1], b), n) == Shift(ReadDigits(s[..i], b), n + k) + Shift(IntAt(s[i]), n)
  {
    assert s[i..][1..] == s[i + 1..];
    assert s[..i + 1][..i] == s[..i];
    DigitTaken(ReadDigits(s[..i], b), b, k, IntAt(s[i]), n);
  }

  lemma {:induction false} DigitTaken(h: int, b: int, k: nat, x: int, n: nat)
    requires Pow(2, k) == b
    ensures Shift(h * b + x, n) == Shift(h, n + k) + Shift(x, n)
  {
    ShiftPow(h, k);
    ShiftShift(h, k, n);
    ShiftAdd(h * b, x, n);
  }

  lemma {:induction false} AllRead(s: string, b: nat, n: nat, v: int)
    requires DigitsBelow(s, b) && ReadDigits(s, b) == Shift(ReadDigits(s[..0], b), n) + v
    ensures v == ReadDigits(s, b)
  {
    ShiftMono(0, 0, n);
  }

  /** x & 0x80 != 0. */
  predicate Bit7(x: int) {
    x % 256 >= 0x80
  }

  /** Set r to the signed number that the big-endian bytes s denote. */
  method FromBytes(r: BigInteger, s: seq<int>)
    modifies r
    ensures r.Valid() && r.Value() == BytesValue(s)
  {
    r.t := 0;
    r.s := 0;
    var i, sh := |s|, 0;
    ghost var n: nat := 0;
    assert s[..i] == s;
    PowEight();
    while i > 0
      invariant 0 <= i <= |s| && r.s == 0 && Packed(r.digits, r.t, sh, n)
      invariant i > 0 ==> BytesValue(s) == Shift(BytesValue(s[..i]), n) + Val(r.digits, 0, r.t)
      invariant i == 0 < |s| ==> BytesValue(s) == Val(r.digits, 0, r.t) - (if Bit7(s[0]) then Shift(1, n) else 0)
      invariant i == 0 == |s| ==> Val(r.digits, 0, r.t) == 0
    {
      i := i - 1;
      ByteTaken(s, i, n);
      sh := PutGroup(r, s[i] % 256, 8, sh, n);
      n := n + 8;
    }
    if |s| > 0 && Bit7(s[0]) {
      FillSign(r, sh, n);
    } else {
      PlaceMono(0, 0, r.t);
    }
    r.Clamp();
  }

  lemma {:induction false} ByteTaken(s: seq<int>, i: nat, n: nat)
    requires i < |s|
    ensures i > 0 ==> Shift(BytesValue(s[..i + 1]), n) == Shift(BytesValue(s[..i]), n + 8) + Shift(s[i] % 256, n)
    ensures i == 0 ==>
      Shift(BytesValue(s[..i + 1]), n) == Shift(s[i] % 256, n) - (if Bit7(s[0]) then Shift(1, n + 8) else 0)
  {
    PowEight();
    if i > 0 {
      assert s[..i + 1][..i] == s[..i];
      var h := BytesValue(s[..i]);
      MulComm(h, 256);
      DigitTaken(h, 256, 8, s[i] % 256, n);
    } else {
      assert s[..1][0] == s[0];
      ShiftPow(1, 8);
      ShiftShift(1, 8, n);
      ShiftAdd(s[0] % 256, 256, n);
    }
  }

  /** Sign-extend the n bits written. */
  method FillSign(r: BigInteger, sh: int, ghost n: nat)
    requires Packed(r.digits, r.t, sh, n)
    modifies r`s, r`digits
    ensures r.s == -1 && r.Wf() && r.Value() == old(Val(r.digits, 0, r.t)) - Shift(1, n)
  {
    ghost var a := r.digits;
    r.s := -1;
    SignWeight(r.t, sh, n);
    if sh > 0 {
      FillTop(r.digits[r.t - 1], sh);
      r.Put(r.t - 1, Or(r.digits[r.t - 1], Shl(Pow(2, 28 - sh) - 1, sh)));
      PackedTop(a, r.t, Pow(2, 28 - sh) - 1, sh, r.digits);
    }
  }

  lemma {:induction false} FillTop(top: int, sh: nat)
    requires 0 < sh < 28 && 0 <= top < Pow(2, sh)
    ensures Pow(2, 28 - sh) > 0
    ensures 0 <= Shift(Pow(2, 28 - sh) - 1, sh) < DV
    ensures Or(top, Shift(Pow(2, 28 - sh) - 1, sh)) == top + Shift(Pow(2, 28 - sh) - 1, sh)
    ensures 0 <= top + Shift(Pow(2, 28 - sh) - 1, sh) < DV
  {
    var x := Pow(2, 28 - sh) - 1;
    PowPos(2, 28 - sh);
    ShiftBelow(x, sh);
    OrDisjoint(top, x, sh);
  }

  lemma {:induction false} SignWeight(t: nat, sh: nat, n: nat)
    requires sh < 28 && if sh == 0 then n == 28 * t else t > 0 && n == 28 * (t - 1) + sh
    ensures sh == 0 ==> Place(-1, t) == -Shift(1, n)
    ensures sh > 0 ==> Shift(Pow(2, 28 - sh) - 1, n) + Place(-1, t) == -Shift(1, n)
  {
    PlaceShift(1, t);
    PlaceAdd(0, 1, t); PlaceMono(0, 0, t);
    if sh > 0 {
      ShiftPow(1, 28 - sh);
      ShiftShift(1, 28 - sh, n);
      ShiftAdd(Pow(2, 28 - sh), 1, n);
    }
  }

  // ----- Writing -----

  /** How x is written in base b. */
  method ToString(x: BigInteger, b: int) returns (r: string)
    requires x.Valid() && b in {2, 4, 8, 16, 32}
    ensures r == Numerals.Text(x.Value(), b)
    decreases if x.s < 0 then 1 else 0
  {
    SignOf(x);
    if x.s < 0 {
      var y := Negate(x);
      SignOf(y);
      r := ToString(y, b);
      return "-" + r;
    }
    r := MagnitudeString(x.digits, x.t, b);
    PlaceMono(0, 0, x.t);
    r := if r != "" then r else "0";
    NumeralReads(x.Value(), b);
  }

  /** The digits of a number that is not negative, none for zero. */
  method MagnitudeString(a: seq<int>, t: nat, b: int) returns (r: string)
    requires AreDigits(a, 0, t) && b in {2, 4, 8, 16, 32}
    ensures Val(a, 0, t) >= 0 && r == Numeral(Val(a, 0, t), b)
  {
    var k := DigitWidth(b);
    DigitWidthIs(b);
    ValBound(a, 0, t);
    var m := false;
    r := "";
    var p := 28 - (28 * t) % k;
    var i := t;
    if i > 0 {
      i := i - 1;
      FirstPosition(a, t, 0, k, p);
      ShiftMono(0, 0, 28 - p);
      FirstDigit(Shr(a[i], p), k, b);
      if p < 28 {
        var d := Shr(a[i], p);
        if d > 0 {
          m := true;
          r := [Int2Char(d)];
        }
      } else {
        NoneTaken(a, t, 0, i);
      }
      r := RemainingDigits(a, t, i, p, k, b, m, r);
    }
  }

  method RemainingDigits(a: seq<int>, t: nat, i0: nat, p0: int, k: nat, b: int, m0: bool, r0: string)
    returns (r: string)
    requires AreDigits(a, 0, t) && 2 <= b <= 36 && 1 <= k <= 8 && Pow(2, k) == b
    requires i0 < t && 0 < p0 <= 28 && (28 * i0 + p0) % k == 0
    requires Above(a, t, 0, i0, p0) >= 0 && r0 == Numeral(Above(a, t, 0, i0, p0), b)
    requires m0 <==> Above(a, t, 0, i0, p0) > 0
    ensures Val(a, 0, t) >= 0 && r == Numeral(Val(a, 0, t), b)
  {
    var i, p, m, d := i0, p0, m0, 0;
    r := r0;
    while i >= 0
      invariant -1 <= i < t && 0 < p <= 28 && (28 * i + p) % k == 0 && (i < 0 ==> p == 28)
      invariant Above(a, t, 0, i, p) >= 0 && r == Numeral(Above(a, t, 0, i, p), b)
      invariant m <==> Above(a, t, 0, i, p) > 0
      decreases 28 * i + p
    {
      ghost var e := Above(a, t, 0, i, p);
      d, i, p := NextGroup(a, t, 0, i, p, k);
      ShiftPow(e, k);
      NumeralStep(e, d, b);
      if d > 0 { m := true; }
      if m { r := r + [Int2Char(d)]; }
    }
    PlaceMono(0, 0, t);
  }

  lemma {:induction false} FirstDigit(d: int, k: nat, b: nat)
    requires 1 <= k && Pow(2, k) == b && 2 <= b <= 36 && 0 <= d < Pow(2, k - 1)
    ensures d < b && Numeral(d, b) == if d > 0 then [Int2Char(d)] else ""
  {
    PowMono(2, k - 1, k);
    NumeralStep(0, d, b);
  }

  /** d | (s << k): a number of k bits with the sign s above it. */
  function WithSign(d: int, s: int, k: nat): int
    requires 0 <= d < Pow(2, k) && -1 <= s <= 0
  {
    d + Shift(s, k)
  }

  /** The shortest signed big-endian byte string for x. */
  method ToByteArray(x: BigInteger) returns (r: seq<int>)
    requires x.Valid()
    ensures r == Bytes(x.Value())
  {
    var i := x.t;
    r := [x.s];
    var p := 28 - (28 * i) % 8;
    var k := 0;
    if i > 0 {
      i := i - 1;
      k, r := LeadingBits(x, i, p);
      r := RemainingBytes(x, i, p, k, r);
    }
  }

  /** What has been written when e stands above the current position: nothing while e is only the sign. */
  predicate Written(r: seq<int>, k: int, e: int, s: int) {
    if k == 0 then r == [s] && e == s else r == Bytes(e) && e != 0 && e != -1 && k == |r|
  }

  /** Half a byte, when the number of digits is odd. */
  method LeadingBits(x: BigInteger, i: nat, p: int) returns (k: int, r: seq<int>)
    requires x.Wf() && i == x.t - 1 && p == 28 - (28 * x.t) % 8
    ensures 20 < p <= 28 && (28 * i + p) % 8 == 0 && 0 <= k <= 1
    ensures Written(r, k, Above(x.digits, x.t, x.s, i, p), x.s)
  {
    FirstPosition(x.digits, x.t, x.s, 8, p);
    k, r := 0, [x.s];
    SignAbove(x.s, p, Shr(x.digits[i], p));
    if p < 28 {
      var d := Shr(x.digits[i], p);
      if d != Shr(LowDigit(x.s), p) {
        r := [WithSign(d, x.s, 28 - p)];
        k := 1;
      }
    } else {
      NoneTaken(x.digits, x.t, x.s, i);
    }
  }

  lemma {:induction false} SignAbove(s: int, p: int, d: int)
    requires -1 <= s <= 0 && (p == 24 || p == 28) && 0 <= d < Pow(2, 28 - p)
    ensures Int32(LowDigit(s)) && (p == 28 ==> d == 0 && Shift(s, 28 - p) == s)
    ensures p == 24 ==> Pow(2, 28 - p) == 16 && Shift(s, 28 - p) == 16 * s
    ensures p == 24 ==> (d == Shr(LowDigit(s), p) <==> 16 * s + d == s)
  {
    assert Pow(2, 4) == 2 * Pow(2, 3); assert Pow(2, 3) == 2 * Pow(2, 2);
    assert Pow(2, 2) == 2 * Pow(2, 1); assert Pow(2, 1) == 2 * Pow(2, 0);
    ShiftPow(s, 4);
    if p == 24 {
      PowAdd(2, 24, 4);
      PowDV();
      DivUnique(DM, 0x100_0000, 15, 0xff_ffff);
    }
  }

  method RemainingBytes(x: BigInteger, i0: nat, p0: int, k0: int, r0: seq<int>) returns (r: seq<int>)
    requires x.Wf() && i0 < x.t && 0 < p0 <= 28 && (28 * i0 + p0) % 8 == 0 && k0 >= 0
    requires Written(r0, k0, Above(x.digits, x.t, x.s, i0, p0), x.s)
    ensures r == Bytes(x.Value())
  {
    var i, p, k, d := i0, p0, k0, 0;
    r := r0;
    PowEight();
    while i >= 0
      invariant -1 <= i < x.t && 0 < p <= 28 && (28 * i + p) % 8 == 0 && (i < 0 ==> p == 28) && k >= 0
      invariant Written(r, k, Above(x.digits, x.t, x.s, i, p), x.s)
      decreases 28 * i + p
    {
      ghost var e := Above(x.digits, x.t, x.s, i, p);
      d, i, p := NextGroup(x.digits, x.t, x.s, i, p, 8);
      ShiftPow(e, 8);
      k, r := WriteByte(d, x.s, k, r, e);
    }
  }

  /** Append one byte unless it only repeats the sign. */
  method WriteByte(d0: int, s: int, k0: int, r0: seq<int>, ghost e: int) returns (k: int, r: seq<int>)
    requires 0 <= d0 < 256 && -1 <= s <= 0 && k0 >= 0 && Written(r0, k0, e, s)
    ensures k >= 0 && Written(r, k, 256 * e + d0, s)
  {
    k, r := k0, r0;
    var d := d0;
    PowEight();
    ShiftPow(-1, 8);
    if Bit7(d) { d := WithSign(d, -1, 8); }
    ByteWritten(e, d0, s);
    if k == 0 && Bit7(s) != Bit7(d) { k := k + 1; }
    if k > 0 || d != s {
      r := r[..k] + [d];
      k := k + 1;
    }
  }

  lemma {:induction false} ByteWritten(e: int, d: int, s: int)
    requires 0 <= d < 256 && -1 <= s <= 0
    ensures Signed(d) == (if Bit7(d) then d - 256 else d) && Bit7(Signed(d)) == Bit7(d) && Bit7(s) == (s < 0)
    ensures e != 0 && e != -1 ==> Bytes(256 * e + d) == Bytes(e) + [Signed(d)] && 256 * e + d != 0 && 256 * e + d != -1
    ensures Bit7(s) != Bit7(d) ==> Bytes(256 * s + d) == [s, Signed(d)] && 256 * s + d != 0 && 256 * s + d != -1
    ensures Bit7(s) == Bit7(d) ==> 256 * s + d == Signed(d) && Bytes(Signed(d)) == [Signed(d)]
  {
    if e != 0 && e != -1 { BytesStep(e, d); }
    if Bit7(s) != Bit7(d) { BytesStep(s, d); assert Bytes(s) == [s]; }
  }
}
