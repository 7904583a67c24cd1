/** The padding of section 7.2 of RFC 8017: 0, 2, non-zero bytes, 0, then the message. */
module Padding {
  import opened Numbers
  import opened BigIntegers
  import opened Numerals
  import opened Options
  import opened Text
  import opened BitGroups

  /** A UTF-16 code unit. */
  predicate CodeUnit(c: int) {
    0 <= c < 0x1_0000
  }

  predicate NonZeroBytes(pad: seq<int>) {
    forall i :: 0 <= i < |pad| ==> 0 < pad[i] < 256
  }

  function Reversed(s: seq<int>): (r: seq<int>)
    ensures |r| == |s| && forall i :: 0 <= i < |s| ==> r[i] == s[|s| - 1 - i]
  {
    if s == [] then [] else Reversed(s[1..]) + [s[0]]
  }

  /** The padded message: the pad bytes are placed from the right as they are drawn. */
  function Padded(s: seq<int>, pad: seq<int>, n: int): (r: seq<int>)
    requires n >= |s| + 11 && |pad| >= n - |s| - 3
    ensures |r| == n
  {
    [0, 2] + Reversed(pad[..n - |s| - 3]) + [0] + s
  }

  // ----- Padding -----

  /** The message s padded to n0 bytes as a number, null if it is too long. The bytes drawn
      from the random generator, zeros left out, are a parameter. */
  method Pkcs1Pad2(s: seq<int>, n0: int, pad: seq<int>) returns (m: BigInteger?)
    requires NonZeroBytes(pad) && |pad| >= n0 - |s| - 3
    ensures n0 < |s| + 11 <==> m == null
    ensures m != null ==> fresh(m) && m.Valid() && m.Value() == BytesValue(Padded(s, pad, n0))
  {
    if n0 < |s| + 11 { return null; }
    var ba := new int[n0];
    var n := CopyMessage(ba, s);
    FillPad(ba, n, pad, [0] + s);
    assert ba[..] == Padded(s, pad, n0);
    m := new BigInteger();
    FromBytes(m, ba[..]);
  }

  /** The message at the end of the bytes, a zero in front of it. */
  method CopyMessage(ba: array<int>, s: seq<int>) returns (n: int)
    requires |s| < ba.Length
    modifies ba
    ensures n == ba.Length - |s| - 1 && ba[n..] == [0] + s
  {
    n := ba.Length;
    var i := |s| - 1;
    while i >= 0 && n > 0
      invariant -1 <= i < |s| && n == ba.Length - |s| + i + 1
      invariant forall l :: n <= l < ba.Length ==> ba[l] == s[l - (ba.Length - |s|)]
    {
      n := n - 1;
      ba[n] := s[i];
      i := i - 1;
    }
    n := n - 1;
    ba[n] := 0;
  }

  method FillPad(ba: array<int>, n0: int, pad: seq<int>, ghost rest: seq<int>)
    requires 2 <= n0 <= ba.Length && NonZeroBytes(pad) && |pad| >= n0 - 2 && ba[n0..] == rest
    modifies ba
    ensures ba[..] == [0, 2] + Reversed(pad[..n0 - 2]) + rest
  {
    var n, j := n0, 0;
    ghost var r := Reversed(pad[..n0 - 2]);
    while n > 2
      invariant 2 <= n <= n0 && j == n0 - n && ba[n0..] == rest
      invariant forall l :: n <= l < n0 ==> ba[l] == r[l - 2]
    {
      n := n - 1;
      ba[n] := pad[j];
      j := j + 1;
    }
    ba[1] := 2;
    ba[0] := 0;
    assert ba[2..n0] == r;
    assert ba[..] == ba[..2] + ba[2..n0] + ba[n0..];
  }

  // ----- Unpadding -----

  function SkipZeros(b: seq<int>): seq<int> {
    if b != [] && b[0] == 0 then SkipZeros(b[1..]) else b
  }

  /** What follows the first zero. */
  function AfterZero(b: seq<int>): Option<seq<int>> {
    if b == [] then None else if b[0] == 0 then Some(b[1..]) else AfterZero(b[1..])
  }

  /** String.fromCharCode. */
  function FromCharCode(x: int): int {
    x % 0x1_0000
  }

  function CodeUnits(b: seq<int>): (r: seq<int>)
    ensures |r| == |b| && forall i :: 0 <= i < |b| ==> r[i] == FromCharCode(b[i])
  {
    if b == [] then [] else [FromCharCode(b[0])] + CodeUnits(b[1..])
  }

  /** The message in n - 1 bytes 2, non-zero bytes, 0, message after any leading zeros. */
  function Unpad(b: seq<int>, n: int): Option<seq<int>> {
    var c := SkipZeros(b);
    if |c| != n - 1 || c == [] || c[0] != 2 then None
    else
      match AfterZero(c[1..])
      case None => None
      case Some(t) => Some(CodeUnits(t))
  }

  lemma {:induction false} SkipZerosSplits(b: seq<int>) returns (z: seq<int>)
    ensures b == z + SkipZeros(b) && AllZero(z) && (SkipZeros(b) != [] ==> SkipZeros(b)[0] != 0)
  {
    if b != [] && b[0] == 0 {
      z := SkipZerosSplits(b[1..]);
      z := [0] + z;
    } else {
      z := [];
    }
  }

  lemma {:induction false} SkipsAllZero(z: seq<int>, c: seq<int>)
    requires AllZero(z) && c != [] && c[0] != 0
    ensures SkipZeros(z + c) == c
  {
    if z == [] {
      assert z + c == c;
    } else {
      SkipsAllZero(z[1..], c);
      assert (z + c)[1..] == z[1..] + c;
    }
  }

  lemma {:induction false} AfterZeroSplits(b: seq<int>) returns (p: seq<int>)
    requires AfterZero(b).Some?
    ensures b == p + [0] + AfterZero(b).value && NoZero(p)
  {
    if b[0] == 0 {
      p := [];
    } else {
      p := AfterZeroSplits(b[1..]);
      p := [b[0]] + p;
    }
  }

  lemma {:induction false} AfterNoZero(p: seq<int>, u: seq<int>)
    requires NoZero(p)
    ensures AfterZero(p + [0] + u) == Some(u)
  {
    var b := p + [0] + u;
    if p != [] {
      AfterNoZero(p[1..], u);
      assert b[1..] == p[1..] + [0] + u;
    }
  }

  predicate AllZero(z: seq<int>) {
    forall i :: 0 <= i < |z| ==> z[i] == 0
  }

  predicate NoZero(p: seq<int>) {
    forall i :: 0 <= i < |p| ==> p[i] != 0
  }

  /** A block of type 2: any zeros, 2, bytes other than zero, 0, then u, with n - 1 bytes from the 2 on. */
  ghost predicate Block(b: seq<int>, n: int, z: seq<int>, p: seq<int>, u: seq<int>) {
    b == z + [2] + p + [0] + u && AllZero(z) && NoZero(p) && |p| + |u| + 2 == n - 1
  }

  lemma LeadByte(c: seq<int>)
    requires c != []
    ensures c == [c[0]] + c[1..]
  {
  }

  lemma Regrouped(z: seq<int>, p: seq<int>, u: seq<int>)
    ensures z + ([2] + (p + [0] + u)) == z + [2] + p + [0] + u
  {
  }

  lemma {:induction false} UnpaddedIsBlock(b: seq<int>, n: int) returns (z: seq<int>, p: seq<int>, u: seq<int>)
    requires Unpad(b, n).Some?
    ensures Block(b, n, z, p, u) && Unpad(b, n) == Some(CodeUnits(u))
  {
    var c := SkipZeros(b);
    z := SkipZerosSplits(b);
    p := AfterZeroSplits(c[1..]);
    u := AfterZero(c[1..]).value;
    hide SkipZeros, AfterZero, AllZero, NoZero;
    LeadByte(c);
    Regrouped(z, p, u);
  }

  lemma {:induction false} BlockIsUnpadded(b: seq<int>, n: int, z: seq<int>, p: seq<int>, u: seq<int>)
    requires Block(b, n, z, p, u)
    ensures Unpad(b, n) == Some(CodeUnits(u))
  {
    var c := [2] + (p + [0] + u);
    Regrouped(z, p, u);
    SkipsAllZero(z, c);
    AfterNoZero(p, u);
    assert c[1..] == p + [0] + u;
  }

  /** Exactly the blocks of type 2 are unpadded, to the character codes of what follows; all others are refused. */
  lemma {:induction false} UnpadExact(b: seq<int>, n: int, t: seq<int>)
    ensures Unpad(b, n) == Some(t) <==> exists z, p, u :: Block(b, n, z, p, u) && t == CodeUnits(u)
  {
    hide Unpad, CodeUnits, Block;
    if Unpad(b, n) == Some(t) {
      var z, p, u := UnpaddedIsBlock(b, n);
    }
    if z, p, u :| Block(b, n, z, p, u) && t == CodeUnits(u) {
      BlockIsUnpadded(b, n, z, p, u);
    }
  }

  method Pkcs1Unpad2(d: BigInteger, n: int) returns (r: Option<seq<int>>)
    requires d.Valid()
    ensures r == Unpad(Bytes(d.Value()), n)
    ensures forall t :: r == Some(t) <==>
      exists z, p, u :: Block(Bytes(d.Value()), n, z, p, u) && t == CodeUnits(u)
  {
    forall t ensures Unpad(Bytes(d.Value()), n) == Some(t) <==>
        exists z, p, u :: Block(Bytes(d.Value()), n, z, p, u) && t == CodeUnits(u)
    {
      UnpadExact(Bytes(d.Value()), n, t);
    }
    var b := ToByteArray(d);
    var i := 0;
    while i < |b| && b[i] == 0
      invariant 0 <= i <= |b| && SkipZeros(b) == SkipZeros(b[i..])
    {
      i := i + 1;
    }
    if |b| - i != n - 1 || i == |b| || b[i] != 2 { return None; }
    ghost var c := SkipZeros(b);
    assert c == b[i..];
    i := i + 1;
    assert c[1..] == b[i..];
    r := RestAfterZero(b, i);
  }

  method RestAfterZero(b: seq<int>, i0: nat) returns (r: Option<seq<int>>)
    requires i0 <= |b|
    ensures r == match AfterZero(b[i0..]) case None => None case Some(t) => Some(CodeUnits(t))
  {
    var i := i0;
    while i >= |b| || b[i] != 0
      invariant i0 <= i <= |b| && AfterZero(b[i0..]) == AfterZero(b[i..])
      decreases |b| - i
    {
      i := i + 1;
      if i >= |b| {
        return None;
      }
    }
    var ret := CharCodes(b, i + 1);
    assert b[i..][1..] == b[i + 1..];
    r := Some(ret);
  }

  method CharCodes(b: seq<int>, i0: nat) returns (ret: seq<int>)
    requires i0 <= |b|
    ensures ret == CodeUnits(b[i0..])
  {
    var i := i0;
    ret := [];
    while i < |b|
      invariant i0 <= i <= |b| && |ret| == i - i0
      invariant forall l :: 0 <= l < |ret| ==> ret[l] == FromCharCode(b[i0 + l])
    {
      ret := ret + [FromCharCode(b[i])];
      i := i + 1;
    }
  }

  // ----- One undoes the other -----

  function SignedAll(s: seq<int>): (r: seq<int>)
    ensures |r| == |s| && forall i :: 0 <= i < |s| ==> r[i] == Signed(s[i])
  {
    if s == [] then [] else SignedAll(s[..|s| - 1]) + [Signed(s[|s| - 1])]
  }

  lemma {:induction false} LeadingZero(s: seq<int>)
    requires |s| >= 1 && s[0] % 256 < 128
    ensures BytesValue([0] + s) == BytesValue(s)
  {
    var z := [0] + s;
    if |s| == 1 {
      assert z[..1] == [0];
    } else {
      LeadingZero(s[..|s| - 1]);
      assert z[..|z| - 1] == [0] + s[..|s| - 1];
    }
  }

  lemma {:induction false} SignedAllValue(s: seq<int>)
    ensures BytesValue(SignedAll(s)) == BytesValue(s)
  {
    if |s| > 1 {
      SignedAllValue(s[..|s| - 1]);
      var r := SignedAll(s);
      assert r[..|r| - 1] == SignedAll(s[..|s| - 1]);
      SignedMod(s[|s| - 1]);
    } else if |s| == 1 {
      SignedMod(s[0]);
    }
  }

  lemma {:induction false} SignedMod(x: int)
    ensures Signed(x) % 256 == x % 256 && Signed(Signed(x)) == Signed(x)
    ensures Signed(x) == 0 <==> x % 256 == 0
  {}

  /** The padded message as bytes: the leading zero is dropped, nothing else. */
  lemma {:induction false} PaddedBytes(p: seq<int>)
    requires |p| >= 3 && p[0] == 0 && p[1] == 2
    ensures Bytes(BytesValue(p)) == SignedAll(p[1..])
  {
    var c := p[1..];
    assert p == [0] + c;
    LeadingZero(c);
    SignedAllValue(c);
    ShortestIsBytes(SignedAll(c));
  }

  lemma {:induction false} ZeroEndsPad(b: seq<int>, k: nat)
    requires k < |b| && b[k] == 0 && forall i :: 0 <= i < k ==> b[i] != 0
    ensures AfterZero(b) == Some(b[k + 1..])
  {
    if k > 0 {
      ZeroEndsPad(b[1..], k - 1);
      assert b[1..][k..] == b[k + 1..];
    }
  }

  /** What unpadding gives back of a message: each unit as its low byte, sign-extended. */
  function Received(s: seq<int>): (r: seq<int>)
    ensures |r| == |s| && forall i :: 0 <= i < |s| ==> r[i] == FromCharCode(Signed(s[i]))
  {
    CodeUnits(SignedAll(s))
  }

  /** A unit that survives: 7-bit, or in the range of sign-extended bytes. */
  predicate Survives(c: int) {
    0 <= c < 0x80 || 0xFF80 <= c < 0x1_0000
  }

  /** A message comes back unchanged exactly when all its units survive. */
  lemma {:induction false} ReceivedExact(s: seq<int>)
    requires forall i :: 0 <= i < |s| ==> CodeUnit(s[i])
    ensures Received(s) == s <==> forall i :: 0 <= i < |s| ==> Survives(s[i])
  {
    forall i | 0 <= i < |s| ensures Received(s)[i] == s[i] <==> Survives(s[i]) {
      UnitSurvives(s[i]);
    }
  }

  lemma {:induction false} UnitSurvives(c: int)
    requires CodeUnit(c)
    ensures FromCharCode(Signed(c)) == c <==> Survives(c)
  {}

  /** Unpadding the bytes of a padded message gives the message as received. */
  lemma {:induction false} UnpadPadded(s: seq<int>, pad: seq<int>, n: int)
    requires n >= |s| + 11 && NonZeroBytes(pad) && |pad| >= n - |s| - 3
    ensures Unpad(Bytes(BytesValue(Padded(s, pad, n))), n) == Some(Received(s))
  {
    var p, k := Padded(s, pad, n), n - |s| - 3;
    PaddedBytes(p);
    var b := SignedAll(p[1..]);
    PaddedParts(s, pad, n);
    ZeroEndsPad(b[1..], k);
    assert b[1..][k + 1..] == SignedAll(s);
  }

  /** Behind the leading byte: no zero before place n - |s| - 3, then a zero, then the message. */
  lemma {:induction false} PaddedParts(s: seq<int>, pad: seq<int>, n: int)
    requires n >= |s| + 11 && NonZeroBytes(pad) && |pad| >= n - |s| - 3
    ensures var b, k := SignedAll(Padded(s, pad, n)[1..]), n - |s| - 3;
            && |b| == n - 1 && b[0] == 2 && b[k + 1] == 0
            && (forall i :: 1 <= i <= k ==> b[i] != 0)
            && (forall i :: 0 <= i < |s| ==> b[k + 2 + i] == Signed(s[i]))
  {
    var p, k := Padded(s, pad, n), n - |s| - 3;
    var b := SignedAll(p[1..]);
    forall i | 1 <= i <= k ensures b[i] != 0 {
      assert p[i + 1] == Reversed(pad[..k])[i - 1];
      SignedMod(p[i + 1]);
    }
  }

  /** The padded message as a number: it starts with the byte 2 below the highest. */
  lemma {:induction false} PaddedRange(p: seq<int>)
    requires |p| >= 2 && p[0] == 0 && 0 <= p[1] < 128
    ensures 0 <= BytesValue(p) < Shift(128, 8 * (|p| - 2))
  {
    if |p| == 2 {
      assert p[..1] == [0];
    } else {
      var h := p[..|p| - 1];
      PaddedRange(h);
      var v, m := BytesValue(h), Shift(128, 8 * (|p| - 3));
      PowEight();
      ShiftShift(128, 8 * (|p| - 3), 8);
      ShiftPow(m, 8);
    }
  }
}
