/** What numerals and byte strings stand for: the references that printing and parsing are proved against. */
module Numerals {
  import opened Numbers

  // ----- Digit characters -----

  function Int2Char(n: int): char
    requires 0 <= n < 36
  {
    if n < 10 then '0' + n as char else 'a' + (n - 10) as char
  }

  /** The value of a digit character, -1 for any other. */
  function IntAt(c: char): int {
    if '0' <= c <= '9' then c as int - '0' as int
    else if 'a' <= c <= 'z' then c as int - 'a' as int + 10
    else if 'A' <= c <= 'Z' then c as int - 'A' as int + 10
    else -1
  }

  /** How many bits a digit of base b holds, for the bases that are powers of two. */
  function DigitWidth(b: int): nat {
    if b == 16 then 4 else if b == 8 then 3 else if b == 2 then 1 else if b == 32 then 5 else if b == 4 then 2 else 0
  }

  lemma {:induction false} DigitWidthIs(b: int)
    requires b in {2, 4, 8, 16, 32}
    ensures 1 <= DigitWidth(b) <= 5 && Pow(2, DigitWidth(b)) == b
  {
    assert Pow(2, 5) == 2 * Pow(2, 4);
    assert Pow(2, 4) == 2 * Pow(2, 3);
    assert Pow(2, 3) == 2 * Pow(2, 2);
    assert Pow(2, 2) == 2 * Pow(2, 1);
    assert Pow(2, 1) == 2 * Pow(2, 0);
  }

  // ----- Numerals -----

  /** Positional notation without leading zeros; zero is the empty numeral. */
  function Numeral(v: nat, b: nat): string
    requires 2 <= b <= 36
  {
    if v == 0 then "" else
      DivPos(v, b); SmallerQuotient(v, b);
      Numeral(v / b, b) + [Int2Char(v % b)]
  }

  lemma {:induction false} SmallerQuotient(v: nat, b: nat)
    requires v > 0 && b >= 2
    ensures v / b < v
  {
    DivMod(v, b);
    if v / b >= v { MulLe(2, b, v / b); MulComm(b, v / b); }
  }

  /** How any integer is written. */
  function Text(v: int, b: nat): string
    requires 2 <= b <= 36
  {
    if v < 0 then "-" + Numeral(-v, b) else if v == 0 then "0" else Numeral(v, b)
  }

  predicate DigitsBelow(s: string, b: int) {
    forall i :: 0 <= i < |s| ==> IntAt(s[i]) < b
  }

  /** Positional value; characters that are no digits are passed over. */
  function ReadDigits(s: string, b: nat): nat
    requires DigitsBelow(s, b)
  {
    if s == "" then 0
    else
      var c := s[|s| - 1];
      var r := ReadDigits(s[..|s| - 1], b);
      if IntAt(c) < 0 then r else MulNonNeg(r, b); r * b + IntAt(c)
  }

  /** Some minus sign stands to the left of every digit. */
  predicate LeadingMinus(s: string) {
    s != "" && IntAt(s[0]) < 0 && (s[0] == '-' || LeadingMinus(s[1..]))
  }

  /** The integer a string denotes. */
  function Parse(s: string, b: nat): int
    requires DigitsBelow(s, b)
  {
    var r: int := ReadDigits(s, b);
    if LeadingMinus(s) then -r else r
  }

  lemma OneMorePlace(d: int, p: int, b: int, r: int)
    ensures (d * p + r) * b == d * (b * p) + r * b
  {
    MulDistrib(b, d * p, r);
    MulAssoc(d, p, b);
    MulComm(p, b);
  }

  /** The first digit counts most. */
  lemma {:induction false} LeadingDigit(c: char, s: string, b: nat)
    requires DigitsBelow([c] + s, b) && IntAt(c) >= 0 && forall i :: 0 <= i < |s| ==> IntAt(s[i]) >= 0
    ensures DigitsBelow(s, b) && ReadDigits([c] + s, b) == IntAt(c) * Pow(b, |s|) + ReadDigits(s, b)
  {
    var t := [c] + s;
    forall i | 0 <= i < |s| ensures IntAt(s[i]) < b {
      assert s[i] == t[i + 1];
    }
    if s != "" {
      var h, x := s[..|s| - 1], s[|s| - 1];
      assert t[..|t| - 1] == [c] + h;
      LeadingDigit(c, h, b);
      OneMorePlace(IntAt(c), Pow(b, |h|), b, ReadDigits(h, b));
      assert ReadDigits(t, b) == ReadDigits([c] + h, b) * b + IntAt(x);
    } else {
      assert t[..0] == "";
    }
  }

  /** One more digit. */
  lemma {:induction false} NumeralStep(e: nat, d: nat, b: nat)
    requires 2 <= b <= 36 && d < b
    ensures 0 <= e * b + d
    ensures e * b + d > 0 ==> Numeral(e * b + d, b) == Numeral(e, b) + [Int2Char(d)]
    ensures e * b + d > 0 <==> e > 0 || d > 0
  {
    MulNonNeg(e, b);
    if e > 0 { MulPos(e, b); }
    DivUnique(e * b + d, b, e, d);
  }

  /** The digits are these characters in this order, with the capitals for the letters as well. */
  lemma {:induction false} Figures(n: nat)
    requires n < 10
    ensures var c := "0123456789"[n]; c == '0' + n as char && Int2Char(n) == c && IntAt(c) == n
  {
  }

  lemma {:induction false} SmallLetters(n: nat)
    requires n < 26
    ensures var c := "abcdefghijklmnopqrstuvwxyz"[n];
      c == 'a' + n as char && Int2Char(10 + n) == c && IntAt(c) == 10 + n
  {
  }

  lemma {:induction false} Capitals(n: nat)
    requires n < 26
    ensures var c := "ABCDEFGHIJKLMNOPQRSTUVWXYZ"[n]; c == 'A' + n as char && IntAt(c) == 10 + n
  {
  }

  /** No other character is a digit. */
  lemma {:induction false} NoOtherDigit(c: char)
    ensures IntAt(c) == -1 <==>
      c !in "0123456789" && c !in "abcdefghijklmnopqrstuvwxyz" && c !in "ABCDEFGHIJKLMNOPQRSTUVWXYZ"
  {
    if '0' <= c <= '9' {
      Figures(IntAt(c));
    } else if 'a' <= c <= 'z' {
      SmallLetters(IntAt(c) - 10);
    } else if 'A' <= c <= 'Z' {
      Capitals(IntAt(c) - 10);
    }
  }

  lemma {:induction false} DigitIsChar(n: int)
    requires 0 <= n < 36
    ensures IntAt(Int2Char(n)) == n && Int2Char(n) != '-'
  {}

  lemma {:induction false} NumeralReads(v: nat, b: nat)
    requires 2 <= b <= 36
    ensures forall i :: 0 <= i < |Numeral(v, b)| ==> 0 <= IntAt(Numeral(v, b)[i]) < b
    ensures ReadDigits(Numeral(v, b), b) == v
    ensures v > 0 ==> Numeral(v, b) != ""
  {
    if v > 0 {
      DivMod(v, b); DivPos(v, b); SmallerQuotient(v, b);
      NumeralReads(v / b, b);
      DigitIsChar(v % b);
      var s := Numeral(v, b);
      assert s[..|s| - 1] == Numeral(v / b, b);
    }
  }

  lemma {:induction false} SkipFirst(c: char, s: string, b: nat)
    requires IntAt(c) < 0 && DigitsBelow(s, b) && b >= 0
    ensures ReadDigits([c] + s, b) == ReadDigits(s, b)
  {
    if s == "" {
      assert ([c] + s)[..0] == "";
    } else {
      SkipFirst(c, s[..|s| - 1], b);
      assert ([c] + s)[..|s|] == [c] + s[..|s| - 1];
    }
  }

  lemma {:induction false} ZeroReads(b: nat)
    requires b >= 2
    ensures DigitsBelow("0", b) && !LeadingMinus("0") && ReadDigits("0", b) == 0
  {
    var s := "0";
    assert s[..|s| - 1] == "";
    assert ReadDigits(s[..|s| - 1], b) == 0;
  }

  /** Reading back what was written gives the same integer. */
  lemma {:induction false} ParseText(v: int, b: nat)
    requires 2 <= b <= 36
    ensures DigitsBelow(Text(v, b), b)
    ensures Parse(Text(v, b), b) == v
  {
    if v < 0 {
      NumeralReads(-v, b);
      SkipFirst('-', Numeral(-v, b), b);
    } else if v == 0 {
      ZeroReads(b);
    } else {
      NumeralReads(v, b);
    }
  }

  /** Proper digits of base b, the first not zero, perhaps after a minus sign. */
  predicate ProperDigits(s: string, b: nat) {
    s != "" && s[0] != '0' && forall i :: 0 <= i < |s| ==> 0 <= IntAt(s[i]) < b && !('A' <= s[i] <= 'Z')
  }

  lemma {:induction false} CharIsDigit(c: char)
    requires IntAt(c) >= 0 && !('A' <= c <= 'Z')
    ensures IntAt(c) < 36 && Int2Char(IntAt(c)) == c && (IntAt(c) == 0 <==> c == '0')
  {}

  lemma {:induction false} DigitsAreNumeral(s: string, b: nat)
    requires 2 <= b <= 36 && (s == "" || ProperDigits(s, b))
    ensures Numeral(ReadDigits(s, b), b) == s && (s != "" ==> ReadDigits(s, b) > 0)
  {
    if s != "" {
      var h, c := s[..|s| - 1], s[|s| - 1];
      DigitsAreNumeral(h, b);
      CharIsDigit(c);
      NumeralStep(ReadDigits(h, b), IntAt(c), b);
    }
  }

  lemma {:induction false} MinusParse(n: string, b: nat)
    requires 2 <= b <= 36 && ProperDigits(n, b)
    ensures DigitsBelow("-" + n, b) && LeadingMinus("-" + n)
    ensures Text(Parse("-" + n, b), b) == "-" + n
  {
    DigitsAreNumeral(n, b);
    SkipFirst('-', n, b);
  }

  /** Every proper numeral is what its value is written as, so writing is onto as well. */
  lemma {:induction false} TextParse(s: string, b: nat)
    requires 2 <= b <= 36
    requires s == "0" || ProperDigits(s, b) || (s != "" && s[0] == '-' && ProperDigits(s[1..], b))
    ensures DigitsBelow(s, b)
    ensures Text(Parse(s, b), b) == s
  {
    if s == "0" {
      ZeroReads(b);
    } else if s[0] == '-' {
      MinusParse(s[1..], b);
      assert s == "-" + s[1..];
    } else {
      DigitsAreNumeral(s, b);
    }
  }

  // ----- Byte strings -----

  /** A byte as a signed number. */
  function Signed(x: int): (r: int)
    ensures -128 <= r < 128 && (r - x) % 256 == 0
  {
    if x % 256 >= 128 then x % 256 - 256 else x % 256
  }

  /** Big-endian two's complement, of bytes given modulo 256. */
  function BytesValue(s: seq<int>): int {
    if s == [] then 0
    else if |s| == 1 then Signed(s[0])
    else 256 * BytesValue(s[..|s| - 1]) + s[|s| - 1] % 256
  }

  /** The first byte carries the sign and counts most. */
  lemma ByteOrder()
    ensures BytesValue([1, 0]) == 256 && BytesValue([0, 255]) == 255 && BytesValue([255, 1]) == -255
  {
    assert [1, 0][..1] == [1] && [0, 255][..1] == [0] && [255, 1][..1] == [255];
  }

  /** The shortest byte string for v, in signed bytes. */
  function Bytes(v: int): seq<int>
    decreases if v < 0 then -v else v
  {
    if -128 <= v < 128 then [v] else Bytes(v / 256) + [Signed(v)]
  }

  lemma {:induction false} BytesStep(e: int, d: int)
    requires 0 <= d < 256 && !(-128 <= 256 * e + d < 128)
    ensures Bytes(256 * e + d) == Bytes(e) + [Signed(d)]
  {
    DivUnique(256 * e + d, 256, e, d);
  }

  /** Reading back the bytes of an integer gives the integer. */
  lemma {:induction false} BytesRead(v: int)
    ensures |Bytes(v)| >= 1 && BytesValue(Bytes(v)) == v
    ensures forall i :: 0 <= i < |Bytes(v)| ==> -128 <= Bytes(v)[i] < 128
    decreases if v < 0 then -v else v
  {
    if !(-128 <= v < 128) {
      BytesRead(v / 256);
      var s := Bytes(v);
      assert s[..|s| - 1] == Bytes(v / 256);
    }
  }

  /** Signed bytes of which the first is needed. */
  predicate Shortest(s: seq<int>) {
    && |s| >= 1 && (forall i :: 0 <= i < |s| ==> -128 <= s[i] < 128)
    && (|s| > 1 ==> !(s[0] == 0 && s[1] >= 0) && !(s[0] == -1 && s[1] < 0))
  }

  lemma {:induction false} SignedByte(x: int)
    requires -128 <= x < 128
    ensures x % 256 == (if x < 0 then x + 256 else x) && Signed(x) == x && Signed(x % 256) == x
  {}

  lemma {:induction false} FirstByteNeeded(e: int, x: int)
    requires -128 <= x < 128 && !(e == 0 && x >= 0) && !(e == -1 && x < 0)
    ensures !(-128 <= 256 * e + x % 256 < 128)
  {
    SignedByte(x);
  }

  /** Every shortest byte string is the one of its value. */
  lemma {:induction false} ShortestIsBytes(s: seq<int>)
    requires Shortest(s)
    ensures Bytes(BytesValue(s)) == s
  {
    if |s| == 1 {
      SignedByte(s[0]);
    } else {
      var h, x := s[..|s| - 1], s[|s| - 1];
      ShortestIsBytes(h);
      var e := BytesValue(h);
      if |s| == 2 { SignedByte(s[0]); } else { assert |Bytes(e)| > 1; }
      FirstByteNeeded(e, x);
      SignedByte(x);
      BytesStep(e, x % 256);
    }
  }
}
