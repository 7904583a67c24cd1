/** The seeds of the idle task: they never run dry, and both parities keep coming up. */
module IdleSeeds {
  import opened Numbers
  import opened TaskSystem

  // ----- Exclusive or -----

  predicate Bit(x: nat, k: nat) {
    if k == 0 then x % 2 == 1 else Bit(x / 2, k - 1)
  }

  lemma {:induction false} XorHalves(x: nat, y: nat)
    ensures Xor(x, y) / 2 == Xor(x / 2, y / 2) && Xor(x, y) % 2 == (x % 2 + y % 2) % 2
  {
  }

  /** Bit by bit, exclusive or is difference. */
  lemma {:induction false} XorBits(x: nat, y: nat, k: nat)
    ensures Bit(Xor(x, y), k) <==> Bit(x, k) != Bit(y, k)
  {
    XorHalves(x, y);
    if k > 0 {
      XorBits(x / 2, y / 2, k - 1);
    }
  }

  lemma {:induction false} XorAssociates(x: nat, y: nat, z: nat)
    ensures Xor(Xor(x, y), z) == Xor(x, Xor(y, z))
  {
    if x > 0 && y > 0 && z > 0 {
      XorAssociates(x / 2, y / 2, z / 2);
      SameHalves(x, y, z);
    }
  }

  lemma {:induction false} SameHalves(x: nat, y: nat, z: nat)
    requires Xor(Xor(x / 2, y / 2), z / 2) == Xor(x / 2, Xor(y / 2, z / 2))
    ensures Xor(Xor(x, y), z) == Xor(x, Xor(y, z))
  {
    hide Xor;
    XorHalves(x, y);
    XorHalves(y, z);
    XorHalves(Xor(x, y), z);
    XorHalves(x, Xor(y, z));
  }

  lemma {:induction false} XorSelf(x: nat)
    ensures Xor(x, x) == 0
  {
    if x > 0 {
      XorSelf(x / 2);
    }
  }

  function TwoTo(n: nat): (r: nat)
    ensures r > 0
  {
    if n == 0 then 1 else 2 * TwoTo(n - 1)
  }

  lemma {:induction false} XorBelow(x: nat, y: nat, n: nat)
    requires x < TwoTo(n) && y < TwoTo(n)
    ensures Xor(x, y) < TwoTo(n)
  {
    if n > 0 {
      XorHalves(x, y);
      XorBelow(x / 2, y / 2, n - 1);
    }
  }

  /** The highest bit of one number alone stays. */
  lemma {:induction false} XorHigh(x: nat, y: nat, n: nat)
    requires x < TwoTo(n) <= y < TwoTo(n + 1)
    ensures TwoTo(n) <= Xor(x, y) < TwoTo(n + 1)
  {
    if n > 0 {
      XorHalves(x, y);
      XorHigh(x / 2, y / 2, n - 1);
    }
  }

  // ----- The seeds -----

  const TAPS: nat := 0xD008

  function NextSeed(seed: nat): nat {
    if seed % 2 == 0 then seed / 2 else Xor(seed / 2, TAPS)
  }

  /** A shift register: every bit moves down by one, and an odd seed flips bits 3, 12, 14 and 15. */
  ghost predicate Shifted(seed: nat, next: nat) {
    forall k: nat :: Bit(next, k) <==> Bit(seed, k + 1) != (Bit(seed, 0) && k in {3, 12, 14, 15})
  }

  lemma {:induction false} TapsBits(k: nat)
    ensures Bit(TAPS, k) <==> k in {3, 12, 14, 15}
  {
    if k < 4 {
      LowBit(TAPS, k);
    } else if k < 8 {
      BitAbove(TAPS, k);
      LowBit(0xD00, k - 4);
    } else if k < 12 {
      BitAbove(TAPS, k);
      BitAbove(0xD00, k - 4);
      LowBit(0xD0, k - 8);
    } else {
      BitAbove(TAPS, k);
      BitAbove(0xD00, k - 4);
      BitAbove(0xD0, k - 8);
      if k < 16 {
        LowBit(0xD, k - 12);
      } else {
        BitAbove(0xD, k - 12);
        ZeroBits(k - 16);
      }
    }
  }

  lemma LowBit(x: nat, k: nat)
    requires k < 4
    ensures Bit(x, k) <==> (if k == 0 then x else if k == 1 then x / 2 else if k == 2 then x / 4 else x / 8) % 2 == 1
  {
    assert Bit(x, 1) <==> Bit(x / 2, 0);
    assert Bit(x, 2) <==> Bit(x / 2 / 2, 0);
    assert Bit(x, 3) <==> Bit(x / 2 / 2 / 2, 0);
  }

  lemma BitAbove(x: nat, k: nat)
    requires k >= 4
    ensures Bit(x, k) <==> Bit(x / 16, k - 4)
  {
    assert Bit(x, k) <==> Bit(x / 2, k - 1);
    assert Bit(x / 2, k - 1) <==> Bit(x / 2 / 2, k - 2);
    assert Bit(x / 2 / 2, k - 2) <==> Bit(x / 2 / 2 / 2, k - 3);
  }

  lemma {:induction false} ZeroBits(k: nat)
    ensures !Bit(0, k)
  {
    if k > 0 {
      ZeroBits(k - 1);
    }
  }

  lemma {:induction false} NextIsShifted(seed: nat)
    ensures Shifted(seed, NextSeed(seed))
  {
    forall k: nat ensures Bit(NextSeed(seed), k) <==> Bit(seed, k + 1) != (Bit(seed, 0) && k in {3, 12, 14, 15}) {
      assert Bit(seed, k + 1) <==> Bit(seed / 2, k);
      XorBits(seed / 2, TAPS, k);
      TapsBits(k);
    }
  }

  lemma Sixteen()
    ensures TwoTo(15) == 0x8000 && TwoTo(16) == 0x1_0000 && TwoTo(17) == 0x2_0000
  {
    assert TwoTo(4) == 16;
    assert TwoTo(8) == 256;
    assert TwoTo(12) == 0x1000;
  }

  /** The seeds stay in 16 bits and never become zero, where they would stay. */
  lemma {:induction false} SeedLasts(seed: nat)
    requires 0 < seed < 0x1_0000
    ensures 0 < NextSeed(seed) < 0x1_0000 && (seed % 2 == 1 <==> NextSeed(seed) >= 0x8000)
  {
    Sixteen();
    if seed % 2 == 1 {
      XorHigh(seed / 2, TAPS, 15);
    }
  }

  // ----- How long a parity can stay away -----

  /** The seed that an odd step would leave alone. Against it, odd steps shift like even ones. */
  const REST: nat := 0x9FF0

  /** A seed of that parity comes up after w steps at most. */
  predicate Due(odd: bool, seed: nat, w: nat) {
    if odd then seed % TwoTo(w + 1) != 0 else Xor(seed, REST) % TwoTo(w + 1) != TwoTo(w + 1) - 1
  }

  lemma {:induction false} XorOneMore(x: nat, y: nat, i: nat, j: nat)
    requires i < 2 && j < 2
    ensures Xor(2 * x + i, 2 * y + j) == 2 * Xor(x, y) + (i + j) % 2
  {
    hide Xor;
    XorHalves(2 * x + i, 2 * y + j);
  }

  /** Two more bits. */
  lemma {:induction false} XorTwoMore(x: nat, y: nat, a: nat, b: nat)
    requires a < 4 && b < 4
    ensures Xor(4 * x + a, 4 * y + b) == 4 * Xor(x, y) + Xor(a, b)
  {
    hide Xor;
    XorOneMore(2 * x + a / 2, 2 * y + b / 2, a % 2, b % 2);
    XorOneMore(x, y, a / 2, b / 2);
    XorOneMore(a / 2, b / 2, a % 2, b % 2);
    XorOneMore(0, 0, a / 2, b / 2);
    XorZero();
  }

  lemma XorZero()
    ensures Xor(0, 0) == 0
  {
  }

  lemma SmallXor()
    ensures Xor(0, 0) == 0 && Xor(3, 2) == 1 && Xor(1, 1) == 0 && Xor(0, 3) == 3 && Xor(2, 0) == 2
  {
  }

  lemma {:induction false} RestStays()
    ensures Xor(TAPS, REST) == REST / 2
  {
    hide Xor;
    SmallXor();
    XorTwoMore(3, 2, 1, 1);
    XorTwoMore(0xD, 9, 0, 3);
    XorTwoMore(0x34, 0x27, 0, 3);
    XorTwoMore(0xD0, 0x9F, 0, 3);
    XorTwoMore(0x340, 0x27F, 0, 3);
    XorTwoMore(0xD00, 0x9FF, 2, 0);
    XorTwoMore(0x3402, 0x27FC, 0, 0);
  }

  lemma {:induction false} RestShifts(seed: nat)
    requires seed % 2 == 1
    ensures Xor(NextSeed(seed), REST) == Xor(seed, REST) / 2 && Xor(seed, REST) % 2 == 1
  {
    hide Xor;
    XorHalves(seed, REST);
    XorAssociates(seed / 2, TAPS, REST);
    RestStays();
  }

  lemma {:induction false} HalfModulo(x: nat, m: nat)
    requires m > 0
    ensures x % (2 * m) == 2 * (x / 2 % m) + x % 2
  {
    var q, r := x / 2 / m, x / 2 % m;
    DivMod(x / 2, m);
    assert q * (2 * m) == 2 * (q * m);
    DivUnique(x, 2 * m, q, 2 * r + x % 2);
  }

  /** It comes up now, or a step sooner after the next seed. */
  lemma {:induction false} DueSooner(odd: bool, seed: nat, w: nat)
    requires Due(odd, seed, w) && (seed % 2 == 1) != odd
    ensures w > 0 && Due(odd, NextSeed(seed), w - 1)
  {
    if odd {
      HalfModulo(seed, TwoTo(w));
    } else {
      RestShifts(seed);
      HalfModulo(Xor(seed, REST), TwoTo(w));
    }
  }

  /** Of 16 seeds in a row one is odd, and of 17 one is even. */
  lemma {:induction false} AlwaysDue(odd: bool, seed: nat)
    requires 0 < seed < 0x1_0000
    ensures Due(odd, seed, 16) && Due(true, seed, 15)
  {
    hide TwoTo, Xor;
    Sixteen();
    XorBelow(seed, REST, 16);
  }
}
