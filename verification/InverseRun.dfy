/** The values a modular inversion runs through, and where the last one leaves the range of residues. */
module InverseRun {
  /** A number with its two coefficients. */
  datatype Track = Track(u: int, a: int, b: int)

  /** An even number and its coefficients halved; for an odd modulus only the second one is followed. */
  function Halved(t: Track, x: int, m: int): Track {
    if m % 2 == 0 then
      if t.a % 2 == 0 && t.b % 2 == 0 then Track(t.u / 2, t.a / 2, t.b / 2)
      else Track(t.u / 2, (t.a + x) / 2, (t.b - m) / 2)
    else Track(t.u / 2, t.a, (if t.b % 2 == 0 then t.b else t.b - m) / 2)
  }

  function HalvedOut(t: Track, x: int, m: int): (r: Track)
    requires t.u > 0
    ensures 0 < r.u <= t.u && r.u % 2 == 1
    decreases t.u
  {
    if t.u % 2 == 1 then t else HalvedOut(Halved(t, x, m), x, m)
  }

  function Less(t: Track, s: Track, m: int): Track {
    Track(t.u - s.u, if m % 2 == 0 then t.a - s.a else t.a, t.b - s.b)
  }

  /** One turn of the loop. */
  function Turn(t: Track, s: Track, x: int, m: int): (r: (Track, Track))
    requires t.u > 0 && s.u > 0
    ensures 0 <= r.0.u && 0 < r.1.u && r.0.u + r.1.u < t.u + s.u
  {
    var p, q := HalvedOut(t, x, m), HalvedOut(s, x, m);
    if p.u >= q.u then (Less(p, q, m), q) else (p, Less(q, p, m))
  }

  function Last(t: Track, s: Track, x: int, m: int): Track
    requires t.u >= 0 && s.u > 0
    decreases t.u + s.u
  {
    if t.u == 0 then s else var (p, q) := Turn(t, s, x, m); Last(p, q, x, m)
  }

  /** The coefficient of x when the loop for x modulo m ends. */
  function FinalCoefficient(x: int, m: int): int
    requires x > 0 && m > 0
  {
    Last(Track(m, 1, 0), Track(x, 0, 1), x, m).b
  }

  /** What is made of it: one modulus less, or up to two more. */
  function Adjusted(d: int, m: int): int {
    if d >= m then d - m else if d >= 0 then d else if d + m < 0 then d + 2 * m else d + m
  }

  /** The result is a residue exactly if the coefficient is within two moduli of zero. */
  lemma AdjustedInRange(d: int, m: int)
    requires m > 0
    ensures 0 <= Adjusted(d, m) < m <==> -2 * m <= d < 2 * m
  {
  }

  lemma Even(t: Track, s: Track, x: int, m: int)
    requires t.u > 0 && t.u % 2 == 0 && Halved(t, x, m) == s
    ensures HalvedOut(t, x, m) == HalvedOut(s, x, m)
  {
  }

  lemma Odd(t: Track, x: int, m: int)
    requires t.u > 0 && t.u % 2 == 1
    ensures HalvedOut(t, x, m) == t
  {
  }

  /** One turn from t and s, which are p and q when halved out. */
  lemma {:induction false} OneTurn(t: Track, s: Track, p: Track, q: Track, x: int, m: int)
    requires t.u > 0 && s.u > 0 && HalvedOut(t, x, m) == p && HalvedOut(s, x, m) == q
    ensures Last(t, s, x, m) == if p.u >= q.u then Last(Less(p, q, m), q, x, m) else Last(p, Less(q, p, m), x, m)
  {
  }

  lemma LastIs(t: Track, s: Track, x: int, m: int)
    requires t.u == 0 && s.u > 0
    ensures Last(t, s, x, m) == s
  {
  }

  lemma {:induction false} OddModulusTurns1(x: int, m: int)
    requires x == 1748 && m == 3659
    ensures Last(Track(3659, 1, 0), Track(1748, 0, 1), x, m) ==
        Last(Track(75, 1, 2401), Track(362, 0, -5145), x, m)
  {
    hide Last, HalvedOut;
    Odd(Track(3659, 1, 0), x, m);
    Even(Track(1748, 0, 1), Track(874, 0, -1829), x, m);
    Even(Track(874, 0, -1829), Track(437, 0, -2744), x, m);
    Odd(Track(437, 0, -2744), x, m);
    OneTurn(Track(3659, 1, 0), Track(1748, 0, 1),
            Track(3659, 1, 0), Track(437, 0, -2744), x, m);
    Even(Track(3222, 1, 2744), Track(1611, 1, 1372), x, m);
    Odd(Track(1611, 1, 1372), x, m);
    Odd(Track(437, 0, -2744), x, m);
    OneTurn(Track(3222, 1, 2744), Track(437, 0, -2744),
            Track(1611, 1, 1372), Track(437, 0, -2744), x, m);
    Even(Track(1174, 1, 4116), Track(587, 1, 2058), x, m);
    Odd(Track(587, 1, 2058), x, m);
    Odd(Track(437, 0, -2744), x, m);
    OneTurn(Track(1174, 1, 4116), Track(437, 0, -2744),
            Track(587, 1, 2058), Track(437, 0, -2744), x, m);
    Even(Track(150, 1, 4802), Track(75, 1, 2401), x, m);
    Odd(Track(75, 1, 2401), x, m);
    Odd(Track(437, 0, -2744), x, m);
    OneTurn(Track(150, 1, 4802), Track(437, 0, -2744),
            Track(75, 1, 2401), Track(437, 0, -2744), x, m);
  }

  lemma {:induction false} OddModulusTurns2(x: int, m: int)
    requires x == 1748 && m == 3659
    ensures Last(Track(75, 1, 2401), Track(362, 0, -5145), x, m) ==
        Last(Track(11, 1, 3816), Track(10, 0, -10169), x, m)
  {
    hide Last, HalvedOut;
    Odd(Track(75, 1, 2401), x, m);
    Even(Track(362, 0, -5145), Track(181, 0, -4402), x, m);
    Odd(Track(181, 0, -4402), x, m);
    OneTurn(Track(75, 1, 2401), Track(362, 0, -5145),
            Track(75, 1, 2401), Track(181, 0, -4402), x, m);
    Odd(Track(75, 1, 2401), x, m);
    Even(Track(106, 0, -6803), Track(53, 0, -5231), x, m);
    Odd(Track(53, 0, -5231), x, m);
    OneTurn(Track(75, 1, 2401), Track(106, 0, -6803),
            Track(75, 1, 2401), Track(53, 0, -5231), x, m);
    Even(Track(22, 1, 7632), Track(11, 1, 3816), x, m);
    Odd(Track(11, 1, 3816), x, m);
    Odd(Track(53, 0, -5231), x, m);
    OneTurn(Track(22, 1, 7632), Track(53, 0, -5231),
            Track(11, 1, 3816), Track(53, 0, -5231), x, m);
    Odd(Track(11, 1, 3816), x, m);
    Even(Track(42, 0, -9047), Track(21, 0, -6353), x, m);
    Odd(Track(21, 0, -6353), x, m);
    OneTurn(Track(11, 1, 3816), Track(42, 0, -9047),
            Track(11, 1, 3816), Track(21, 0, -6353), x, m);
  }

  lemma {:induction false} OddModulusTurns3(x: int, m: int)
    requires x == 1748 && m == 3659
    ensures Last(Track(11, 1, 3816), Track(10, 0, -10169), x, m) ==
        Last(Track(0, 1, 14636), Track(1, 0, -7969), x, m)
  {
    hide Last, HalvedOut;
    Odd(Track(11, 1, 3816), x, m);
    Even(Track(10, 0, -10169), Track(5, 0, -6914), x, m);
    Odd(Track(5, 0, -6914), x, m);
    OneTurn(Track(11, 1, 3816), Track(10, 0, -10169),
            Track(11, 1, 3816), Track(5, 0, -6914), x, m);
    Even(Track(6, 1, 10730), Track(3, 1, 5365), x, m);
    Odd(Track(3, 1, 5365), x, m);
    Odd(Track(5, 0, -6914), x, m);
    OneTurn(Track(6, 1, 10730), Track(5, 0, -6914),
            Track(3, 1, 5365), Track(5, 0, -6914), x, m);
    Odd(Track(3, 1, 5365), x, m);
    Even(Track(2, 0, -12279), Track(1, 0, -7969), x, m);
    Odd(Track(1, 0, -7969), x, m);
    OneTurn(Track(3, 1, 5365), Track(2, 0, -12279),
            Track(3, 1, 5365), Track(1, 0, -7969), x, m);
    Even(Track(2, 1, 13334), Track(1, 1, 6667), x, m);
    Odd(Track(1, 1, 6667), x, m);
    Odd(Track(1, 0, -7969), x, m);
    OneTurn(Track(2, 1, 13334), Track(1, 0, -7969),
            Track(1, 1, 6667), Track(1, 0, -7969), x, m);
  }

  /** The code misses the range: for 1748 and 3659 the loop ends with -7969, and two additions of the modulus leave
      -651. That is an inverse, but no residue. */
  lemma {:induction false} RangeMissed()
    ensures FinalCoefficient(1748, 3659) == -7969 && Adjusted(-7969, 3659) == -651 && (-651 * 1748) % 3659 == 1
  {
    hide Last;
    var x, m := 1748, 3659;
    OddModulusTurns1(x, m);
    OddModulusTurns2(x, m);
    OddModulusTurns3(x, m);
    LastIs(Track(0, 1, 14636), Track(1, 0, -7969), x, m);
  }

  lemma {:induction false} EvenModulusTurns1(x: int, m: int)
    requires x == 14205 && m == 29332
    ensures Last(Track(29332, 1, 0), Track(14205, 0, 1), x, m) ==
        Last(Track(165, -6825, 14093), Track(694, 16147, -33342), x, m)
  {
    hide Last, HalvedOut;
    Even(Track(29332, 1, 0), Track(14666, 7103, -14666), x, m);
    Even(Track(14666, 7103, -14666), Track(7333, 10654, -21999), x, m);
    Odd(Track(7333, 10654, -21999), x, m);
    Odd(Track(14205, 0, 1), x, m);
    OneTurn(Track(29332, 1, 0), Track(14205, 0, 1),
            Track(7333, 10654, -21999), Track(14205, 0, 1), x, m);
    Odd(Track(7333, 10654, -21999), x, m);
    Even(Track(6872, -10654, 22000), Track(3436, -5327, 11000), x, m);
    Even(Track(3436, -5327, 11000), Track(1718, 4439, -9166), x, m);
    Even(Track(1718, 4439, -9166), Track(859, 9322, -19249), x, m);
    Odd(Track(859, 9322, -19249), x, m);
    OneTurn(Track(7333, 10654, -21999), Track(6872, -10654, 22000),
            Track(7333, 10654, -21999), Track(859, 9322, -19249), x, m);
    Even(Track(6474, 1332, -2750), Track(3237, 666, -1375), x, m);
    Odd(Track(3237, 666, -1375), x, m);
    Odd(Track(859, 9322, -19249), x, m);
    OneTurn(Track(6474, 1332, -2750), Track(859, 9322, -19249),
            Track(3237, 666, -1375), Track(859, 9322, -19249), x, m);
    Even(Track(2378, -8656, 17874), Track(1189, -4328, 8937), x, m);
    Odd(Track(1189, -4328, 8937), x, m);
    Odd(Track(859, 9322, -19249), x, m);
    OneTurn(Track(2378, -8656, 17874), Track(859, 9322, -19249),
            Track(1189, -4328, 8937), Track(859, 9322, -19249), x, m);
    Even(Track(330, -13650, 28186), Track(165, -6825, 14093), x, m);
    Odd(Track(165, -6825, 14093), x, m);
    Odd(Track(859, 9322, -19249), x, m);
    OneTurn(Track(330, -13650, 28186), Track(859, 9322, -19249),
            Track(165, -6825, 14093), Track(859, 9322, -19249), x, m);
  }

  lemma {:induction false} EvenModulusTurns2(x: int, m: int)
    requires x == 14205 && m == 29332
    ensures Last(Track(165, -6825, 14093), Track(694, 16147, -33342), x, m) ==
        Last(Track(5, -17425, 35981), Track(22, 39811, -82206), x, m)
  {
    hide Last, HalvedOut;
    Odd(Track(165, -6825, 14093), x, m);
    Even(Track(694, 16147, -33342), Track(347, 15176, -31337), x, m);
    Odd(Track(347, 15176, -31337), x, m);
    OneTurn(Track(165, -6825, 14093), Track(694, 16147, -33342),
            Track(165, -6825, 14093), Track(347, 15176, -31337), x, m);
    Odd(Track(165, -6825, 14093), x, m);
    Even(Track(182, 22001, -45430), Track(91, 18103, -37381), x, m);
    Odd(Track(91, 18103, -37381), x, m);
    OneTurn(Track(165, -6825, 14093), Track(182, 22001, -45430),
            Track(165, -6825, 14093), Track(91, 18103, -37381), x, m);
    Even(Track(74, -24928, 51474), Track(37, -12464, 25737), x, m);
    Odd(Track(37, -12464, 25737), x, m);
    Odd(Track(91, 18103, -37381), x, m);
    OneTurn(Track(74, -24928, 51474), Track(91, 18103, -37381),
            Track(37, -12464, 25737), Track(91, 18103, -37381), x, m);
    Odd(Track(37, -12464, 25737), x, m);
    Even(Track(54, 30567, -63118), Track(27, 22386, -46225), x, m);
    Odd(Track(27, 22386, -46225), x, m);
    OneTurn(Track(37, -12464, 25737), Track(54, 30567, -63118),
            Track(37, -12464, 25737), Track(27, 22386, -46225), x, m);
    Even(Track(10, -34850, 71962), Track(5, -17425, 35981), x, m);
    Odd(Track(5, -17425, 35981), x, m);
    Odd(Track(27, 22386, -46225), x, m);
    OneTurn(Track(10, -34850, 71962), Track(27, 22386, -46225),
            Track(5, -17425, 35981), Track(27, 22386, -46225), x, m);
  }

  lemma {:induction false} EvenModulusTurns3(x: int, m: int)
    requires x == 14205 && m == 29332
    ensures Last(Track(5, -17425, 35981), Track(22, 39811, -82206), x, m) ==
        Last(Track(0, -56820, 117328), Track(1, 33448, -69067), x, m)
  {
    hide Last, HalvedOut;
    Odd(Track(5, -17425, 35981), x, m);
    Even(Track(22, 39811, -82206), Track(11, 27008, -55769), x, m);
    Odd(Track(11, 27008, -55769), x, m);
    OneTurn(Track(5, -17425, 35981), Track(22, 39811, -82206),
            Track(5, -17425, 35981), Track(11, 27008, -55769), x, m);
    Odd(Track(5, -17425, 35981), x, m);
    Even(Track(6, 44433, -91750), Track(3, 29319, -60541), x, m);
    Odd(Track(3, 29319, -60541), x, m);
    OneTurn(Track(5, -17425, 35981), Track(6, 44433, -91750),
            Track(5, -17425, 35981), Track(3, 29319, -60541), x, m);
    Even(Track(2, -46744, 96522), Track(1, -23372, 48261), x, m);
    Odd(Track(1, -23372, 48261), x, m);
    Odd(Track(3, 29319, -60541), x, m);
    OneTurn(Track(2, -46744, 96522), Track(3, 29319, -60541),
            Track(1, -23372, 48261), Track(3, 29319, -60541), x, m);
    Odd(Track(1, -23372, 48261), x, m);
    Even(Track(2, 52691, -108802), Track(1, 33448, -69067), x, m);
    Odd(Track(1, 33448, -69067), x, m);
    OneTurn(Track(1, -23372, 48261), Track(2, 52691, -108802),
            Track(1, -23372, 48261), Track(1, 33448, -69067), x, m);
  }

  /** It misses it for even moduli too: 14205 modulo 29332 ends with -69067 and comes out as -10403. */
  lemma {:induction false} RangeMissedEven()
    ensures FinalCoefficient(14205, 29332) == -69067 && Adjusted(-69067, 29332) == -10403
    ensures (-10403 * 14205) % 29332 == 1
  {
    hide Last;
    var x, m := 14205, 29332;
    EvenModulusTurns1(x, m);
    EvenModulusTurns2(x, m);
    EvenModulusTurns3(x, m);
    LastIs(Track(0, -56820, 117328), Track(1, 33448, -69067), x, m);
  }
}
