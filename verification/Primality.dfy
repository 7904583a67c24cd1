/** Probabilistic primality testing: trial division by the table, then Miller and Rabin. */
module Primality {
  import opened Numbers
  import opened Digits
  import opened BigIntegers
  import opened AddSub
  import opened Compare
  import opened Shifts
  import opened Divisors
  import opened Exponentiation
  import opened GcdInverse
  import opened LowPrimes
  import opened Fermat

  // ----- Remainders by a small number -----

  /** Before digit i is added: r is the remainder of what stands above it. */
  lemma {:induction false} ModStep(a: seq<int>, t: nat, s: int, i: nat, r: int, n: int)
    requires i < t && AreDigits(a, 0, t) && n > 0
    requires r == (Val(a, i + 1, t) + Place(s, t - i - 1)) % n
    ensures (DV % n * r + a[i]) % n == (Val(a, i, t) + Place(s, t - i)) % n
  {
    var h := Val(a, i + 1, t) + Place(s, t - i - 1);
    HornerMod(DV, h, a[i], n);
    ValLow(a, i, t);
  }

  lemma {:induction false} HornerMod(b: int, h: int, a: int, n: int)
    requires n > 0
    ensures (b % n * (h % n) + a) % n == (b * h + a) % n
  {
    CongSelf(b, n);
    CongSelf(h, n);
    CongMul(b % n, b, h % n, h, n);
    CongAdd(b % n * (h % n), b * h, a, a, n);
  }

  /** A power of two up to 2^28: only the lowest digit matters. */
  lemma {:induction false} LowestDigitMod(a: seq<int>, t: nat, s: int, n: int)
    requires 0 < t && AreDigits(a, 0, t) && n > 0 && DV % n == 0
    ensures a[0] % n == SVal(a, t, s) % n
  {
    var h := Val(a, 1, t) + Place(s, t - 1);
    ValLow(a, 0, t);
    DivMod(DV, n);
    MulAssoc(h, DV / n, n);
    MulComm(h, DV);
    CongFromMultiple(SVal(a, t, s), a[0], h * (DV / n), n);
  }

  lemma {:induction false} ProductExact(d: int, r: int, a: int, n: int)
    requires 0 <= d < n && 0 <= r < n < 0x400_0000 && 0 <= a < DV
    ensures Exact(d * r) && 0 <= d * r + a && Exact(d * r + a)
  {
    MulNonNeg(d, r);
    MulLe(d, n, r);
    MulLe(r, n, n);
    MulComm(n, r);
    MulLe(n, 0x400_0000, n);
    MulLe(n, 0x400_0000, 0x400_0000);
    MulComm(n, 0x400_0000);
  }

  /** x mod n for 0 < n < 2^26, with every intermediate result an exact number. */
  method ModInt(x: BigInteger, n: int) returns (r: int)
    requires x.Valid() && n < 0x400_0000
    ensures r == if n <= 0 then 0 else x.Value() % n
  {
    if n <= 0 { return 0; }
    var d := DV % n;
    r := if x.s < 0 then n - 1 else 0;
    SignRemainder(x.s, n);
    if x.t > 0 {
      if d == 0 {
        r := x.digits[0] % n;
        LowestDigitMod(x.digits, x.t, x.s, n);
      } else {
        var i := x.t - 1;
        while i >= 0
          invariant -1 <= i < x.t && 0 <= r < n
          invariant r == (Val(x.digits, i + 1, x.t) + Place(x.s, x.t - i - 1)) % n
        {
          ModStep(x.digits, x.t, x.s, i, r, n);
          ProductExact(d, r, x.digits[i], n);
          r := (d * r + x.digits[i]) % n;
          i := i - 1;
        }
      }
    }
  }

  lemma {:induction false} SignRemainder(s: int, n: int)
    requires n > 0 && -1 <= s <= 0
    ensures (if s < 0 then n - 1 else 0) == s % n
  {
    if s < 0 { DivUnique(-1, n, -1, n - 1); } else { DivUnique(0, n, 0, 0); }
  }

  // ----- Strong probable primes -----

  /** a^(d * 2^l) mod n, by repeated squaring. */
  function Squared(y: int, l: nat, n: int): int
    requires n > 0
  {
    if l == 0 then y else (Squared(y, l - 1, n) * Squared(y, l - 1, n)) % n
  }

  lemma {:induction false} SquaredIsPower(a: int, d: nat, l: nat, n: int)
    requires n > 0
    ensures Shift(d, l) >= 0 && Squared(Pow(a, d) % n, l, n) == Pow(a, Shift(d, l)) % n
  {
    ShiftMono(0, d, l);
    if l > 0 {
      SquaredIsPower(a, d, l - 1, n);
      var e := Shift(d, l - 1);
      PowAdd(a, e, e);
      CongSelf(Pow(a, e), n);
      CongMul(Pow(a, e) % n, Pow(a, e), Pow(a, e) % n, Pow(a, e), n);
    }
  }

  /** The odd part d of n - 1 and the power of two taken out of it. */
  predicate Decomposes(n: int, d: nat, s: nat) {
    n - 1 == Shift(d, s) && d % 2 == 1
  }

  lemma {:induction false} DecomposesOnce(n: int, d: nat, s: nat, d': nat, s': nat)
    requires Decomposes(n, d, s) && Decomposes(n, d', s')
    ensures d == d' && s == s'
  {
    if s < s' { HigherShiftIsEven(d', s' - s - 1, d, s); }
    if s' < s { HigherShiftIsEven(d, s - s' - 1, d', s'); }
    ShiftMono(d, d', s); ShiftMono(d', d, s);
  }

  /** Some square on the way is -1. */
  predicate ReachesMinusOne(y: int, s: nat, n: int)
    requires n > 0
  {
    exists l :: 0 <= l < s && Squared(y, l, n) == n - 1
  }

  /** n passes the test to the base a, n - 1 being d * 2^s. */
  predicate Passes(n: int, a: int, d: nat, s: nat)
    requires n > 0
  {
    Pow(a, d) % n == 1 || ReachesMinusOne(Pow(a, d) % n, s, n)
  }

  /** n is a strong probable prime to the base a. */
  ghost predicate StrongProbablePrime(n: int, a: int) {
    n > 0 && exists d: nat, s: nat :: Decomposes(n, d, s) && s > 0 && Passes(n, a, d, s)
  }

  /** Going back from a square that is one, one meets -1 unless it was one all along. */
  lemma {:induction false} BackToMinusOne(y: int, s: nat, n: int)
    requires Prime(n) && 0 <= y < n && Squared(y, s, n) == 1
    ensures y == 1 || ReachesMinusOne(y, s, n)
  {
    if s > 0 {
      var z := Squared(y, s - 1, n);
      SquaredRange(y, s - 1, n);
      DivUnique(1, n, 0, 1);
      RootsOfOne(z, n);
      if z == 1 {
        BackToMinusOne(y, s - 1, n);
      } else {
        assert Squared(y, s - 1, n) == n - 1;
      }
    }
  }

  lemma {:induction false} SquaredRange(y: int, l: nat, n: int)
    requires n > 0 && 0 <= y < n
    ensures 0 <= Squared(y, l, n) < n
  {}

  /** Once one, always one. */
  lemma {:induction false} StaysOne(y: int, k: nat, l: nat, n: int)
    requires n > 1 && k <= l && Squared(y, k, n) == 1
    ensures Squared(y, l, n) == 1
  {
    if k < l {
      StaysOne(y, k, l - 1, n);
      DivUnique(1, n, 0, 1);
    }
  }

  /** A number that passes is at least a probable prime in the sense of Fermat. */
  lemma {:induction false} PassesFermat(n: int, a: int, d: nat, s: nat)
    requires n > 2 && Decomposes(n, d, s) && Passes(n, a, d, s)
    ensures Pow(a, n - 1) % n == 1
  {
    var y := Pow(a, d) % n;
    SquaredIsPower(a, d, s, n);
    assert Squared(y, 0, n) == y;
    hide Pow, Shift, Squared;
    if y == 1 {
      StaysOne(y, 0, s, n);
    } else {
      var l :| 0 <= l < s && Squared(y, l, n) == n - 1;
      AfterMinusOne(y, l, n);
      StaysOne(y, l + 1, s, n);
    }
  }

  lemma {:induction false} AfterMinusOne(y: int, l: nat, n: int)
    requires n > 2 && Squared(y, l, n) == n - 1
    ensures Squared(y, l + 1, n) == 1
  {
    MulDistrib(n, n - 2, 1);
    DivUnique((n - 1) * (n - 1), n, n - 2, 1);
  }

  lemma {:induction false} StrongIsFermat(n: int, a: int)
    requires n > 2 && StrongProbablePrime(n, a)
    ensures n % 2 == 1 && Pow(a, n - 1) % n == 1
  {
    var d: nat, s: nat :| Decomposes(n, d, s) && s > 0 && Passes(n, a, d, s);
    PassesFermat(n, a, d, s);
    assert Shift(d, s) == 2 * Shift(d, s - 1);
  }

  /** A prime passes to every base it does not divide. */
  lemma {:induction false} PrimePasses(n: int, a: nat, d: nat, s: nat)
    requires Prime(n) && !Divides(n, a) && Decomposes(n, d, s)
    ensures Passes(n, a, d, s)
  {
    UnitPower(a, n);
    SquaredIsPower(a, d, s, n);
    DivUnique(1, n, 0, 1);
    DivMod(Pow(a, d), n);
    BackToMinusOne(Pow(a, d) % n, s, n);
  }

  // ----- Miller and Rabin -----

  /** Square y up to k - 1 times in search of n1 = n - 1. */
  method SquareToMinusOne(y0: BigInteger, x: BigInteger, n1: BigInteger, k: nat) returns (pass: bool)
    requires y0.Valid() && x.Valid() && n1.Valid() && x.Value() > 2 && n1.Value() == x.Value() - 1 && k > 0
    requires y0.Value() != 1 && 0 <= y0.Value() < x.Value()
    ensures pass <==> ReachesMinusOne(y0.Value(), k, x.Value())
  {
    ghost var Y, n := y0.Value(), x.Value();
    var one := Nbv(1);
    var y := y0;
    var j := 1;
    var c := CompareTo(y, n1);
    while j < k && c != 0
      invariant 1 <= j <= k && y.Valid() && y.Value() == Squared(Y, j - 1, n) && y.Value() != 1
      invariant forall l :: 0 <= l < j - 1 ==> Squared(Y, l, n) != n - 1
      invariant c == 0 <==> y.Value() == n - 1
      modifies {}
    {
      y := SquareMod(y, x);
      j := j + 1;
      c := CompareTo(y, one);
      if c == 0 {
        NeverMinusOne(Y, j - 1, k, n);
        return false;
      }
      c := CompareTo(y, n1);
    }
    assert c == 0 ==> Squared(Y, j - 1, n) == n - 1;
    pass := c == 0;
  }

  lemma {:induction false} NeverMinusOne(y: int, j: nat, k: nat, n: int)
    requires n > 2 && Squared(y, j, n) == 1
    requires forall l :: 0 <= l < j ==> Squared(y, l, n) != n - 1
    ensures !ReachesMinusOne(y, k, n)
  {
    forall l | 0 <= l < k ensures Squared(y, l, n) != n - 1 {
      if l >= j { StaysOne(y, j, l, n); }
    }
  }

  method SquareMod(y: BigInteger, x: BigInteger) returns (r: BigInteger)
    requires y.Valid() && x.Valid() && x.Value() > 0
    ensures r.Valid() && fresh(r) && r.Value() == (y.Value() * y.Value()) % x.Value()
  {
    assert Pow(y.Value(), 2) == y.Value() * Pow(y.Value(), 1);
    assert Pow(y.Value(), 1) == y.Value() * Pow(y.Value(), 0);
    r := ModPowInt(y, 2, x);
  }

  /** One round: does x pass to the base a? */
  method Round(x: BigInteger, n1: BigInteger, r: BigInteger, k: nat, a: int) returns (pass: bool)
    requires x.Valid() && n1.Valid() && r.Valid() && x.Value() > 2 && n1.Value() == x.Value() - 1 && k > 0
    requires r.Value() > 0 && 0 <= a < DV && x.t + 3 <= DV
    ensures pass <==> Passes(x.Value(), a, r.Value(), k)
  {
    var b := Nbv(a);
    var y := ModPow(b, r, x);
    DivMod(Pow(a, r.Value()), x.Value());
    var one := Nbv(1);
    var c := CompareTo(y, one);
    if c == 0 { return true; }
    c := CompareTo(y, n1);
    if c == 0 {
      assert Squared(y.Value(), 0, x.Value()) == n1.Value();
      return true;
    }
    pass := SquareToMinusOne(y, x, n1, k);
  }

  /** x >> n, or x << -n. */
  method ShiftRight(x: BigInteger, n: int) returns (r: BigInteger)
    requires x.Valid()
    ensures fresh(r) && r.Valid()
    ensures n < 0 ==> r.Value() == Shift(x.Value(), -n)
    ensures n >= 0 ==> Shift(r.Value(), n) <= x.Value() < Shift(r.Value() + 1, n)
  {
    r := new BigInteger();
    if n < 0 { LShiftTo(x, -n, r); } else { RShiftTo(x, n, r); }
  }

  /** How many entries of the table serve as bases. */
  method BasesToTry(t: int) returns (u: int)
    requires Int32(t + 1)
    ensures u <= |LOW_PRIMES| && forall i :: 0 <= i < u <==> 0 <= i < |LOW_PRIMES| && 2 * i < t
  {
    assert Pow(2, 1) == 2 * Pow(2, 0);
    u := Shr(t + 1, 1);
    if u > |LOW_PRIMES| { u := |LOW_PRIMES|; }
  }

  /** Whether x is a strong probable prime to the entries of the table, one for every two units of certainty. */
  method MillerRabin(x: BigInteger, t: int) returns (ok: bool)
    requires x.Valid() && x.Value() > 2 && x.t + 3 <= DV && Int32(t + 1)
    ensures ok <==> x.Value() % 2 == 1 && StrongFor(x.Value(), t)
  {
    var one := Nbv(1);
    var n1 := Subtract(x, one);
    var k: int;
    ghost var h: int;
    k, h := GetLowestSetBit(n1);
    OddIffShifted(x.Value(), h, k);
    if k <= 0 { return false; }
    var r := ShiftRight(n1, k);
    ExactShift(r.Value(), h, k);
    TableSize();
    var u := BasesToTry(t);
    ok := AllRounds(x, n1, r, k, u, LOW_PRIMES);
  }

  /** n is a strong probable prime to entry i of the table for each i with 2 * i < t. */
  ghost predicate StrongFor(n: int, t: int)
    requires n > 0
  {
    forall i :: 0 <= i < |LOW_PRIMES| && 2 * i < t ==> StrongProbablePrime(n, LOW_PRIMES[i])
  }

  method AllRounds(x: BigInteger, n1: BigInteger, r: BigInteger, k: nat, u: int, bases: seq<int>) returns (ok: bool)
    requires x.Valid() && n1.Valid() && r.Valid() && x.Value() > 2 && n1.Value() == x.Value() - 1
    requires k > 0 && r.Value() > 0 && Decomposes(x.Value(), r.Value(), k) && x.t + 3 <= DV
    requires u <= |bases| && forall i :: 0 <= i < |bases| ==> 0 <= bases[i] < DV
    ensures ok <==> forall i :: 0 <= i < u ==> StrongProbablePrime(x.Value(), bases[i])
  {
    var i := 0;
    ok := true;
    while i < u && ok
      invariant 0 <= i && (i == 0 || i <= u)
      invariant ok <==> forall l :: 0 <= l < i ==> StrongProbablePrime(x.Value(), bases[l])
    {
      ok := Round(x, n1, r, k, bases[i]);
      StrongIsPasses(x.Value(), bases[i], r.Value(), k);
      i := i + 1;
    }
  }

  lemma {:induction false} OddIffShifted(n: int, h: int, k: int)
    requires n > 2 && k >= 0 && n - 1 == Shift(h, k) && h % 2 == 1
    ensures h > 0 && Decomposes(n, h, k) && (k > 0 <==> n % 2 == 1)
  {
    if h <= 0 { ShiftMono(h, 0, k); }
    if k > 0 { assert Shift(h, k) == 2 * Shift(h, k - 1); }
  }

  lemma {:induction false} ExactShift(r: int, h: int, k: nat)
    requires Shift(r, k) <= Shift(h, k) < Shift(r + 1, k)
    ensures r == h
  {
    ShiftMono(r, h, k); ShiftMono(h, r + 1, k);
  }

  lemma {:induction false} StrongIsPasses(n: int, a: int, d: nat, s: nat)
    requires n > 0 && Decomposes(n, d, s) && s > 0
    ensures StrongProbablePrime(n, a) <==> Passes(n, a, d, s)
  {
    if StrongProbablePrime(n, a) {
      var d': nat, s': nat :| Decomposes(n, d', s') && s' > 0 && Passes(n, a, d', s');
      DecomposesOnce(n, d, s, d', s');
    }
  }

  // ----- The whole test -----

  /** No entry of p from i up to j divides n. */
  predicate NoneDivides(n: int, p: seq<int>, i: nat, j: nat)
    requires j <= |p|
  {
    forall l :: i <= l < j ==> p[l] > 0 && n % p[l] != 0
  }

  /** What trial division relies on: the entries are positive and at most 509. */
  predicate Entries(p: seq<int>) {
    forall l :: 0 <= l < |p| ==> 0 < p[l] <= 509
  }

  function Product(p: seq<int>, i: nat, j: nat): int
    requires i <= j <= |p|
  {
    if i == j then 1 else Product(p, i, j - 1) * p[j - 1]
  }

  lemma {:induction false} EntryDivides(p: seq<int>, i: nat, l: nat, j: nat)
    requires Entries(p) && i <= l < j <= |p|
    ensures Product(p, i, j) % p[l] == 0
  {
    var c := p[l];
    if l == j - 1 {
      DivUnique(Product(p, i, j), c, Product(p, i, j - 1), 0);
    } else {
      EntryDivides(p, i, l, j - 1);
      var k := Factor(c, Product(p, i, j - 1));
      MulAssoc(k, c, p[j - 1]); MulComm(c, p[j - 1]); MulAssoc(k, p[j - 1], c);
      DivUnique(Product(p, i, j), c, k * p[j - 1], 0);
    }
  }

  lemma {:induction false} ModMod(n: int, m: int, p: int)
    requires m > 0 && p > 0 && m % p == 0
    ensures n % m % p == n % p
  {
    DivMod(n, m);
    DivMod(m, p);
    MulAssoc(n / m, m / p, p);
    CongFromMultiple(n, n % m, n / m * (m / p), p);
  }

  /** The quotient 2^26 / 509, which is not a whole number. */
  const LPLIM: real := 67108864.0 / 509.0

  /** The product of entries from i on, up to the first that reaches the limit. */
  method BatchProduct(p: seq<int>, i: nat) returns (j: nat, m: int)
    requires Entries(p) && i < |p|
    ensures i < j <= |p| && m == Product(p, i, j) && 0 < m < 0x400_0000
  {
    m := p[i];
    j := i + 1;
    assert Product(p, i, i) == 1;
    while j < |p| && m as real < LPLIM
      invariant i < j <= |p| && m == Product(p, i, j) && 0 < m < 0x400_0000
    {
      BelowLimit(m, p[j]);
      m := m * p[j];
      j := j + 1;
    }
  }

  lemma {:induction false} BelowLimit(m: int, p: int)
    requires 0 < m && m as real < LPLIM && 0 < p <= 509
    ensures 0 < m * p < 0x400_0000
  {
    MulPos(m, p);
    MulLe(p, 509, m);
    MulComm(p, m);
    assert m <= 131844;
  }

  /** One batch of entries, and whether one of them divides x. */
  method Batch(x: BigInteger, p: seq<int>, i: nat) returns (j: nat, found: bool)
    requires x.Valid() && Entries(p) && i < |p|
    ensures i < j <= |p| && (found <==> !NoneDivides(x.Value(), p, i, j))
  {
    var m: int;
    j, m := BatchProduct(p, i);
    m := ModInt(x, m);
    var l := i;
    while l < j
      invariant i <= l <= j && NoneDivides(x.Value(), p, i, l)
    {
      EntryRemainder(x.Value(), p, i, l, j);
      if m % p[l] == 0 { return j, true; }
      l := l + 1;
    }
    found := false;
  }

  lemma {:induction false} EntryRemainder(n: int, p: seq<int>, i: nat, l: nat, j: nat)
    requires Entries(p) && i <= l < j <= |p| && Product(p, i, j) > 0
    ensures n % Product(p, i, j) % p[l] == n % p[l]
  {
    EntryDivides(p, i, l, j);
    ModMod(n, Product(p, i, j), p[l]);
  }

  /** Trial division by the entries from the second on. */
  method TrialDivision(x: BigInteger, p: seq<int>) returns (found: bool)
    requires x.Valid() && Entries(p) && |p| > 0
    ensures found <==> !NoneDivides(x.Value(), p, 1, |p|)
  {
    var i := 1;
    while i < |p|
      invariant 1 <= i <= |p| && NoneDivides(x.Value(), p, 1, i)
    {
      i, found := Batch(x, p, i);
      if found { return; }
    }
    found := false;
  }

  /** What the test computes for numbers beyond the table. */
  ghost predicate ProbablePrime(n: int, t: int)
    requires n > 0
  {
    && NoneDivides(n, LOW_PRIMES, 0, |LOW_PRIMES|)
    && StrongFor(n, t)
  }

  /** |x| probably prime: exactly so up to 509, and for larger numbers the test above. */
  method IsProbablePrime(x0: BigInteger, t: int) returns (r: bool)
    requires x0.Valid() && x0.t + 3 < DV && Int32(t + 1)
    ensures Absolute(x0.Value()) <= 509 ==> (r <==> Prime(Absolute(x0.Value())))
    ensures Absolute(x0.Value()) > 509 ==> (r <==> ProbablePrime(Absolute(x0.Value()), t))
    ensures Prime(Absolute(x0.Value())) ==> r
  {
    var x := Abs(x0);
    AbsLength(x0, x);
    ghost var n := x.Value();
    if n > 509 && Prime(n) { PrimeIsProbable(n, t); }
    Small(x);
    TableSize();
    if x.t == 1 && x.digits[0] <= LOW_PRIMES[|LOW_PRIMES| - 1] {
      r := Listed(x.digits[0], LOW_PRIMES);
      TableExact(n);
      return;
    }
    var even := IsEven(x);
    if even {
      EvenIsNoPrime(n, t);
      return false;
    }
    var found := TrialDivision(x, LOW_PRIMES);
    if found { return false; }
    r := MillerRabin(x, t);
  }

  method Listed(v: int, p: seq<int>) returns (r: bool)
    ensures r <==> v in p
  {
    var i := 0;
    while i < |p|
      invariant 0 <= i <= |p| && v !in p[..i]
    {
      if v == p[i] { return true; }
      i := i + 1;
    }
    r := false;
  }

  lemma {:induction false} EvenIsNoPrime(n: int, t: int)
    requires n % 2 == 0 && (n == 0 || n > 509)
    ensures !Prime(n) && (n > 0 ==> !ProbablePrime(n, t))
  {
    TableSize();
    assert LOW_PRIMES[0] == 2;
    assert n > 0 ==> Divides(2, n);
  }

  /** The numbers one digit of the table's size can hold. */
  lemma {:induction false} Small(x: BigInteger)
    requires x.Valid() && x.s == 0
    ensures x.t == 1 && x.digits[0] <= 509 ==> x.Value() == x.digits[0] && x.Value() <= 509
    ensures !(x.t == 1 && x.digits[0] <= 509) ==> x.Value() == 0 || x.Value() > 509
  {
    SignOf(x);
    if x.t == 1 {
      ValLow(x.digits, 0, 1);
    } else if x.t > 1 {
      PlaceGrows(1, 1, x.t - 1);
    }
  }

  /** The absolute value of a negative number is no longer than one digit more. */
  lemma {:induction false} AbsLength(x: BigInteger, r: BigInteger)
    requires x.Valid() && r.Valid() && r.s == 0 && r.Value() == Absolute(x.Value())
    ensures r.t <= x.t + 1
  {
    SignOf(x);
    SignOf(r);
    CanonicalRange(x.digits, x.t, x.s);
    if r.t > x.t + 1 {
      PlaceGrows(1, x.t + 1, r.t - 1);
      PlaceGrows(1, x.t, x.t + 1);
    }
  }

  lemma {:induction false} PrimeIsProbable(n: int, t: int)
    requires Prime(n) && n > 509
    ensures ProbablePrime(n, t)
  {
    TableSize();
    forall l | 0 <= l < |LOW_PRIMES| ensures LOW_PRIMES[l] > 0 && n % LOW_PRIMES[l] != 0 {
      assert !Divides(LOW_PRIMES[l], n);
    }
    forall i | 0 <= i < |LOW_PRIMES| && 2 * i < t ensures StrongProbablePrime(n, LOW_PRIMES[i]) {
      PrimeIsStrong(n, LOW_PRIMES[i]);
    }
  }

  /** Every odd prime is a strong probable prime to every smaller base. */
  lemma {:induction false} PrimeIsStrong(n: int, a: int)
    requires Prime(n) && n > 2 && 0 < a < n
    ensures StrongProbablePrime(n, a)
  {
    var d, s := TakeOutTwos(n - 1);
    if s == 0 { assert Shift(d, 0) == d; EvenIsComposite(n); }
    if Divides(n, a) { DividesLe(n, a); }
    PrimePasses(n, a, d, s);
  }

  lemma {:induction false} EvenIsComposite(n: int)
    requires n > 2 && n % 2 == 0
    ensures !Prime(n)
  {
    assert Divides(2, n);
  }

  lemma {:induction false} TakeOutTwos(m: nat) returns (d: nat, s: nat)
    requires m > 0
    ensures m == Shift(d, s) && d % 2 == 1
    decreases m
  {
    if m % 2 == 1 {
      d, s := m, 0;
    } else {
      d, s := TakeOutTwos(m / 2);
      s := s + 1;
    }
  }
}
