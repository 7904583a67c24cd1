/** The table of small primes: exactly the primes up to 509. */
module LowPrimes {
  import opened Numbers
  import opened Divisors

  const LOW_PRIMES: seq<int> :=
    [2]
    + [3, 5, 7, 11, 13, 17] + [19, 23, 29, 31, 37, 41]
    + [43, 47, 53, 59, 61, 67] + [71, 73, 79, 83, 89, 97]
    + [101, 103, 107, 109, 113, 127] + [131, 137, 139, 149, 151, 157]
    + [163, 167, 173, 179, 181, 191] + [193, 197, 199, 211, 223, 227]
    + [229, 233, 239, 241, 251, 257] + [263, 269, 271, 277, 281, 283]
    + [293, 307, 311, 313, 317, 331] + [337, 347, 349, 353, 359, 367]
    + [373, 379, 383, 389, 397, 401] + [409, 419, 421, 431, 433, 439]
    + [443, 449, 457, 461, 463, 467] + [479, 487, 491, 499, 503, 509]

  /** No prime below 23 divides n, unless it is n. */
  predicate Rough(n: int) {
    && (n % 2 != 0 || n == 2) && (n % 3 != 0 || n == 3) && (n % 5 != 0 || n == 5) && (n % 7 != 0 || n == 7)
    && (n % 11 != 0 || n == 11) && (n % 13 != 0 || n == 13) && (n % 17 != 0 || n == 17) && (n % 19 != 0 || n == 19)
  }

  /** A number below 23^2 without these divisors has none. */
  lemma {:induction false} RoughIsPrime(n: int)
    requires 2 <= n < 529
    ensures Rough(n) <==> Prime(n)
  {
    if !Rough(n) { NotRough(n); }
    if !Prime(n) {
      var d :| 2 <= d < n && Divides(d, n);
      var k := Factor(d, n);
      if d >= 23 && k >= 23 { MulLe(23, k, d); }
      if k <= 1 { MulLe(k, 1, d); }
      assert Divides(k, n) by { MulComm(k, d); DividesTimes(k, d); }
      if d < 23 { SmallDivisor(d, n); } else { MulLe(2, d, k); MulComm(d, k); SmallDivisor(k, n); }
    }
  }

  lemma {:induction false} NotRough(n: int)
    requires 2 <= n && !Rough(n)
    ensures !Prime(n)
  {
    var d := if n % 2 == 0 && n != 2 then 2 else if n % 3 == 0 && n != 3 then 3 else if n % 5 == 0 && n != 5 then 5
             else if n % 7 == 0 && n != 7 then 7 else if n % 11 == 0 && n != 11 then 11
             else if n % 13 == 0 && n != 13 then 13 else if n % 17 == 0 && n != 17 then 17 else 19;
    assert Divides(d, n);
    DividesLe(d, n);
  }

  lemma {:induction false} Transitive(p: int, d: int, n: int)
    requires p > 0 && d > 0 && Divides(p, d) && Divides(d, n)
    ensures Divides(p, n)
  {
    var k := Factor(p, d);
    var l := Factor(d, n);
    MulAssoc(l, k, p);
    DividesTimes(p, l * k);
  }

  lemma {:induction false} SmallDivisor(d: int, n: int)
    requires 2 <= d < 23 && d < n && Divides(d, n)
    ensures !Rough(n)
  {
    var p := if d % 2 == 0 then 2 else if d % 3 == 0 then 3 else if d % 5 == 0 then 5 else if d % 7 == 0 then 7 else d;
    assert p in {2, 3, 5, 7, 11, 13, 17, 19} && Divides(p, d);
    Transitive(p, d, n);
  }

  // ----- Row by row -----

  /** The odd number q follows the odd number p in the table. */
  predicate Follows(p: int, q: int) {
    && 2 < p < q <= p + 14 && p % 2 == 1 && q % 2 == 1 && Rough(p)
    && (p + 2 < q ==> !Rough(p + 2)) && (p + 4 < q ==> !Rough(p + 4)) && (p + 6 < q ==> !Rough(p + 6))
    && (p + 8 < q ==> !Rough(p + 8)) && (p + 10 < q ==> !Rough(p + 10)) && (p + 12 < q ==> !Rough(p + 12))
  }

  lemma {:induction false} Gap(p: int, q: int, n: int)
    requires Follows(p, q)
    ensures p <= n < q && Rough(n) <==> n == p
  {
    if p < n < q {
      if n % 2 == 0 { EvenIsNotRough(n); } else { OddSteps(p, n); }
    }
  }

  lemma {:induction false} EvenIsNotRough(n: int)
    requires n > 2 && n % 2 == 0
    ensures !Rough(n)
  {}

  lemma {:induction false} OddSteps(p: int, n: int)
    requires p < n < p + 14 && p % 2 == 1 && n % 2 == 1
    ensures n == p + 2 || n == p + 4 || n == p + 6 || n == p + 8 || n == p + 10 || n == p + 12
  {
    var k := (n - p) / 2;
    assert n - p == 2 * k;
  }

  /** Six table entries that follow one another, and the start of the next row. */
  lemma {:induction false} Row(a: int, b: int, c: int, d: int, e: int, f: int, g: int, n: int)
    requires Follows(a, b) && Follows(b, c) && Follows(c, d) && Follows(d, e) && Follows(e, f) && Follows(f, g)
    ensures n in [a, b, c, d, e, f] <==> a <= n < g && Rough(n)
  {
    Gap(a, b, n); Gap(b, c, n); Gap(c, d, n); Gap(d, e, n); Gap(e, f, n); Gap(f, g, n);
  }

  lemma {:induction false} Rows1(n: int)
    ensures var row := [3, 5, 7, 11, 13, 17] + [19, 23, 29, 31, 37, 41] +
        [43, 47, 53, 59, 61, 67] + [71, 73, 79, 83, 89, 97];
      n in row <==> 3 <= n < 101 && Rough(n)
  {
    Row(3, 5, 7, 11, 13, 17, 19, n);
    Row(19, 23, 29, 31, 37, 41, 43, n);
    Row(43, 47, 53, 59, 61, 67, 71, n);
    Row(71, 73, 79, 83, 89, 97, 101, n);
  }

  lemma {:induction false} Rows2(n: int)
    ensures var row := [101, 103, 107, 109, 113, 127] + [131, 137, 139, 149, 151, 157] +
        [163, 167, 173, 179, 181, 191] + [193, 197, 199, 211, 223, 227];
      n in row <==> 101 <= n < 229 && Rough(n)
  {
    Row(101, 103, 107, 109, 113, 127, 131, n);
    Row(131, 137, 139, 149, 151, 157, 163, n);
    Row(163, 167, 173, 179, 181, 191, 193, n);
    Row(193, 197, 199, 211, 223, 227, 229, n);
  }

  lemma {:induction false} Rows3(n: int)
    ensures var row := [229, 233, 239, 241, 251, 257] + [263, 269, 271, 277, 281, 283] +
        [293, 307, 311, 313, 317, 331] + [337, 347, 349, 353, 359, 367];
      n in row <==> 229 <= n < 373 && Rough(n)
  {
    Row(229, 233, 239, 241, 251, 257, 263, n);
    Row(263, 269, 271, 277, 281, 283, 293, n);
    Row(293, 307, 311, 313, 317, 331, 337, n);
    Row(337, 347, 349, 353, 359, 367, 373, n);
  }

  lemma {:induction false} Rows4(n: int)
    ensures var row := [373, 379, 383, 389, 397, 401] + [409, 419, 421, 431, 433, 439] +
        [443, 449, 457, 461, 463, 467] + [479, 487, 491, 499, 503, 509];
      n in row <==> 373 <= n < 511 && Rough(n)
  {
    Row(373, 379, 383, 389, 397, 401, 409, n);
    Row(409, 419, 421, 431, 433, 439, 443, n);
    Row(443, 449, 457, 461, 463, 467, 479, n);
    Row(479, 487, 491, 499, 503, 509, 511, n);
  }

  lemma {:induction false} TableIsRough(n: int)
    ensures n in LOW_PRIMES <==> 2 <= n <= 510 && Rough(n)
  {
    Rows1(n); Rows2(n); Rows3(n); Rows4(n);
  }

  /** The table lists exactly the primes up to 509. */
  lemma {:induction false} TableExact(n: int)
    ensures n in LOW_PRIMES <==> n <= 509 && Prime(n)
  {
    TableIsRough(n);
    PrimeIffRough(n);
  }

  lemma {:induction false} PrimeIffRough(n: int)
    ensures 2 <= n <= 510 && Rough(n) <==> n <= 509 && Prime(n)
  {
    if n == 510 { EvenIsNotRough(n); }
    if 2 <= n <= 510 { RoughIsPrime(n); }
  }

  lemma {:induction false} TableSize()
    ensures |LOW_PRIMES| == 97 && LOW_PRIMES[0] == 2 && LOW_PRIMES[96] == 509
    ensures forall i :: 0 <= i < 97 ==> 2 <= LOW_PRIMES[i] <= 509 && Prime(LOW_PRIMES[i])
  {
    forall i | 0 <= i < 97 ensures 2 <= LOW_PRIMES[i] <= 509 && Prime(LOW_PRIMES[i]) {
      TableExact(LOW_PRIMES[i]);
    }
  }
}
