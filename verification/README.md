# Cynic: verified models of the macro benchmarks and of the regression gate

Cynic runs a set of vendored macro benchmarks and gates its Web Platform Test results against a baseline. This project
models the logic of that code in Dafny and proves what the code is for. Each part keeps the form of its source: numbers,
tree nodes, packets, tasks, variables and constraints are objects that methods update in place, and the loops are loops.
Each such method is proved against a mathematical value, and the laws are proved about those values.

`dafny verify dfyconfig.toml` checks the whole project.

## What is modelled

* **Multi-precision integers and RSA** (`bench/macros/crypto.js`). A number is a sequence of 28-bit digits with a sign
  word: its value is the digit sum plus s times B^t, with B = 2^28 and s 0 or -1, and no redundant top digit.
  `Numbers` and `Digits` hold the arithmetic, `BigIntegers` the class, and `AddSub`, `Compare`, `Shifts`, `Multiply`,
  `Quotient`, `Division`, `MontgomeryReduction`, `BarrettReduction`, `Windows`, `Exponentiation`, `GcdInverse`,
  `Primality`, `Text`, `Padding` and `Rsa` the operations. `Reducer` is the choice between the three reducers.
  `Divisors`, `Fermat`, `LowPrimes`, `Numerals`, `InverseRun` and `RsaArithmetic` are the reference mathematics.
  Results may alias operands wherever the source lets them, and the ranges of machine arithmetic are stated where the
  code depends on them.
* **The splay tree** (`bench/macros/splay.js`). `SplayNodes` relates linked nodes to trees, `SplayShapes` is splaying on
  trees and what it does to depths, `Splaying` the top-down loop with its two assembly trees hung off one dummy node,
  and `SplayTrees` refines a map.
* **The Richards scheduler** (`bench/macros/richards.js`). `TaskSystem` is the task system as a state machine,
  `TaskInvariants`, `TaskRuns` and `TaskTermination` prove its invariants over whole runs and its end, `IdleSeeds`,
  `TaskDelivery` and `TaskProgress` what each run achieves and that packets keep moving, `TaskCrew` that the system never
  gets stuck, and `TaskFlow` and `TaskThroughput` what the two counters have to do with each other and with the count.
  `SchedulerState` and `Scheduling` are the scheduler on linked objects, which follows the state machine step by step,
  and `RichardsRun` sets it up and runs it.
* **The DeltaBlue planner** (`bench/macros/deltablue.js`). `Constraints` has the variables and constraints,
  `PlanOrder` and `Planning` the extraction and execution of plans, and `Propagation` and `Solving` the changes to the
  dataflow graph. A graph is *stable* when its links are in order, each satisfied constraint determines its output,
  every stay flag and walkabout strength is right and every constant value is computed; every operation modelled keeps
  it so unless it meets a cycle. `Chains` follows the turning of a chain link by link, and `ChainTesting` is the chain
  benchmark.
* **The regression gate** (`tools/wpt/run.py`). `JsonValues` are JSON values compared as Python does, `Protocol` and
  `Supervisor` read the output of one test process, `Reports` says which reports are valid, `Regressions` when one is
  no worse than another, and `Gate` is the comparison. `Improvement` and `Silence` say the same of the JSON as read.

## How to read the contracts

`Val(d, lo, hi)` is the value of a range of digits, `Place(v, n)` is v*B^n, `Shift(v, n)` is v*2^n, `Pow` is the power
and `Cong(x, y, m)` congruence. `Wf()` allows redundant top digits, `Valid()` does not. `Rep(r, x)` says that r stands
for x in a reducer.
`Stands(s, g)` says that the scheduler s and all objects it reaches are in the state g, `Turn(g, i)` that g meets the
invariant, that every task above i is held or suspended and that i may run next. Ghost parameters name sets that the
source leaves implicit, such as the variables and constraints of a graph. `Along(path, links, ..)` names a chain that a
new constraint turns, `Anywhere` none; `Swept(s, k, m)` says that the turning has come to place k.

Where code and documentation disagree, the model follows the code:

* `compareTo` orders two negatives of different length the wrong way round (bench/macros/crypto.js:346-352); the exact
  condition is proved.
* `modInverse` is announced as 1/this % m, but can return an inverse outside [0, m), for odd and for even moduli
  (bench/macros/crypto.js:1251-1291); when it does is proved.
* `modPow` with exponent zero returns 1 even for modulus 1 (bench/macros/crypto.js:1155-1156).
* Bytes read from a number come back signed, so unpadding maps a character from 128 to 255 to one from 0xFF80 up
  (bench/macros/crypto.js:1606-1619); the exact condition under which a text survives is proved.
* `removeFirst` takes the last element (bench/macros/deltablue.js:117-119).
* `chooseMethod` overwrites what it derives from the marks (bench/macros/deltablue.js:401-421), so equal strengths can
  lead it back to a marked variable, and an equality can override a stronger constraint; exactly when is proved. The
  loop over overridden constraints ends all the same, as the marks of the variables prove.
* A valid report can make the comparison stop with an exception, because the shape of the harness entry is never
  validated (tools/wpt/run.py:279-333); the exact condition is proved.

## Model

| member | source | states |
|---|---|---|
| BigIntegers.BigInteger.Clamp | bench/macros/crypto.js:298-302 | After dropping redundant top digits the number is canonical and has the same value; nothing is dropped when the top digit differs from the sign digit. |
| BigIntegers.BigInteger.FromInt | bench/macros/crypto.js:245-252 | Sets a canonical number of value x, for -1 <= x below the base. |
| BigIntegers.BigInteger.CopyTo | bench/macros/crypto.js:235-242 | The copy has the same digits, sign and value. |
| BigIntegers.SignOf | bench/macros/crypto.js:762-767 | For a canonical number the sign field is the sign of the value, zero is the number without digits, and the value lies between the neighbouring powers of the base. |
| Digits.CanonicalUnique | bench/macros/crypto.js:298-302 | Two canonical numbers of equal value have equal length, sign and digits. |
| AddSub.SubTo | bench/macros/crypto.js:433-466 | r becomes the exact difference, canonical, for all signs and also when r is one of the operands. |
| AddSub.AddTo | bench/macros/crypto.js:990-1023 | r becomes the exact sum, canonical, for all signs and also when r is one of the operands. |
| AddSub.Negate | bench/macros/crypto.js:336 | A fresh number of the opposite value. |
| AddSub.Abs | bench/macros/crypto.js:339 | The absolute value; the receiver itself when it is not negative. |
| Compare.CompareTo | bench/macros/crypto.js:342-353 | Zero exactly for equal values; positive exactly for the larger value, except that two negatives of different length are ordered the wrong way round. |
| Compare.ComparisonExact | bench/macros/crypto.js:342-353 | On all canonical numbers: the sign of the result is that of the comparison if and only if not both are negative with different lengths. |
| Compare.ComparisonCounterexample | bench/macros/crypto.js:342-353 | A concrete pair of negatives that compares the wrong way round. |
| Compare.SigNum | bench/macros/crypto.js:762-767 | -1, 0 or 1 by the sign of the value. |
| Compare.IsEven | bench/macros/crypto.js:670-673 | True exactly for even values, of either sign. |
| Compare.NBits | bench/macros/crypto.js:356-364 | The five probes give the number of binary digits of every word (1 for zero). |
| Compare.BitLength | bench/macros/crypto.js:367-371 | n with 2^(n-1) <= magnitude < 2^n, where the magnitude of a negative x is that of its complement. |
| Shifts.DLShiftTo | bench/macros/crypto.js:374-382 | Multiplication by a power of the base, digit by digit, in place or not. |
| Shifts.DRShiftTo | bench/macros/crypto.js:385-391 | Floor division by a power of the base for both signs, in place or not. |
| Shifts.LShiftTo | bench/macros/crypto.js:394-410 | Multiplication by 2^n for both signs; the digits above the result are the ones long division relies on. |
| Shifts.RShiftTo | bench/macros/crypto.js:413-430 | Floor division by 2^n for both signs, also in place. |
| Multiply.AmDigit | bench/macros/crypto.js:163-177 | One round of the inner product with split 14-bit halves: d + B*c' == w + x*a + c, d is a digit, c' < 3B, and no intermediate reaches 2^31. |
| Multiply.Am3 | bench/macros/crypto.js:163-177 | Over a row: new row + c'*B^n == old row + u*row + c for u < 2B; digits outside the row do not change. |
| Multiply.MultiplyTo | bench/macros/crypto.js:470-483 | The exact product, canonical, for all signs. |
| Multiply.SquareTo | bench/macros/crypto.js:486-503 | The exact square, canonical: the doubled digits of the rows overflow by at most one into a digit that is still zero. |
| Multiply.SquareAgrees | bench/macros/crypto.js:470-503 | Squaring and multiplying a number by itself give the same digits, sign and length. |
| Quotient.EstimateBounds | bench/macros/crypto.js:527-542 | The quotient digit estimated from the leading digits is the true digit or one more, whenever the divisor is normalised. |
| Quotient.NotTooSmall | bench/macros/crypto.js:527-542 | The slack e keeps the estimate from falling below the true digit. |
| Quotient.NotTooLarge | bench/macros/crypto.js:527-542 | The estimate stays below the true digit plus two. |
| Quotient.LeadingDigitsEqual | bench/macros/crypto.js:542 | When the leading digits agree, the digit B-1 taken instead is the true digit or one more. |
| Division.TrialDecides | bench/macros/crypto.js:543-547 | The digit left above the window tells whether the trial digit was too large; if not, the window holds exactly the remainder. |
| Division.TryDigit | bench/macros/crypto.js:543 | Adding a multiple of the complemented divisor leaves the window as if that multiple had been subtracted. |
| Division.Correct | bench/macros/crypto.js:544-547 | Taking back one divisor at a time ends with the true digit and keeps the quotient digit in place. |
| Division.LongDivision | bench/macros/crypto.js:537-549 | The loop leaves remainder and quotient digits of one division exactly. |
| Division.DivideMagnitudes | bench/macros/crypto.js:507-549 | Normalising, dividing and the top quotient digit together divide the magnitudes. |
| Division.DivRemTo | bench/macros/crypto.js:507-557 | Quotient truncated toward zero and remainder with the sign of the dividend for every dividend and every non-zero divisor, with q or r missing, and with r the dividend itself; a zero divisor changes nothing. |
| Division.TruncDivision | bench/macros/crypto.js:550-556 | Truncated quotient and remainder: x == q*m + r, r is smaller than m in magnitude and has the sign of x. |
| BarrettReduction.Mod | bench/macros/crypto.js:560-565 | The remainder in [0, a) for a positive modulus and every x; for a negative one what the last branch makes of the remainder. |
| MontgomeryReduction.InvDigit | bench/macros/crypto.js:594-608 | For an odd number r with m0*r == -1 modulo the base, 0 < r < B; zero otherwise. |
| MontgomeryReduction.DigitClears | bench/macros/crypto.js:643-648 | The multiplier that is d*mp modulo the base makes the lowest digit vanish. |
| MontgomeryReduction.ClearDigit | bench/macros/crypto.js:642-651 | One round clears the next digit by adding a multiple of m, every carry staying inside the padded digits. |
| MontgomeryReduction.AddMultiple | bench/macros/crypto.js:643-648 | Its first half: the digit is clear, and only the digit that took the carry may be oversized. |
| MontgomeryReduction.MontReduce | bench/macros/crypto.js:638-655 | For 0 <= x < m*B^t: x becomes a value in [0, m) with x*B^t congruent to the old value. |
| MontgomeryReduction.ReducedUnique | bench/macros/crypto.js:638-655 | There is only one such value below an odd m. |
| Exponentiation.MontConvert | bench/macros/crypto.js:621-627 | The representative x*B^t mod m, also for negative x and for zero. |
| BarrettReduction.MultiplyLowerTo | bench/macros/crypto.js:1083-1094 | Exactly the product modulo B^n. |
| BarrettReduction.MultiplyUpperTo | bench/macros/crypto.js:1098-1109 | Discarding the low partial products loses less than n*B^n: r*B^n <= x*a < (r+n)*B^n. |
| BarrettReduction.DAddOffset | bench/macros/crypto.js:1056-1065 | Adds n*B^w with all carries, growing the number where needed. |
| BarrettReduction.BarrettEstimate | bench/macros/crypto.js:1130-1138 | The estimated quotient is never too large and too small by so little that the difference fits t+1 digits. |
| BarrettReduction.EstimateQuotient | bench/macros/crypto.js:1130-1134 | The quotient estimate computed from truncated products satisfies that bound. |
| BarrettReduction.BarrettReduce | bench/macros/crypto.js:1130-1138 | For 0 <= x < B^(2t): x becomes exactly x mod m. |
| Exponentiation.Convert | bench/macros/crypto.js:569-572 | Every reducer represents x modulo m (classic, Montgomery or Barrett). |
| Exponentiation.Revert | bench/macros/crypto.js:573 | Reading a representative back gives the residue in [0, m). |
| Exponentiation.Exp | bench/macros/crypto.js:676-686 | Square and multiply gives x^e mod m for 1 <= e < 2^32, and 1 for other exponents. |
| Exponentiation.ModPowInt | bench/macros/crypto.js:689-693 | x^e mod m with the reducer chosen by exponent and parity. |
| Windows.ReadWindow | bench/macros/crypto.js:1185-1189 | The k bits from place (j,i) downward, also when they straddle two digits. |
| Windows.StripZeros | bench/macros/crypto.js:1191-1192 | Trailing zeros taken off leave an odd window of n bits. |
| Windows.NextWindow | bench/macros/crypto.js:1184-1193 | A window that starts at a set bit: it is odd, and appending it to the prefix read so far is the longer prefix. |
| Exponentiation.OneWindow | bench/macros/crypto.js:1184-1208 | One round keeps: r represents g to the exponent prefix consumed; the position falls strictly and again stands on a set bit. |
| Exponentiation.PowLoop | bench/macros/crypto.js:1181-1209 | The whole loop raises to the whole exponent, swapping r and r2 as it goes. |
| Exponentiation.ModPow | bench/macros/crypto.js:1153-1210 | x^e mod m for every x, e > 0 and m > 0 with any of the three reducers; 1 for e = 0. |
| Divisors.GcdBezout | bench/macros/crypto.js:1213-1238 | The reference gcd divides both numbers and is a combination of them. |
| Divisors.GcdGreatest | bench/macros/crypto.js:1213-1238 | Every common divisor divides it. |
| GcdInverse.LBit | bench/macros/crypto.js:931-940 | The number of trailing zeros of a word. |
| GcdInverse.GetLowestSetBit | bench/macros/crypto.js:943-949 | The number of trailing zeros of a number, -1 for zero. |
| GcdInverse.GCD | bench/macros/crypto.js:1213-1238 | The binary algorithm ends with the greatest common divisor of the magnitudes, also for zero and negative arguments. |
| GcdInverse.ModInverse | bench/macros/crypto.js:1252-1291 | For x > 0: r*x == 1 mod m when x and m are coprime, and zero exactly otherwise, for even and odd m; it terminates. The result is the coefficient the loop ends with, moved by the last branches, and lies in [0, m) if and only if that coefficient lies in [-2m, 2m). |
| InverseRun.AdjustedInRange | bench/macros/crypto.js:1288-1290 | The last branches reach [0, m) exactly from coefficients in [-2m, 2m). |
| InverseRun.RangeMissed | bench/macros/crypto.js:1252-1291 | They do not suffice: 1748 modulo 3659 ends with -7969 and comes out as -651, which is an inverse outside [0, m). |
| InverseRun.RangeMissedEven | bench/macros/crypto.js:1252-1291 | Nor do they for an even modulus: 14205 modulo 29332 ends with -69067 and comes out as -10403. |
| LowPrimes.TableExact | bench/macros/crypto.js:1293 | The table holds exactly the primes up to 509. |
| LowPrimes.TableSize | bench/macros/crypto.js:1293-1294 | It has 97 entries from 2 to 509, all prime. |
| Primality.ModInt | bench/macros/crypto.js:1241-1249 | The remainder by a small positive number, for both signs. |
| Primality.BatchProduct | bench/macros/crypto.js:1308-1309 | The batch of primes multiplied together stays below 2^26 and is not empty. |
| Primality.TrialDivision | bench/macros/crypto.js:1306-1312 | Some table prime divides x if and only if some batch finds it. |
| Fermat.Binomial | bench/macros/crypto.js:1317-1338 | The binomial expansion of (a+1)^n, for the proof of the next row. |
| Fermat.LittleTheorem | bench/macros/crypto.js:1317-1338 | a^p == a modulo a prime p. |
| Fermat.RootsOfOne | bench/macros/crypto.js:1328-1335 | Modulo a prime 1 has only the square roots 1 and -1. |
| Primality.PrimePasses | bench/macros/crypto.js:1317-1338 | A prime passes every round, whatever the base. |
| Primality.Round | bench/macros/crypto.js:1325-1335 | One round of the loop decides the textbook condition for its base. |
| Primality.MillerRabin | bench/macros/crypto.js:1317-1338 | True exactly for odd numbers that are strong probable primes to entry i of the table for every i below 97 with 2*i < t. |
| Primality.PrimeIsStrong | bench/macros/crypto.js:1317-1338 | A prime is a strong probable prime to every base below it. |
| Primality.StrongIsFermat | bench/macros/crypto.js:1317-1338 | A strong probable prime to base a is odd and meets the congruence of Fermat for a: a^(n-1) == 1. |
| Primality.BasesToTry | bench/macros/crypto.js:1322-1323 | The number of bases used: one for every two units of t, rounded up, and all 97 at most. |
| Primality.PrimeIsProbable | bench/macros/crypto.js:1297-1314 | A prime above 509 meets the condition that the whole test decides. |
| Primality.IsProbablePrime | bench/macros/crypto.js:1297-1314 | Up to 509 the answer is exact. Above, it is yes exactly if no table prime divides the number and it is a strong probable prime to entry i of the table for every i with 2*i < t; no prime is rejected. |
| Numerals.ParseText | bench/macros/crypto.js:305-333 | Reading back the numeral of any integer gives the integer, in bases 2 to 36. |
| Numerals.TextParse | bench/macros/crypto.js:258-295 | Writing what was read from a proper numeral gives the numeral. |
| Numerals.Figures | bench/macros/crypto.js:218-232 | The first ten digits are the characters 0 to 9, in this order, both ways. |
| Numerals.SmallLetters | bench/macros/crypto.js:218-232 | The next 26 are the letters a to z, in this order, both ways. |
| Numerals.Capitals | bench/macros/crypto.js:218-232 | The capitals A to Z are read like the small letters. |
| Numerals.NoOtherDigit | bench/macros/crypto.js:218-232 | A character is no digit exactly if it is none of these 62. |
| Numerals.LeadingDigit | bench/macros/crypto.js:258-295 | The first digit of a numeral counts most. |
| BitGroups.NextGroup | bench/macros/crypto.js:319-327 | Taking the next k bits, across a digit boundary or not: the part above grows by exactly that group. |
| BitGroups.PutGroup | bench/macros/crypto.js:278-287 | Or-ing the next k bits in at bit n adds x*2^n and keeps the digits below the base. |
| Text.ToString | bench/macros/crypto.js:305-333 | For the bases 2, 4, 8, 16 and 32: the standard numeral of the value, for both signs. |
| Text.FromString | bench/macros/crypto.js:258-295 | For those bases: the value of the numeral, in canonical form. |
| Text.FromBytes | bench/macros/crypto.js:258-295 | For base 256: the value of the signed big-endian bytes, sign extended, in canonical form. |
| Text.ToByteArray | bench/macros/crypto.js:838-861 | The shortest signed big-endian bytes of the value. |
| Numerals.BytesRead | bench/macros/crypto.js:838-861 | Reading those bytes gives the value back. |
| Numerals.ShortestIsBytes | bench/macros/crypto.js:838-861 | Every shortest byte string is what its value is written as. |
| Numerals.ByteOrder | bench/macros/crypto.js:838-861 | The first byte counts most and carries the sign, on three concrete strings. |
| Padding.Pkcs1Pad2 | bench/macros/crypto.js:1532-1551 | No result exactly when the text is longer than n-11; otherwise the number whose bytes are 0, 2, non-zero pad, 0, text, as in section 7.2 of RFC 8017. |
| Padding.Pkcs1Unpad2 | bench/macros/crypto.js:1606-1619 | The text with the character codes u exactly if the bytes are zeros, a 2, a pad without zeros, a 0 and u, with n-3 bytes in pad and u together; nothing for any other bytes. |
| Padding.UnpadExact | bench/macros/crypto.js:1606-1619 | The same of the byte string, both ways: what is unpadded, and that everything else is refused. |
| Padding.UnpadPadded | bench/macros/crypto.js:1532-1551 | Unpadding undoes padding for every text and every non-zero pad, up to what a byte can carry of a character. |
| Padding.ReceivedExact | bench/macros/crypto.js:1606-1619 | The text survives the byte round trip if and only if each of its code units does. |
| Padding.UnitSurvives | bench/macros/crypto.js:1606-1619 | A code unit survives exactly below 128 or from 0xFF80 up, because bytes come back signed. |
| Rsa.DoPublic | bench/macros/crypto.js:1576-1578 | x^e mod n. |
| RsaArithmetic.Recombined | bench/macros/crypto.js:1691-1693 | The recombined value is in [0, p*q) and has the two given residues, as in section 5.1.2 of RFC 8017. |
| RsaArithmetic.ResiduesDetermine | bench/macros/crypto.js:1691-1693 | It is the only one. |
| Rsa.Recombine | bench/macros/crypto.js:1691-1693 | The loop and the products compute that value from the two residues. |
| Rsa.DoPrivate | bench/macros/crypto.js:1683-1694 | x^d mod n, or the value with the residues x^dmp1 mod p and x^dmq1 mod q. |
| RsaArithmetic.ExponentsCancel | bench/macros/crypto.js:1649-1680 | Matching exponents cancel modulo a prime, also for multiples of the prime. |
| Rsa.PrivateUndoesPublic | bench/macros/crypto.js:1683-1694 | With a matching key pair the private step undoes the public step for every m < n. |
| Rsa.Encrypt | bench/macros/crypto.js:1581-1588 | The even-length hexadecimal form of the padded text raised to e, or nothing for a text that is too long. |
| Rsa.Decrypt | bench/macros/crypto.js:1698-1703 | The private image of the number read, unpadded: nothing unless its bytes are a block of type 2 as above. |
| Rsa.PaddedFits | bench/macros/crypto.js:1532-1551 | The padded text is below the modulus. |
| Rsa.EncryptAndDecrypt | bench/macros/crypto.js:1738-1753 | Decrypting what was encrypted returns the text if and only if it fits and each code unit survives. |
| Splaying.LinkRight | bench/macros/splay.js:394-397 | Hanging the current node at the right assembly tree keeps the in-order sequence and the invariant on both assembly trees. |
| Splaying.LinkLeft | bench/macros/splay.js:412-415 | The mirror image. |
| Splaying.RotateRight | bench/macros/splay.js:385-389 | A rotation keeps the in-order sequence and the nodes. |
| Splaying.RotateLeft | bench/macros/splay.js:403-407 | The mirror image. |
| Splaying.StepLeft | bench/macros/splay.js:380-397 | One turn to the left is one step of splitting the tree at the key, the rotation included; it keeps the invariant and makes the middle tree smaller, or stops with nothing smaller than the key below. |
| Splaying.StepRight | bench/macros/splay.js:398-415 | The mirror image. |
| Splaying.Assemble | bench/macros/splay.js:420-425 | The three parts hung under the current node are the joined tree, with the old in-order sequence. |
| Splaying.Splay | bench/macros/splay.js:367-426 | Terminates with exactly the splayed tree: the same nodes in the same order, and the sought key, or its predecessor or successor, at the root. |
| SplayShapes.PathHalves | bench/macros/splay.js:367-426 | Splaying halves the depth along the search path: the node at depth i of the path ends at depth i/2 + 2 at most. |
| SplayTrees.NearestFound | bench/macros/splay.js:298-304 | The key is in the tree if and only if it is at the root after splaying. |
| SplayTrees.EmptyRight | bench/macros/splay.js:281-282 | After splaying the left part for the removed key its root has no right child. |
| SplayTrees.EntriesSplit | bench/macros/splay.js:267-288 | Taking one node out of the sorted sequence takes exactly its key out of the map. |
| SplayTrees.SplayTree.Insert | bench/macros/splay.js:234-256 | The map gains the key with its value, and never loses or overwrites one. |
| SplayTrees.SplayTree.Remove | bench/macros/splay.js:267-288 | Fails exactly for a missing key, and otherwise takes exactly that key out of the map and returns its node. |
| SplayTrees.SplayTree.Find | bench/macros/splay.js:298-304 | The node of the key with its value, or null exactly when it is missing; the map does not change. |
| SplayTrees.SplayTree.FindMax | bench/macros/splay.js:310-319 | The last node in order of the tree or subtree. |
| SplayTrees.SplayTree.FindGreatestLessThan | bench/macros/splay.js:326-342 | The node of the greatest key below the given one, or null when there is none. |
| SplayTrees.SplayTree.ExportKeys | bench/macros/splay.js:348-354 | The strictly increasing list of exactly the keys. |
| SplayTrees.Traverse | bench/macros/splay.js:460-468 | Recursion to the left and a loop to the right visit the nodes in order. |
| SplayTrees.SplayTree.IsEmpty | bench/macros/splay.js:221-223 | True exactly for the empty map. |
| Packets.AddTo | bench/macros/richards.js:569-577 | The packet ends up at the end of the list, which stays linked and without cycles. |
| TaskInvariants.BeginKeeps | bench/macros/richards.js:366-380 | Taking the first packet of its queue, a task keeps packets, queues and states consistent. |
| TaskInvariants.SendKeeps | bench/macros/richards.js:283-290 | Queueing a packet keeps every packet in exactly one place and each runnable bit equal to a non-empty queue. |
| TaskInvariants.TakeKeeps | bench/macros/richards.js:443-533 | Taking a packet out of a list or slot keeps the system consistent. |
| TaskInvariants.PutKeeps | bench/macros/richards.js:443-533 | Putting a packet into a handler list or an empty device slot keeps it consistent; a device packet only goes to its device or its handler. |
| TaskInvariants.SuspendKeeps | bench/macros/richards.js:272-275 | Suspending keeps the invariant and strict priority; a device suspends only with an empty slot. |
| TaskInvariants.HoldKeeps | bench/macros/richards.js:262-266 | Holding keeps the invariant and strict priority for the next lower task. |
| TaskInvariants.ReleaseKeeps | bench/macros/richards.js:246-255 | Releasing a device from the idle task keeps both. |
| TaskRuns.WorkerKeeps | bench/macros/richards.js:472-490 | A run of the worker keeps both. |
| TaskRuns.HandlerKeeps | bench/macros/richards.js:507-533 | A run of a handler keeps both, and finds the packets it needs. |
| TaskRuns.DeviceKeeps | bench/macros/richards.js:443-453 | A run of a device keeps both; it never receives a packet while its slot is full. |
| TaskRuns.IdleKeeps | bench/macros/richards.js:416-426 | A run of the idle task keeps both. |
| TaskRuns.StepReady | bench/macros/richards.js:366-380 | A suspended runnable task has a packet to take, so no run dereferences a missing packet. |
| TaskRuns.StepKeeps | bench/macros/richards.js:230-240 | Every step from a reachable state leads to one where each packet is in exactly one place and every task above the next one is held or suspended. |
| TaskDelivery.IdleReleases | bench/macros/richards.js:416-426 | The last idle run holds the idle task for good. Every other one releases device B for an odd seed and device A for an even one, which runs next, and shifts the seed; nothing else changes. |
| IdleSeeds.XorBits | bench/macros/richards.js:422-424 | Exclusive or, bit by bit. |
| IdleSeeds.NextIsShifted | bench/macros/richards.js:419-424 | The seed is a shift register: every bit moves down by one, and an odd seed flips bits 3, 12, 14 and 15. |
| IdleSeeds.SeedLasts | bench/macros/richards.js:419-424 | It stays a 16-bit word other than zero. |
| IdleSeeds.DueSooner | bench/macros/richards.js:419-424 | A parity that is due within w steps and does not come up now is due within w-1 steps after the next seed. |
| IdleSeeds.AlwaysDue | bench/macros/richards.js:419-424 | From every seed an odd one comes up within 15 steps and an even one within 16. |
| TaskDelivery.WorkerDelivers | bench/macros/richards.js:472-490 | The packet of the worker goes to the end of the queue of the handler that did not get the last one, with the next four letters of the alphabet. |
| TaskDelivery.HandlerCopies | bench/macros/richards.js:507-533 | A handler with a work packet and a device packet copies the next letter of the one onto the other and queues that for its device. |
| TaskDelivery.HandlerReturns | bench/macros/richards.js:507-533 | A work packet all of whose letters are copied is queued for the worker. |
| TaskDelivery.HandlerWaits | bench/macros/richards.js:507-533 | In every other case the handler waits, and only its lists are brought up to date. |
| TaskDelivery.DeviceAccepts | bench/macros/richards.js:443-453 | A device that starts with a packet keeps it in its slot and is held. |
| TaskDelivery.DeviceSends | bench/macros/richards.js:443-453 | A device released with a full slot empties it into the queue of its handler. |
| TaskDelivery.StepUntouched | bench/macros/richards.js:230-240 | No other task touches the slot, the hold or the seed. |
| TaskDelivery.HighestRuns | bench/macros/richards.js:230-240 | A task runs only if each one of higher priority is held, or suspended with nothing queued. |
| TaskDelivery.NothingToRun | bench/macros/richards.js:230-240 | When the loop ends the same is true of all tasks. |
| TaskProgress.AfterRuns | bench/macros/richards.js:230-240 | From the place reached after any number of turns the run goes on to the same end. |
| TaskProgress.AlwaysSeeded | bench/macros/richards.js:416-426 | In every reachable state the seed is a 16-bit word other than zero. |
| TaskProgress.GetsAway | bench/macros/richards.js:230-240 | From a full slot of a device whose release is due within w idle runs the packet is back in the queue of the handler before w idle runs are over. |
| TaskProgress.SlotsEmpty | bench/macros/richards.js:230-240 | So 17 idle runs are enough, from every reachable state in which 18 are left. |
| TaskFlow.StepBalance | bench/macros/richards.js:230-240 | Every run of a task keeps 2*queued - 5*(holds of devices), corrected by what the packets in the system are still to cause. |
| TaskCrew.StepHomes | bench/macros/richards.js:230-240 | No run takes a device packet away from its device and the handler of that device. |
| TaskCrew.StepWaits | bench/macros/richards.js:230-240 | After every run a handler that is suspended has no work, or work that lacks a device packet. |
| TaskCrew.StepHeldFull | bench/macros/richards.js:230-240 | Only devices and the idle task are ever held, a device only with a full slot. |
| TaskCrew.NoStarvation | bench/macros/richards.js:230-240 | So whenever only the idle task can run, some device is held with a packet in its slot: the system never gets stuck. |
| TaskThroughput.StepCounted | bench/macros/richards.js:230-240 | No run takes a packet off the counter, and every hold of a device but the present ones was paid for by a run of the idle task. |
| TaskThroughput.KeepsQueueing | bench/macros/richards.js:230-240 | From every reachable state on, a packet is queued for every 17 units of the count. |
| TaskTermination.WorkerLighter | bench/macros/richards.js:472-490 | What a run of the worker does to the termination measure. |
| TaskTermination.HandlerLighter | bench/macros/richards.js:507-533 | A run of a handler lowers the termination measure. |
| TaskTermination.DeviceLighter | bench/macros/richards.js:443-453 | A run of a device lowers it or uses up the packet taken. |
| TaskTermination.StepDecreases | bench/macros/richards.js:230-240 | Every step but one of the idle task lowers the measure; the idle task uses up one unit of its count. |
| TaskTermination.NextTurn | bench/macros/richards.js:230-240 | The loop goes on from every turn with a smaller count or a smaller measure. |
| TaskTermination.RunEnds | bench/macros/richards.js:230-240 | Every run ends, with the count used up, every task held or suspended, and the same packets in existence. |
| Scheduling.CheckPriorityAdd | bench/macros/richards.js:387-396 | On the objects: the packet is linked last, the task becomes runnable if its queue was empty, and runs next if its priority is higher. |
| Scheduling.SuspendCurrent | bench/macros/richards.js:272-275 | The objects follow the step of the system. |
| Scheduling.HoldCurrent | bench/macros/richards.js:262-266 | The objects follow the step, the next task in the list is next, and the hold count grows by one. |
| Scheduling.Release | bench/macros/richards.js:246-255 | The objects follow the step; the released task is next if its priority is higher. |
| Scheduling.QueuePacket | bench/macros/richards.js:283-290 | The objects follow the step and the queue count grows by one. |
| Scheduling.BeginRun | bench/macros/richards.js:366-380 | The objects follow the beginning of a run, and the packet handed over is the first of the queue. |
| Scheduling.RunWorker | bench/macros/richards.js:472-490 | The worker object refines its step, the four letters included. |
| Scheduling.RunHandler | bench/macros/richards.js:507-533 | The handler object refines its step. |
| Scheduling.RunDevice | bench/macros/richards.js:443-453 | The device object refines its step. |
| Scheduling.RunIdle | bench/macros/richards.js:416-426 | The idle object refines its step, whose choice of the device TaskDelivery.IdleReleases states. |
| Scheduling.Schedule | bench/macros/richards.js:230-240 | The loop over linked objects terminates and ends where the system ends. |
| RichardsRun.AddTask | bench/macros/richards.js:221-225 | A task starts suspended, or suspended and runnable if it has packets, at the head of the list. |
| RichardsRun.InitialTurn | bench/macros/richards.js:89-120 | The initial system meets the invariant and strict priority. |
| RichardsRun.PacketsGetAway | bench/macros/richards.js:89-120 | In every state the benchmark reaches with 18 idle runs left, a packet in the slot of a device gets back to its handler within 17 of them. |
| RichardsRun.NeverStuck | bench/macros/richards.js:89-120 | In every state the benchmark reaches in which the idle task runs, a device is held with a packet in its slot. |
| RichardsRun.CountersBounded | bench/macros/richards.js:89-132 | For every idle count: 17*queueCount >= count - 17 and holdCount <= count + 2. |
| RichardsRun.CountersBalance | bench/macros/richards.js:89-132 | For every idle count the two counters at the end are tied to each other by where the packets have come to rest: 2*queueCount == 5*(holdCount - 1) plus at most 3 and at least -2 for each packet. |
| RichardsRun.RunRichards | bench/macros/richards.js:89-132 | From two work packets and three packets for each device in three queues, for every idle count from one up: the run ends with the count used up, no task to run and the same eight packets; 17*queueCount is no less than the count minus 17, holdCount no more than the count plus 2, and 2*queueCount differs from 5*(holdCount - 1) by no more than 16 below and 24 above. |
| OrderedCollections.WithoutCounts | bench/macros/deltablue.js:121-134 | Removal takes every copy of the element and no other element. |
| OrderedCollections.OrderedCollection.Remove | bench/macros/deltablue.js:121-134 | The compacting loop leaves exactly the other elements in their order. |
| OrderedCollections.OrderedCollection.RemoveFirst | bench/macros/deltablue.js:117-119 | Takes the element added last. |
| Constraints.Constraint.Execute | bench/macros/deltablue.js:568-570 | An equality copies its input to its output; stay and edit constraints do nothing. |
| Constraints.Constraint.ChooseMethod | bench/macros/deltablue.js:401-421 | The direction of an equality depends on the walkabout strengths alone: what the marks suggest is always overwritten. A unary constraint is refused for a marked output or one that is not weaker. |
| Constraints.PreferenceDeserved | bench/macros/deltablue.js:401-421 | An equality overrides only what is weaker, at the weaker end, if and only if the first variable is weaker than the second or the equality is stronger than the second. |
| Constraints.PreferenceCounterexample | bench/macros/deltablue.js:401-421 | Otherwise it may not: the weakest equality between two required variables overrides the first. |
| Propagation.UnaryOverrides | bench/macros/deltablue.js:278-283 | A stay or edit constraint overrides one on the same variable exactly if it is stronger. |
| Constraints.Constraint.Recalculate | bench/macros/deltablue.js:465-470 | Flag and strength of the output follow the input, and a constant output is computed. |
| PlanOrder.OutputIsOwn | bench/macros/deltablue.js:217-233 | A variable is the output of one satisfied constraint at most. |
| PlanOrder.ConsumingElements | bench/macros/deltablue.js:783-791 | What is added to the work list is exactly the satisfied constraints of the variable other than the one that determines it. |
| Planning.AddConstraintsConsumingTo | bench/macros/deltablue.js:783-791 | Appends those, in their order. |
| PlanOrder.ExtendOrdered | bench/macros/deltablue.js:693-706 | Adding a ready constraint keeps: no output written twice, no input written after it was read, nothing unjustified. |
| PlanOrder.ExtendPending | bench/macros/deltablue.js:693-706 | Nothing downstream of the plan is missing from the work list. |
| PlanOrder.PlanComplete | bench/macros/deltablue.js:693-706 | At the end everything that reads an output of the plan is in the plan, and so is every source whose input is known. |
| Planning.Planner.MakePlan | bench/macros/deltablue.js:693-706 | Terminates on every dataflow graph, cycles included; the plan is straight-line code, complete, and only as large as the sources require. |
| Planning.Planner.ExtractPlanFromConstraints | bench/macros/deltablue.js:712-721 | The same for the satisfied edit constraints among those given; each of them is in the plan. |
| Planning.Plan.Execute | bench/macros/deltablue.js:818-823 | Only planned outputs change, every planned constraint holds afterwards, and running again changes nothing. |
| PlanOrder.RestIsInsulated | bench/macros/deltablue.js:693-706 | Satisfied constraints outside the plan share no variable with its outputs. |
| PlanOrder.EditIsApart | bench/macros/deltablue.js:712-721 | The variable that is edited is not computed by the plan. |
| Planning.SetAndExecute | bench/macros/deltablue.js:907-917 | Moving an edited variable and running the plan makes every satisfied constraint hold, if those outside the plan did. |
| PlanOrder.ChainRuns | bench/macros/deltablue.js:842-868 | A chain of equalities below an output of the plan carries its value to the end. |
| Planning.EditChain | bench/macros/deltablue.js:859-867 | Over a chain of any length that flows from the edit the check of the loop never fails. |
| Propagation.ReachQueue | bench/macros/deltablue.js:736-749 | The work list never holds a constraint twice, nor one whose output was already reached. |
| Propagation.ReachTree | bench/macros/deltablue.js:736-749 | The variables reached form a tree below the output of the constraint. |
| Propagation.OnlyReadersUpset | bench/macros/deltablue.js:736-749 | Recalculating a constraint can upset only the constraints that read its output. |
| Solving.AddPropagate | bench/macros/deltablue.js:736-749 | Terminates; when it succeeds every flag, every strength and every constant value in the graph is right again, and nothing outside the tree has changed; it fails only where it meets a marked variable. |
| Constraints.RequiredNeverRefuses | bench/macros/deltablue.js:401-421 | A required equality always finds a way, whatever the strengths and marks. |
| Solving.Satisfy | bench/macros/deltablue.js:217-233 | Nothing is done exactly if the constraint finds no way. Otherwise what determined its output is unsatisfied, and the graph is stable again unless a cycle was met; success marks an output that had no mark. |
| Solving.Round | bench/macros/deltablue.js:633-638 | One round of the loop below: it marks one more variable, what the pass has enforced stays enforced, and along a chain it moves one link on. |
| Solving.IncrementalAdd | bench/macros/deltablue.js:633-638 | Terminates. Unless a cycle is met the graph is stable, nothing is left to satisfy, and the satisfied constraints are those of before and the new one, less at most one; that one is never a required equality, and it is the new one exactly if the new one finds no way. |
| Chains.FlowsAway | bench/macros/deltablue.js:633-638 | While a chain of required equalities is turned, the marked part flows away from where the turning began, with the strength that began it. |
| Chains.FlowsBack | bench/macros/deltablue.js:633-638 | The rest still flows toward it, with the strength of the other end. |
| Chains.NextChoice | bench/macros/deltablue.js:401-421 | So the next link is enforced away from the beginning and overrides the one after it. |
| Chains.NextEnclosed | bench/macros/deltablue.js:736-749 | Nothing flows out of the variable it takes over, so no cycle is met. |
| Solving.AddToGraph | bench/macros/deltablue.js:426-430 | A new constraint is listed by exactly its variables and the graph stays stable. |
| Solving.AddConstraint | bench/macros/deltablue.js:205-208 | The same for a constraint that is new to the graph. |
| Solving.RemoveFromGraph | bench/macros/deltablue.js:484-488 | What is left after a constraint was taken out is stable. |
| Solving.NewVariable | bench/macros/deltablue.js:582-590 | A new variable keeps the graph stable. |
| Propagation.NothingIsStable | bench/macros/deltablue.js:615-617 | The empty graph is stable. |
| ChainTesting.LinkPoised | bench/macros/deltablue.js:846-851 | A new variable and an equality to the last one extend a chain without meeting a cycle. |
| ChainTesting.StayPoised | bench/macros/deltablue.js:857 | A stay constraint at the end turns the whole chain back to its free beginning. |
| ChainTesting.EditPoised | bench/macros/deltablue.js:858 | A stronger edit at the beginning turns it forward again, as far as the stay constraint. |
| ChainTesting.BuildChain | bench/macros/deltablue.js:843-855 | The loop over the constructors builds a chain of n satisfied required equalities whose first variable is free, for every n. |
| ChainTesting.Steer | bench/macros/deltablue.js:858 | After the edit was added every equality of the chain is satisfied and flows from the first variable to the last. |
| ChainTesting.ChainTest | bench/macros/deltablue.js:842-868 | From an empty planner and for every n the benchmark never fails. |
| Solving.Drive | bench/macros/deltablue.js:912-915 | An edit through a plan keeps the graph stable, and all satisfied constraints hold again if they held before. |
| Solving.Change | bench/macros/deltablue.js:907-917 | The same for extracting the plan and driving it ten times. |
| JsonValues.SameExactly | tools/wpt/run.py:308-348 | Equality of JSON values is that of Python: numbers and truth values by value, the rest by kind and parts. |
| Protocol.NextRecord | tools/wpt/run.py:111-138 | One more record extends the results, or completes them, or is refused. |
| Protocol.RefusedForGood | tools/wpt/run.py:120-138 | Once a record is refused no later one makes the output acceptable. |
| Protocol.RecordsExactly | tools/wpt/run.py:111-138 | What the two kinds of records are, entry by entry. |
| Supervisor.ReadRecord | tools/wpt/run.py:110-138 | A record is refused exactly when no acceptable output starts this way. |
| Supervisor.ReadRecords | tools/wpt/run.py:104-138 | Reading stops with an error exactly for outputs that are not results followed by one completion; otherwise it collects exactly these. |
| Supervisor.ParseOutput | tools/wpt/run.py:102-154 | "pass" exactly with a completion, at least one subtest, only passing subtests, nothing else and a clean exit; each other word exactly in its own case. |
| Supervisor.ExecuteCommand | tools/wpt/run.py:157-181 | A timeout, a failed start or too much output is never a pass. |
| Protocol.PresentableIsValid | tools/wpt/run.py:153-154 | Every outcome so produced is valid in a report. |
| Gate.ValidateSubtests | tools/wpt/run.py:297-303 | Accepts exactly differently named subtests with known statuses. |
| Gate.ValidateReport | tools/wpt/run.py:279-305 | Accepts exactly the valid reports. |
| Reports.ValidExactly | tools/wpt/run.py:279-305 | What a valid report is, entry by entry. |
| Reports.ResultExactly | tools/wpt/run.py:284-305 | What a valid result is, entry by entry. |
| Regressions.FixtureCleanIffKept | tools/wpt/run.py:321-347 | Nothing is reported of a fixture exactly when it is at least as good as before. |
| Regressions.CleanIffNoWorse | tools/wpt/run.py:308-348 | A comparison reports nothing exactly when setting and fixtures are the same and no status got worse. |
| Silence.SilentExactly | tools/wpt/run.py:308-348 | On the JSON as read: a comparison of valid reports reports nothing exactly if revision, manifest, configuration and adapter are equal, each result has its counterpart of the same id both ways, no status got worse, each error that stayed has an equal exit status and an equal harness status, and the subtests are the same and none got worse. |
| Improvement.HarnessReads | tools/wpt/run.py:332-333 | What is read of a harness: its status entry if it is an object, null for a missing or empty one, and nothing otherwise. |
| Improvement.EqualDetailSame | tools/wpt/run.py:329-335 | Details found equal are equal in the JSON as read. |
| Improvement.SameDetailEqual | tools/wpt/run.py:329-335 | And the other way round. |
| Gate.CompareStatus | tools/wpt/run.py:323-328 | The complaint about the status word, if any. |
| Gate.CompareDetail | tools/wpt/run.py:329-335 | The complaints about exit status and harness status of an error that stayed, which Improvement relates to the entries read. |
| Gate.CompareTests | tools/wpt/run.py:336-347 | Exactly the complaints about the subtests. |
| Gate.CompareBaseline | tools/wpt/run.py:308-348 | Rejects invalid reports, stops at an unreadable harness, and otherwise returns exactly the regressions; the list is empty if and only if nothing got worse, in the sense of Silence.SilentExactly. |
| Gate.PartsAreAll | tools/wpt/run.py:308-348 | The parts of the comparison together report exactly what the summaries say. |
| Regressions.NoWorseReflexive | tools/wpt/run.py:308-348 | A report is no worse than itself. |
| Regressions.NoWorseTransitive | tools/wpt/run.py:308-348 | No worse than what is no worse is no worse. |
| Regressions.ComparableTransitive | tools/wpt/run.py:329-335 | Along two such steps that can be read, the comparison of the ends can be read. |
| Gate.SilenceComposes | tools/wpt/run.py:308-348 | Empty comparisons of valid reports compose. |
| Regressions.NoWorseAntisymmetric | tools/wpt/run.py:308-348 | Empty comparisons both ways force the same fixtures, statuses and subtest statuses, and for errors the same detail. |
| Regressions.NoWorseKeepsPassing | tools/wpt/run.py:308-348 | A subtest that passed still passes. |
| Gate.SelfComparison | tools/wpt/run.py:308-348 | A valid report compares cleanly with itself if and only if the harness of each fixture in error can be read. |
| Gate.UnreadableHarness | tools/wpt/run.py:332-333 | A concrete valid report whose comparison with itself stops. |

## Left out

- The engine itself (lexer, compiler, garbage collector, machine code, WebAssembly): its source is not part of this
  model.
- Multi-precision: `am1`, `am2` and `am4`, general radix conversion, the constructors from random numbers, key
  generation, bitwise operations, `pow` and the null reducer, the conversions to small integers, and the parsing of
  key fields.
- fromInt below -1 uses an undeclared name (bench/macros/crypto.js:250), so the model asks for x >= -1;
  BigIntegers.Nbv likewise.
- The shared constants ZERO and ONE are fresh numbers here; the source never changes them.
- JavaScript array holes are unspecified digits: the model promises nothing of a digit that was never written. The
  negative array names written for a negative digit shift in the conversion of zero are lost, as nothing reads them.
- Floating point in the quotient estimate is exact rational arithmetic here, with the slack term e kept.
- Division.DivRemTo: the test for a leading zero digit of the divisor is left out, because it cannot succeed for a
  canonical divisor.
- GcdInverse.ModInverse: asks for x > 0, because the source loops forever on zero.
- Exponentiation.ModPow: asks for fewer than 2^28 - 2 digits in the modulus, which the Barrett reduction needs for its
  carries.
- BarrettReduction.Mod: asks for a modulus other than zero, for which the source goes on with a number that has no
  length.
- BarrettReduction.MultiplyUpperTo: asks for a second factor of at most n digits, because the source reads digits at
  negative places for a longer one, and for n at most one more than the digits of the first, as Barrett reduction
  calls it.
- Text.FromString: asks for digit characters below the base; for others the source lets bits of neighbouring digits
  overlap.
- Padding.Pkcs1Pad2: the random pad bytes are a parameter, namely the non-zero bytes drawn.
- Splay keys are real numbers, so there is no NaN; a thrown error is the result None; payload trees and statistics are
  left out.
- RichardsRun.RunRichards: the fixed counts 2322 and 928 of the benchmark are not claimed; they are one test of one
  run. What ties the two to each other, and bounds for both, are proved for every count.
- Scheduling.RunCurrent: tasks get the scheduler as a parameter where the source stores it; the state word is a record
  of its three bits, and exclusive or is on natural numbers. Looking up a missing task cannot happen with six tasks
  and is left out.
- Solving.AddPropagate: the removal of the constraint when a mark is met is left out, and so is, for Solving.Satisfy,
  Solving.IncrementalAdd and Solving.AddConstraint, what follows a cycle: the removal can satisfy the overridden
  constraint, which the caller then tries to satisfy once more.
- Solving.Satisfy: the same, and the alert for a required constraint is the outcome Unsatisfiable.
- Solving.Change: ends before the edit constraint is destroyed again.
- Retracting a satisfied constraint with `incrementalRemove` and `removePropagateFrom` is left out: an unsatisfied
  constraint between two variables downstream is collected twice and the second attempt starts from a satisfied one,
  which `satisfy` does not allow for, and `nextWeaker` jumps from the strongest strength to the weakest, so that only
  required constraints are tried again.
- Scale constraints are left out: `inputsKnown` ignores two of their inputs, so plans with them have no such
  guarantee.
- Planning.Planner.MakePlan: asks for sources whose output is not stay, as edit constraints are; the source asks only
  that they are satisfied.
- Gate.CompareBaseline: the order of the complaints and their wording are not modelled, nor are corpus loading,
  hashing, processes and files.
- JSON numbers are integers or real numbers, so there is no NaN.
- Supervisor.ParseOutput: splitting the output into lines and parsing JSON come before the model; message texts are
  left out.
- `bench/macros/navier-stokes.js` and `bench/macros/raytrace.js` have no exact specification and are left out.
