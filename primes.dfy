/** Prime utilities: trial-division primality, prime listing, factorisation
    and the least common multiple of a list. */
module Primes {
  import opened NumberTheory
  import opened Results

  /** No integer in [k, n) divides n. */
  predicate NoDivisorFrom(n: int, k: int)
    requires k >= 2
    decreases n - k
  {
    k >= n || (n % k != 0 && NoDivisorFrom(n, k + 1))
  }

  /** The source's notion of primality: no integer in [2, n) divides n.
      It holds of 0, 1 and every negative number too. */
  predicate IsPrime(n: int)
  {
    NoDivisorFrom(n, 2)
  }

  lemma {:induction false} NoDivisorFromMeaning(n: int, k: int)
    requires k >= 2
    ensures NoDivisorFrom(n, k) <==> forall j :: k <= j < n ==> n % j != 0
    decreases n - k
  {
    if k < n {
      NoDivisorFromMeaning(n, k + 1);
    }
  }

  lemma IsPrimeMeaning(n: int)
    ensures IsPrime(n) <==> forall j :: 2 <= j < n ==> n % j != 0
  {
    NoDivisorFromMeaning(n, 2);
  }

  /** is_prime: trial division with an early exit at the first divisor. */
  method CheckPrime(n: int) returns (r: bool)
    ensures r <==> forall j :: 2 <= j < n ==> n % j != 0
    ensures r == IsPrime(n)
  {
    IsPrimeMeaning(n);
    var factor := 2;
    while factor < n
      invariant factor >= 2
      invariant forall j :: 2 <= j < factor ==> n % j != 0
    {
      if n % factor == 0 {
        return false;
      }
      factor := factor + 1;
    }
    return true;
  }

  /** A number with a divisor in [2, n) is not prime. */
  lemma NotPrime(n: int, j: int)
    requires 2 <= j < n && n % j == 0
    ensures !IsPrime(n)
  {
    IsPrimeMeaning(n);
  }

  /** Below 49 a number is prime when 2, 3 and 5 do not divide it. */
  lemma PrimeBelowFortyNine(n: int)
    requires 2 <= n < 49 && n % 2 != 0 && n % 3 != 0 && n % 5 != 0
    ensures IsPrime(n)
  {
    forall j | 2 <= j < 7
      ensures n % j != 0
    {
      if j == 4 && n % 4 == 0 {
        DividesTransitive(2, 4, n);
      } else if j == 6 && n % 6 == 0 {
        DividesTransitive(2, 6, n);
      }
    }
    PrimeBySqrt(n, 7);
  }

  /** Trial division up to the square root suffices: a number with no divisor
      in [2, k), where k * k exceeds it, has no divisor in [2, n) at all. */
  lemma PrimeBySqrt(n: int, k: int)
    requires n >= 2 && k >= 2 && k * k > n
    requires forall j :: 2 <= j < k ==> n % j != 0
    ensures IsPrime(n)
  {
    IsPrimeMeaning(n);
    forall j | 2 <= j < n
      ensures n % j != 0
    {
      if n % j == 0 && j >= k {
        Cofactor(n, k, j);
      }
    }
  }

  /** A divisor of n at or above k, where k * k > n, leaves a cofactor
      that divides n and lies in [2, k). */
  lemma Cofactor(n: int, k: int, j: int)
    requires n >= 2 && k >= 2 && k * k > n && k <= j < n && n % j == 0
    ensures 2 <= n / j < k && n % (n / j) == 0
  {
    var e := n / j;
    assert n == j * e;
    assert e >= 2 by {
      if e <= 1 {
        MulMonotone(0, j, e, 1);
      }
    }
    MulComm(j, e);
    MulModZero(e, j);
    if e >= k {
      MulMonotone(k, j, k, e);
    }
  }

  lemma IsPrimeExamples()
    ensures IsPrime(31) && !IsPrime(42)
    ensures IsPrime(0) && IsPrime(1)
  {
    assert forall j :: 2 <= j < 6 ==> 31 % j != 0 by {
      forall j | 2 <= j < 6
        ensures 31 % j != 0
      {
        if j == 2 { } else if j == 3 { } else if j == 4 { } else { assert j == 5; }
      }
    }
    PrimeBySqrt(31, 6);
  }

  predicate StrictlyIncreasing(s: seq<int>)
  {
    forall i, j :: 0 <= i < j < |s| ==> s[i] < s[j]
  }

  /** generate_primes: the n in [2, limit] with IsPrime(n), kept in order. */
  function GeneratePrimes(limit: int): seq<int>
    decreases limit
  {
    if limit < 2 then []
    else GeneratePrimes(limit - 1) + (if IsPrime(limit) then [limit] else [])
  }

  /** generate_primes is ascending and holds exactly the n in [2, limit] with IsPrime(n). */
  lemma {:induction false} GeneratePrimesCorrect(limit: int)
    ensures StrictlyIncreasing(GeneratePrimes(limit))
    ensures forall n :: n in GeneratePrimes(limit) <==> 2 <= n <= limit && IsPrime(n)
    decreases limit
  {
    if limit >= 2 {
      GeneratePrimesCorrect(limit - 1);
      var r := GeneratePrimes(limit - 1);
      forall i | 0 <= i < |r|
        ensures r[i] < limit
      {
        assert r[i] in r;
      }
      var s := r + (if IsPrime(limit) then [limit] else []);
      assert StrictlyIncreasing(s);
      forall n
        ensures n in s <==> 2 <= n <= limit && IsPrime(n)
      {
        assert n in s <==> n in r || (n == limit && IsPrime(limit));
      }
    }
  }

  lemma GeneratePrimesUpTo10()
    ensures GeneratePrimes(5) == [2, 3, 5]
    ensures GeneratePrimes(7) == [2, 3, 5, 7]
    ensures GeneratePrimes(10) == [2, 3, 5, 7]
  {
    PrimeBySqrt(5, 3);
    PrimeBySqrt(7, 3);
    assert GeneratePrimes(2) == [2];
    assert GeneratePrimes(3) == [2, 3];
    assert !IsPrime(4);
    assert GeneratePrimes(4) == [2, 3];
    assert GeneratePrimes(5) == [2, 3, 5];
    assert !IsPrime(6);
    assert GeneratePrimes(6) == [2, 3, 5];
    assert GeneratePrimes(7) == [2, 3, 5, 7];
    assert !IsPrime(8);
    assert GeneratePrimes(8) == [2, 3, 5, 7];
    assert !IsPrime(9);
    assert GeneratePrimes(9) == [2, 3, 5, 7];
    assert !IsPrime(10);
  }

  /** The least divisor of n that is at least k. */
  function SmallestDivisor(n: int, k: int): (r: int)
    requires 2 <= k <= n
    ensures k <= r <= n && n % r == 0
    ensures forall j :: k <= j < r ==> n % j != 0
    decreases n - k
  {
    if n % k == 0 then k
    else
      assert k < n by { MulModZero(n, 1); }
      SmallestDivisor(n, k + 1)
  }

  lemma {:induction false} SmallestDivisorIs(n: int, k: int, p: int)
    requires 2 <= k <= p <= n && n % p == 0
    requires forall j :: k <= j < p ==> n % j != 0
    ensures SmallestDivisor(n, k) == p
    decreases p - k
  {
    if k < p {
      SmallestDivisorIs(n, k + 1, p);
    }
  }

  /** A divisor of a divisor of n divides n. */
  lemma DividesTransitive(j: int, m: int, n: int)
    requires j > 0 && m > 0 && m % j == 0 && n % m == 0
    ensures n % j == 0
  {
    var a, b := m / j, n / m;
    assert m == j * a && n == m * b;
    assert n == j * (a * b);
    MulModZero(j, a * b);
  }

  lemma SmallestDivisorPrime(n: int)
    requires n >= 2
    ensures IsPrime(SmallestDivisor(n, 2))
  {
    var p := SmallestDivisor(n, 2);
    IsPrimeMeaning(p);
    forall j | 2 <= j < p
      ensures p % j != 0
    {
      if p % j == 0 {
        DividesTransitive(j, p, n);
      }
    }
  }

  lemma QuotientBelow(n: int, p: int)
    requires n >= 2 && p >= 2 && n % p == 0
    ensures 1 <= n / p < n
  {
    var q := n / p;
    assert n == p * q;
    if q < 1 {
      MulNonneg(p, -q);
    }
    MulMonotone(2, p, q, q);
  }

  /** The factorisation by repeated smallest divisors: a reference definition
      of what trial division computes. */
  function Factorization(n: int): seq<int>
    decreases n
  {
    if n <= 1 then []
    else
      var p := SmallestDivisor(n, 2);
      QuotientBelow(n, p);
      [p] + Factorization(n / p)
  }

  function Product(s: seq<int>): int
  {
    if s == [] then 1 else s[0] * Product(s[1..])
  }

  predicate NonDecreasing(s: seq<int>)
  {
    forall i, j :: 0 <= i < j < |s| ==> s[i] <= s[j]
  }

  lemma {:induction false} FactorizationAtLeast(n: int, k: int)
    requires n >= 1 && k >= 2
    requires forall j :: 2 <= j < k ==> n % j != 0
    ensures forall i :: 0 <= i < |Factorization(n)| ==> Factorization(n)[i] >= k
    decreases n
  {
    if n > 1 {
      var p := SmallestDivisor(n, 2);
      QuotientBelow(n, p);
      var m := n / p;
      forall j | 2 <= j < k
        ensures m % j != 0
      {
        if m % j == 0 {
          ModZeroQuotient(n, p);
          assert n == m * p;
          MulModZero(m, p);
          DividesTransitive(j, m, n);
        }
      }
      FactorizationAtLeast(m, k);
    }
  }

  /** Factorization(n) lists primes, in non-decreasing order, whose product is n. */
  lemma {:induction false} FactorizationCorrect(n: int)
    ensures n <= 1 ==> Factorization(n) == []
    ensures n >= 1 ==> Product(Factorization(n)) == n
    ensures NonDecreasing(Factorization(n))
    ensures forall i :: 0 <= i < |Factorization(n)| ==>
      Factorization(n)[i] >= 2 && IsPrime(Factorization(n)[i])
    decreases n
  {
    if n > 1 {
      var p := SmallestDivisor(n, 2);
      QuotientBelow(n, p);
      var m := n / p;
      FactorizationCorrect(m);
      SmallestDivisorPrime(n);
      forall j | 2 <= j < p
        ensures m % j != 0
      {
        if m % j == 0 {
          ModZeroQuotient(n, p);
          assert n == m * p;
          MulModZero(m, p);
          DividesTransitive(j, m, n);
        }
      }
      FactorizationAtLeast(m, p);
      ModZeroQuotient(n, p);
    }
  }

  /** One division step of trial division: factor is the smallest divisor of
      number, and the quotient keeps having no divisor below factor. */
  lemma DivideOut(number: int, factor: int)
    requires 2 <= factor && factor * factor <= number && number % factor == 0
    requires forall j :: 2 <= j < factor ==> number % j != 0
    ensures 1 <= number / factor < number
    ensures Factorization(number) == [factor] + Factorization(number / factor)
    ensures number / factor >= 2 ==>
      forall j :: 2 <= j < factor ==> (number / factor) % j != 0
  {
    MulMonotone(2, factor, 1, factor);
    SmallestDivisorIs(number, 2, factor);
    QuotientBelow(number, factor);
    var m := number / factor;
    forall j | 2 <= j < factor
      ensures m % j != 0
    {
      if m % j == 0 {
        ModZeroQuotient(number, factor);
        assert number == m * factor;
        MulModZero(m, factor);
        DividesTransitive(j, m, number);
      }
    }
  }

  /** What is left once factor * factor exceeds it is a prime factor. */
  lemma Leftover(number: int, factor: int)
    requires 2 <= factor && factor * factor > number && number >= 2
    requires forall j :: 2 <= j < factor ==> number % j != 0
    ensures Factorization(number) == [number]
  {
    PrimeBySqrt(number, factor);
    IsPrimeMeaning(number);
    MulModZero(number, 1);
    SmallestDivisorIs(number, 2, number);
  }

  /** What trial division keeps true: the factors found so far followed by
      the factorisation of what is left make up the factorisation of n, and
      what is left has no divisor below the current candidate. */
  predicate TrialInvariant(n: int, factors: seq<int>, number: int, factor: int)
  {
    factor >= 2 && factors + Factorization(number) == Factorization(n) &&
    (n <= 1 ==> number == n) && (n >= 1 ==> number >= 1) &&
    (number >= 2 ==> forall j :: 2 <= j < factor ==> number % j != 0)
  }

  /** A candidate that does not divide is passed over. */
  lemma TrialSkip(n: int, factors: seq<int>, number: int, factor: int)
    requires TrialInvariant(n, factors, number, factor)
    requires factor * factor <= number && number % factor != 0
    ensures TrialInvariant(n, factors, number, factor + 1)
    ensures number - factor >= 0
  {
    MulMonotone(1, factor, 1, factor);
  }

  /** A candidate that divides is a factor and is divided out. */
  lemma TrialDivide(n: int, factors: seq<int>, number: int, factor: int)
    requires TrialInvariant(n, factors, number, factor)
    requires factor * factor <= number && number % factor == 0
    ensures TrialInvariant(n, factors + [factor], number / factor, factor)
    ensures number / factor < number && number - factor >= 0
  {
    MulMonotone(2, factor, 1, factor);
    DivideOut(number, factor);
    assert (factors + [factor]) + Factorization(number / factor) == factors + Factorization(number);
  }

  /** Once factor * factor exceeds what is left, that is the last factor. */
  lemma TrialDone(n: int, factors: seq<int>, number: int, factor: int)
    requires TrialInvariant(n, factors, number, factor)
    requires factor * factor > number
    ensures (if number > 1 then factors + [number] else factors) == Factorization(n)
  {
    if number > 1 {
      Leftover(number, factor);
    }
  }

  /** prime_factors: trial division from 2, dividing out each factor found and
      keeping what is left once factor * factor exceeds it. */
  method PrimeFactors(n: int) returns (factors: seq<int>)
    ensures factors == Factorization(n)
    ensures n <= 1 ==> factors == []
    ensures n >= 1 ==> Product(factors) == n
    ensures NonDecreasing(factors)
    ensures forall i :: 0 <= i < |factors| ==> factors[i] >= 2 && IsPrime(factors[i])
  {
    var factor := 2;
    var number := n;
    factors := [];
    while factor * factor <= number
      invariant TrialInvariant(n, factors, number, factor)
      decreases number - factor
    {
      if number % factor != 0 {
        TrialSkip(n, factors, number, factor);
        factor := factor + 1;
      } else {
        TrialDivide(n, factors, number, factor);
        factors := factors + [factor];
        number := number / factor;
      }
    }
    TrialDone(n, factors, number, factor);
    if number > 1 {
      factors := factors + [number];
    }
    FactorsProperties(n, factors);
  }

  lemma FactorsProperties(n: int, factors: seq<int>)
    requires factors == Factorization(n)
    ensures n <= 1 ==> factors == []
    ensures n >= 1 ==> Product(factors) == n
    ensures NonDecreasing(factors)
    ensures forall i :: 0 <= i < |factors| ==> factors[i] >= 2 && IsPrime(factors[i])
  {
    FactorizationCorrect(n);
  }

  lemma PrimeFactorsExamples()
    ensures Factorization(31) == [31]
    ensures Factorization(314) == [2, 157]
    ensures Factorization(1) == []
  {
    IsPrimeExamples();
    FactorizationOfPrime(31);
    PrimeOneFiftySeven();
    FactorizationOfPrime(157);
    FactorizationDouble(157);
  }

  /** A prime is its own factorisation. */
  lemma FactorizationOfPrime(p: int)
    requires p >= 2 && IsPrime(p)
    ensures Factorization(p) == [p]
  {
    IsPrimeMeaning(p);
    MulModZero(p, 1);
    SmallestDivisorIs(p, 2, p);
  }

  lemma PrimeOneFiftySeven()
    ensures IsPrime(157)
  {
    assert forall j :: 2 <= j < 13 ==> 157 % j != 0 by {
      forall j | 2 <= j < 13
        ensures 157 % j != 0
      {
        if j == 2 {} else if j == 3 {} else if j == 4 {} else if j == 5 {}
        else if j == 6 {} else if j == 7 {} else if j == 8 {} else if j == 9 {}
        else if j == 10 {} else if j == 11 {} else { assert j == 12; }
      }
    }
    PrimeBySqrt(157, 13);
  }

  /** The smallest divisor p of n comes first in its factorisation. */
  lemma FactorizationStep(n: int, p: int)
    requires 2 <= p <= n && n % p == 0
    requires forall j :: 2 <= j < p ==> n % j != 0
    ensures Factorization(n) == [p] + Factorization(n / p)
  {
    SmallestDivisorIs(n, 2, p);
  }

  /** Doubling a number prepends one factor 2. */
  lemma FactorizationDouble(n: int)
    requires n >= 1
    ensures Factorization(2 * n) == [2] + Factorization(n)
  {
    MulModZero(2, n);
    SmallestDivisorIs(2 * n, 2, 2);
  }

  lemma FactorizationExamples()
    ensures Factorization(64) == [2, 2, 2, 2, 2, 2]
    ensures Factorization(49) == [7, 7]
  {
    FactorizationOf49();
    FactorizationOfPow2(6);
    assert Pow2(6) == 64;
  }

  /** The factorisation of 2^k is k factors 2. */
  lemma {:induction false} FactorizationOfPow2(k: nat)
    ensures Factorization(Pow2(k)) == seq(k, _ => 2)
  {
    if k > 0 {
      FactorizationOfPow2(k - 1);
      FactorizationDouble(Pow2(k - 1));
      assert seq(k, _ => 2) == [2] + seq(k - 1, _ => 2);
    }
  }

  lemma FactorizationOf49()
    ensures Factorization(49) == [7, 7]
  {
    SmallestDivisorIs(7, 2, 7);
    assert Factorization(7) == [7] + Factorization(1);
    SmallestDivisorIs(49, 2, 7);
    assert Factorization(49) == [7] + Factorization(7);
  }

  function Abs(x: int): nat
  {
    if x < 0 then -x else x
  }

  /** One step of the reduction: x * y // gcd(x, y); gcd(0, 0) is 0 and the
      floor division by it raises. */
  function LcmStep(x: int, y: int): Result<int>
  {
    var g := Gcd(Abs(x), Abs(y));
    if g == 0 then Err(ZeroDivisionError) else Ok((x * y) / g)
  }

  function LcmFrom(acc: int, rest: seq<int>): Result<int>
    decreases |rest|
  {
    if rest == [] then Ok(acc)
    else
      match LcmStep(acc, rest[0])
      case Err(e) => Err(e)
      case Ok(v) => LcmFrom(v, rest[1..])
  }

  /** lcm: a left fold of LcmStep; reducing an empty list raises TypeError. */
  function Lcm(numbers: seq<int>): Result<int>
  {
    if numbers == [] then Err(TypeError) else LcmFrom(numbers[0], numbers[1..])
  }

  lemma GcdCommutative(a: nat, b: nat)
    ensures Gcd(a, b) == Gcd(b, a)
  {
    GcdDividesBoth(a, b);
    GcdDividesBoth(b, a);
    if Gcd(a, b) > 0 {
      GcdGreatest(a, b, Gcd(b, a));
      GcdGreatest(b, a, Gcd(a, b));
      DividesAntisymmetric(Gcd(a, b), Gcd(b, a));
    }
  }

  /** With x == g * a and y == g * b: x * y // g == x * b == a * y. */
  lemma CommonFactorQuotient(g: int, a: int, b: int)
    requires g > 0
    ensures ((g * a) * (g * b)) / g == (g * a) * b
    ensures (g * a) * b == a * (g * b)
  {
    MulAssoc(g, a, g * b);
    MulAssoc(a, g, b);
    MulComm(a, g);
    MulAssoc(g, a, b);
    MulModZero(g, a * (g * b));
  }

  lemma LcmStepValue(x: int, y: int)
    requires x >= 1 && y >= 1
    ensures Gcd(x, y) > 0 && x % Gcd(x, y) == 0 && y % Gcd(x, y) == 0
    ensures LcmStep(x, y) == Ok(x * (y / Gcd(x, y)))
    ensures x * (y / Gcd(x, y)) == (x / Gcd(x, y)) * y
  {
    ReduceCoprime(x, y);
    var g := Gcd(x, y);
    var x', y' := x / g, y / g;
    ModZeroQuotient(x, g);
    ModZeroQuotient(y, g);
    CommonFactorQuotient(g, x', y');
    assert LcmStep(x, y) == Ok((x * y) / g);
  }

  /** x * y // gcd(x, y) is a positive common multiple of x and y. */
  lemma LcmStepMultiple(x: int, y: int)
    requires x >= 1 && y >= 1
    ensures LcmStep(x, y).Ok? && LcmStep(x, y).value >= 1
    ensures LcmStep(x, y).value % x == 0 && LcmStep(x, y).value % y == 0
  {
    LcmStepValue(x, y);
    var g := Gcd(x, y);
    QuotientPositive(x, g);
    QuotientPositive(y, g);
    MulMonotone(1, x, 1, y / g);
    MulModZero(x, y / g);
    MulModZero(y, x / g);
    MulComm(x / g, y);
  }

  /** With x == g * a, y == g * b and a, b coprime, a common multiple m of x
      and y is a multiple of x * b. */
  lemma CoprimeCommonMultiple(g: nat, a: nat, b: nat, m: nat)
    requires g > 0 && a > 0 && b > 0 && Gcd(b, a) == 1
    requires m % (g * a) == 0 && m % (g * b) == 0
    ensures m % ((g * a) * b) == 0
  {
    MulMonotone(1, g, 1, a);
    MulMonotone(1, g, 1, b);
    ModZeroQuotient(m, g * a);
    ModZeroQuotient(m, g * b);
    var s, t := m / (g * a), m / (g * b);
    MulAssoc(g, a, s);
    MulAssoc(g, b, t);
    MulCancel(g, a * s, b * t);
    MulModZero(b, t);
    EuclidLemma(b, a, s);
    ModZeroQuotient(s, b);
    var u := s / b;
    MulAssoc(g * a, b, u);
    MulMonotone(1, g * a, 1, b);
    MulModZero((g * a) * b, u);
  }

  /** x * y // gcd(x, y) divides every common multiple m of x and y. */
  lemma LcmStepLeast(x: int, y: int, m: nat)
    requires x >= 1 && y >= 1 && m % x == 0 && m % y == 0
    ensures LcmStep(x, y).Ok? && LcmStep(x, y).value >= 1
    ensures m % LcmStep(x, y).value == 0
  {
    LcmStepValue(x, y);
    LcmStepMultiple(x, y);
    ReduceCoprime(x, y);
    var g := Gcd(x, y);
    var x', y' := x / g, y / g;
    QuotientPositive(x, g);
    QuotientPositive(y, g);
    ModZeroQuotient(x, g);
    ModZeroQuotient(y, g);
    GcdCommutative(x', y');
    CoprimeCommonMultiple(g, x', y', m);
  }

  lemma {:induction false} LcmFromCorrect(acc: int, rest: seq<int>, m: nat)
    requires acc >= 1 && forall i :: 0 <= i < |rest| ==> rest[i] >= 1
    ensures LcmFrom(acc, rest).Ok? && LcmFrom(acc, rest).value >= 1
    ensures LcmFrom(acc, rest).value % acc == 0
    ensures forall i :: 0 <= i < |rest| ==> LcmFrom(acc, rest).value % rest[i] == 0
    ensures m % acc == 0 && (forall i :: 0 <= i < |rest| ==> m % rest[i] == 0) ==>
      m % LcmFrom(acc, rest).value == 0
    decreases |rest|
  {
    if rest != [] {
      LcmStepMultiple(acc, rest[0]);
      var v := LcmStep(acc, rest[0]).value;
      LcmFromCorrect(v, rest[1..], m);
      var l := LcmFrom(v, rest[1..]).value;
      assert l == LcmFrom(acc, rest).value;
      DividesTransitive(acc, v, l);
      DividesTransitive(rest[0], v, l);
      forall i | 0 <= i < |rest|
        ensures l % rest[i] == 0
      {
        if i > 0 {
          assert rest[i] == rest[1..][i - 1];
        }
      }
      if m % acc == 0 && (forall i :: 0 <= i < |rest| ==> m % rest[i] == 0) {
        LcmStepLeast(acc, rest[0], m);
        assert forall i :: 0 <= i < |rest[1..]| ==> m % rest[1..][i] == 0 by {
          forall i | 0 <= i < |rest[1..]|
            ensures m % rest[1..][i] == 0
          {
            assert rest[1..][i] == rest[i + 1];
          }
        }
      }
    }
  }

  /** The lcm of a non-empty list of positive integers is a positive multiple of
      every element and divides every common multiple m. */
  lemma LcmCorrect(numbers: seq<int>, m: nat)
    requires |numbers| >= 1 && forall i :: 0 <= i < |numbers| ==> numbers[i] >= 1
    ensures Lcm(numbers).Ok? && Lcm(numbers).value >= 1
    ensures forall i :: 0 <= i < |numbers| ==> Lcm(numbers).value % numbers[i] == 0
    ensures (forall i :: 0 <= i < |numbers| ==> m % numbers[i] == 0) ==>
      m % Lcm(numbers).value == 0
  {
    var rest := numbers[1..];
    assert forall i :: 0 <= i < |rest| ==> rest[i] == numbers[i + 1];
    LcmFromCorrect(numbers[0], rest, m);
    var l := Lcm(numbers).value;
    forall i | 0 <= i < |numbers|
      ensures l % numbers[i] == 0
    {
      if i > 0 {
        assert numbers[i] == rest[i - 1];
      }
    }
  }

  lemma LcmExamples()
    ensures Lcm([15, 3, 5]) == Ok(15)
    ensures Lcm([21, 6, 7]) == Ok(42)
    ensures Lcm([]) == Err(TypeError)
  {
    assert Gcd(15, 3) == 3;
    assert Gcd(15, 5) == 5;
    assert Gcd(21, 6) == 3;
    assert Gcd(42, 7) == 7;
  }
}
