/** Integer facts behind the exact ratios: Euclid's gcd (Python's math.gcd on
    non-negative arguments), Bezout coefficients, cancellation of coprime pairs,
    powers of two and the odd part of a number. */
module NumberTheory {

  /** Euclid's algorithm, as math.gcd computes it on non-negative integers. */
  function Gcd(a: nat, b: nat): nat
    decreases b
  {
    if b == 0 then a else Gcd(b, a % b)
  }

  lemma MulNonneg(a: int, b: int)
    requires a >= 0 && b >= 0
    ensures a * b >= 0
  {
  }

  /** Quotient and remainder are determined by n = c * q + r with 0 <= r < c. */
  lemma DivModUnique(n: int, c: int, q: int, r: int)
    requires c > 0 && 0 <= r < c && n == c * q + r
    ensures n / c == q && n % c == r
  {
    var q0, r0 := n / c, n % c;
    assert n == c * q0 + r0;
    assert c * (q - q0) == r0 - r;
    if q > q0 {
      MulNonneg(c, q - q0 - 1);
    } else if q < q0 {
      MulNonneg(c, q0 - q - 1);
    }
  }

  lemma MulAssoc(a: int, b: int, c: int)
    ensures (a * b) * c == a * (b * c)
  {
  }

  lemma MulComm(a: int, b: int)
    ensures a * b == b * a
  {
  }

  lemma MulMonotone(a: int, b: int, c: int, d: int)
    requires 0 <= a <= b && 0 <= c <= d
    ensures a * c <= b * d
  {
    MulNonneg(b - a, c);
    MulNonneg(b, d - c);
  }

  lemma MulModZero(c: int, k: int)
    requires c > 0
    ensures (c * k) % c == 0 && (c * k) / c == k
  {
    DivModUnique(c * k, c, k, 0);
  }

  lemma ModZeroQuotient(n: int, c: int)
    requires c > 0 && n % c == 0
    ensures n == c * (n / c)
  {
  }

  lemma MulCancel(c: int, a: int, b: int)
    requires c > 0 && c * a == c * b
    ensures a == b
  {
    MulModZero(c, a);
    MulModZero(c, b);
  }

  /** A positive multiple of c is at least c. */
  lemma MultipleAtLeast(n: int, c: int)
    requires c > 0 && n > 0 && n % c == 0
    ensures n >= c
  {
    var q := n / c;
    assert n == c * q;
    if q <= 0 {
      MulNonneg(c, -q);
    } else {
      MulNonneg(c, q - 1);
      assert c * q == c * (q - 1) + c;
    }
  }

  /** A common divisor of two numbers divides every integer combination of them. */
  lemma DividesCombination(c: int, a: int, b: int, x: int, y: int)
    requires c > 0 && a % c == 0 && b % c == 0
    ensures (a * x + b * y) % c == 0
  {
    var p, q := a / c, b / c;
    assert a == c * p && b == c * q;
    assert a * x == c * (p * x);
    assert b * y == c * (q * y);
    assert a * x + b * y == c * (p * x + q * y);
    MulModZero(c, p * x + q * y);
  }

  lemma {:induction false} GcdDividesBoth(a: nat, b: nat)
    ensures (Gcd(a, b) == 0) == (a == 0 && b == 0)
    ensures Gcd(a, b) > 0 ==> a % Gcd(a, b) == 0 && b % Gcd(a, b) == 0
    decreases b
  {
    if b != 0 {
      var r := a % b;
      GcdDividesBoth(b, r);
      var g := Gcd(b, r);
      assert a == b * (a / b) + r * 1;
      DividesCombination(g, b, r, a / b, 1);
    }
  }

  /** Every common divisor divides the gcd: gcd is the greatest common divisor. */
  lemma {:induction false} GcdGreatest(a: nat, b: nat, c: int)
    requires c > 0 && a % c == 0 && b % c == 0
    ensures Gcd(a, b) % c == 0
    decreases b
  {
    if b != 0 {
      var r := a % b;
      assert r == a * 1 + b * (-(a / b));
      DividesCombination(c, a, b, 1, -(a / b));
      GcdGreatest(b, r, c);
    }
  }

  /** Bezout coefficients from the extended Euclidean algorithm. */
  function {:induction false} Bezout(a: nat, b: nat): (r: (int, int))
    ensures a * r.0 + b * r.1 == Gcd(a, b)
    decreases b
  {
    if b == 0 then (1, 0)
    else
      var (x, y) := Bezout(b, a % b);
      var q := a / b;
      var m := a % b;
      BezoutStep(a, b, q, m, x, y);
      (y, x - q * y)
  }

  /** One step of the extended algorithm: coefficients for (b, m) give
      coefficients for (a, b) when a == b * q + m. */
  lemma BezoutStep(a: int, b: int, q: int, m: int, x: int, y: int)
    requires a == b * q + m
    ensures a * y + b * (x - q * y) == b * x + m * y
  {
    var qy := q * y;
    MulAdd(y, b * q, m);
    MulComm(y, b * q);
    MulComm(y, m);
    MulAssoc(b, q, y);
    MulAdd(b, x, -qy);
  }

  /** Euclid's lemma: a number coprime to b that divides b * c divides c. */
  lemma EuclidLemma(a: nat, b: nat, c: nat)
    requires a > 0 && Gcd(a, b) == 1 && (b * c) % a == 0
    ensures c % a == 0
  {
    var (x, y) := Bezout(a, b);
    ScaleCombination(a, b, c, x, y);
    MulModZero(a, 1);
    DividesCombination(a, a, b * c, c * x, y);
  }

  lemma MulAdd(c: int, p: int, q: int)
    ensures c * (p + q) == c * p + c * q
  {
  }

  /** a * x + b * y == 1 scaled by c. */
  lemma ScaleCombination(a: int, b: int, c: int, x: int, y: int)
    requires a * x + b * y == 1
    ensures c == a * (c * x) + (b * c) * y
  {
    var ax, bY := a * x, b * y;
    MulAdd(c, ax, bY);
    assert c * (ax + bY) == c;
    MulAssoc(c, a, x);
    MulComm(c, a);
    MulAssoc(a, c, x);
    MulAssoc(b, c, y);
    MulAssoc(c, b, y);
    MulComm(c, b);
  }

  lemma DividesAntisymmetric(a: nat, c: nat)
    requires a > 0 && c > 0 && c % a == 0 && a % c == 0
    ensures a == c
  {
    MultipleAtLeast(c, a);
    MultipleAtLeast(a, c);
  }

  /** Two coprime pairs with the same ratio are the same pair. */
  lemma CoprimeCanonical(a: nat, b: nat, c: nat, d: nat)
    requires a > 0 && b > 0 && c > 0 && d > 0
    requires Gcd(a, b) == 1 && Gcd(c, d) == 1
    requires a * d == c * b
    ensures a == c && b == d
  {
    MulComm(b, c);
    MulModZero(a, d);
    EuclidLemma(a, b, c);
    MulComm(d, a);
    MulModZero(c, b);
    EuclidLemma(c, d, a);
    DividesAntisymmetric(a, c);
    MulComm(c, b);
    MulCancel(a, d, b);
  }

  lemma ReducedCombination(n: nat, d: nat, g: int, x: int, y: int)
    requires g > 0 && n % g == 0 && d % g == 0 && n * x + d * y == g
    ensures (n / g) * x + (d / g) * y == 1
  {
    var n', d' := n / g, d / g;
    assert n == g * n' && d == g * d';
    assert n * x == g * (n' * x);
    assert d * y == g * (d' * y);
    assert g * (n' * x + d' * y) == g * 1;
    MulCancel(g, n' * x + d' * y, 1);
  }

  lemma QuotientPositive(d: int, g: int)
    requires g > 0 && d > 0 && d % g == 0
    ensures d / g > 0
  {
    if d / g <= 0 {
      MulNonneg(g, -(d / g));
    }
  }

  /** Dividing a pair by its gcd leaves a coprime pair. */
  lemma ReduceCoprime(n: nat, d: nat)
    requires d > 0
    ensures Gcd(n, d) > 0
    ensures n % Gcd(n, d) == 0 && d % Gcd(n, d) == 0
    ensures Gcd(n / Gcd(n, d), d / Gcd(n, d)) == 1
  {
    GcdDividesBoth(n, d);
    var g := Gcd(n, d);
    var n', d' := n / g, d / g;
    var (x, y) := Bezout(n, d);
    ReducedCombination(n, d, g, x, y);
    QuotientPositive(d, g);
    GcdDividesBoth(n', d');
    var h := Gcd(n', d');
    DividesCombination(h, n', d', x, y);
    MultipleAtLeast(1, h);
  }

  /** 2 to the power k. */
  function Pow2(k: nat): (r: nat)
    ensures r >= 1
  {
    if k == 0 then 1 else 2 * Pow2(k - 1)
  }

  lemma {:induction false} Pow2Add(i: nat, j: nat)
    ensures Pow2(i + j) == Pow2(i) * Pow2(j)
  {
    if i > 0 {
      Pow2Add(i - 1, j);
      assert Pow2(i + j) == 2 * Pow2(i - 1 + j);
    }
  }

  /** b to the power e. */
  function IntPow(b: nat, e: nat): nat
  {
    if e == 0 then 1 else b * IntPow(b, e - 1)
  }

  lemma {:induction false} IntPowPositive(b: nat, e: nat)
    requires b >= 1
    ensures IntPow(b, e) >= 1
  {
    if e > 0 {
      IntPowPositive(b, e - 1);
      MulNonneg(b - 1, IntPow(b, e - 1));
    }
  }

  /** The odd part of x: x with every factor 2 removed. */
  function Odd(x: nat): nat
  {
    if x > 0 && x % 2 == 0 then Odd(x / 2) else x
  }

  /** The number of factors 2 in x. */
  function TwoExponent(x: nat): nat
  {
    if x > 0 && x % 2 == 0 then 1 + TwoExponent(x / 2) else 0
  }

  lemma {:induction false} OddDecomposition(x: nat)
    requires x >= 1
    ensures Odd(x) % 2 == 1
    ensures x == Odd(x) * Pow2(TwoExponent(x))
  {
    if x % 2 == 0 {
      OddDecomposition(x / 2);
      var o, p := Odd(x / 2), Pow2(TwoExponent(x / 2));
      assert Odd(x) == o && Pow2(TwoExponent(x)) == 2 * p;
      MulAssoc(o, 2, p);
      MulComm(o, 2);
      MulAssoc(2, o, p);
    }
  }

  lemma HalfOfEven(x: nat, y: nat)
    requires x % 2 == 0
    ensures x == 2 * (x / 2)
    ensures (x * y) % 2 == 0 && (x * y) / 2 == (x / 2) * y
  {
    var h := x / 2;
    assert x * y == 2 * (h * y);
    MulModZero(2, h * y);
  }

  lemma {:induction false} OddMul(x: nat, y: nat)
    requires x >= 1 && y >= 1
    ensures Odd(x * y) == Odd(x) * Odd(y)
    decreases x + y
  {
    MulNonneg(x - 1, y);
    assert x * y >= 1;
    if x % 2 == 0 {
      HalfOfEven(x, y);
      OddMul(x / 2, y);
    } else if y % 2 == 0 {
      HalfOfEven(y, x);
      assert y * x == x * y && (y / 2) * x == x * (y / 2);
      OddMul(x, y / 2);
    } else {
      var p, q := x / 2, y / 2;
      assert x == 2 * p + 1 && y == 2 * q + 1;
      assert x * y == 2 * (2 * p * q + p + q) + 1;
      DivModUnique(x * y, 2, 2 * p * q + p + q, 1);
    }
  }

  lemma OddTwice(x: nat)
    requires x >= 1
    ensures Odd(2 * x) == Odd(x)
  {
    MulModZero(2, x);
  }

  lemma {:induction false} OddOfPow2(k: nat)
    ensures Odd(Pow2(k)) == 1
  {
    if k > 0 {
      OddTwice(Pow2(k - 1));
      OddOfPow2(k - 1);
    }
  }

  lemma OddAtMost(x: nat)
    requires x >= 1
    ensures Odd(x) <= x
  {
    OddDecomposition(x);
    MulNonneg(Odd(x), Pow2(TwoExponent(x)) - 1);
  }

  /** Two numbers with the same odd part, each less than twice the other, are equal. */
  lemma {:induction false} SameOddNear(x: nat, y: nat)
    requires x >= 1 && y >= 1
    requires Odd(x) == Odd(y)
    requires x < 2 * y && y < 2 * x
    ensures x == y
    decreases x + y
  {
    if x % 2 == 0 && y % 2 == 0 {
      SameOddNear(x / 2, y / 2);
    } else if x % 2 == 0 {
      OddAtMost(x / 2);
    } else if y % 2 == 0 {
      OddAtMost(y / 2);
    }
  }

  /** n1:d1 and n2:d2 denote the same ratio. */
  predicate SameRatio(n1: int, d1: int, n2: int, d2: int)
  {
    n1 * d2 == n2 * d1
  }

  lemma RatioTrans(n1: int, d1: int, n2: int, d2: int, n3: int, d3: int)
    requires d2 > 0 && SameRatio(n1, d1, n2, d2) && SameRatio(n2, d2, n3, d3)
    ensures SameRatio(n1, d1, n3, d3)
  {
    MulAssoc(n1, d3, d2);
    MulComm(d3, d2);
    MulAssoc(n1, d2, d3);
    MulAssoc(n2, d1, d3);
    MulComm(d1, d3);
    MulAssoc(n2, d3, d1);
    MulAssoc(n3, d2, d1);
    MulComm(d2, d1);
    MulAssoc(n3, d1, d2);
    assert (n1 * d3) * d2 == (n3 * d1) * d2;
    MulCancel(d2, n1 * d3, n3 * d1);
  }

  lemma MulSwap(a: int, b: int, c: int, d: int)
    ensures (a * b) * (c * d) == (a * c) * (b * d)
  {
    MulAssoc(a, b, c * d);
    MulAssoc(b, c, d);
    MulComm(b, c);
    MulAssoc(c, b, d);
    MulAssoc(a, c, b * d);
  }

  /** Equal ratios multiply to equal ratios. */
  lemma RatioMul(n1: int, d1: int, n2: int, d2: int, m1: int, e1: int, m2: int, e2: int)
    requires SameRatio(n1, d1, n2, d2) && SameRatio(m1, e1, m2, e2)
    ensures SameRatio(n1 * m1, d1 * e1, n2 * m2, d2 * e2)
  {
    MulSwap(n1, m1, d2, e2);
    MulSwap(n2, m2, d1, e1);
  }

  /** Scaling both terms by k > 0 leaves the ratio unchanged. */
  lemma RatioScale(n: int, d: int, k: int)
    ensures SameRatio(n * k, d * k, n, d)
  {
    MulAssoc(n, k, d);
    MulComm(k, d);
    MulAssoc(n, d, k);
    MulAssoc(d, k, n);
    MulComm(k, n);
    MulAssoc(d, n, k);
  }

  /** n1:d1 is strictly smaller than n2:d2 (positive denominators). */
  predicate RatioLess(n1: int, d1: int, n2: int, d2: int)
  {
    n1 * d2 < n2 * d1
  }

  lemma MulLe(x: int, y: int, k: int)
    requires x <= y && k >= 0
    ensures x * k <= y * k
  {
    MulNonneg(y - x, k);
  }

  lemma MulStrict(x: int, y: int, k: int)
    requires x < y && k > 0
    ensures x * k < y * k
  {
    MulMonotone(0, k - 1, 0, y - x);
  }

  /** RatioLess only depends on the ratio of its left operand. */
  lemma RatioLessLeft(n1: int, d1: int, n1': int, d1': int, n2: int, d2: int)
    requires d1 > 0 && d1' > 0 && SameRatio(n1, d1, n1', d1')
    ensures RatioLess(n1, d1, n2, d2) <==> RatioLess(n1', d1', n2, d2)
  {
    // (n1 * d2) * d1' == (n1' * d2) * d1 and (n2 * d1) * d1' == (n2 * d1') * d1
    MulAssoc(n1, d2, d1');
    MulComm(d2, d1');
    MulAssoc(n1, d1', d2);
    MulAssoc(n1', d1, d2);
    MulComm(d1, d2);
    MulAssoc(n1', d2, d1);
    MulAssoc(n2, d1, d1');
    MulComm(d1, d1');
    MulAssoc(n2, d1', d1);
    if n1 * d2 < n2 * d1 {
      MulStrict(n1 * d2, n2 * d1, d1');
      if !(n1' * d2 < n2 * d1') {
        MulLe(n2 * d1', n1' * d2, d1);
      }
    } else {
      MulLe(n2 * d1, n1 * d2, d1');
      if n1' * d2 < n2 * d1' {
        MulStrict(n1' * d2, n2 * d1', d1);
      }
    }
  }

  /** RatioLess only depends on the ratio of its right operand. */
  lemma RatioLessRight(n1: int, d1: int, n2: int, d2: int, n2': int, d2': int)
    requires d2 > 0 && d2' > 0 && SameRatio(n2, d2, n2', d2')
    ensures RatioLess(n1, d1, n2, d2) <==> RatioLess(n1, d1, n2', d2')
  {
    MulAssoc(n1, d2, d2');
    MulComm(d2, d2');
    MulAssoc(n1, d2', d2);
    MulAssoc(n2, d1, d2');
    MulComm(d1, d2');
    MulAssoc(n2, d2', d1);
    MulAssoc(n2', d2, d1);
    MulComm(d2, d1);
    MulAssoc(n2', d1, d2);
    if n1 * d2 < n2 * d1 {
      MulStrict(n1 * d2, n2 * d1, d2');
      if !(n1 * d2' < n2' * d1) {
        MulLe(n2' * d1, n1 * d2', d2);
      }
    } else {
      MulLe(n2 * d1, n1 * d2, d2');
      if n1 * d2' < n2' * d1 {
        MulStrict(n1 * d2', n2' * d1, d2);
      }
    }
  }

  lemma RatioLessTrans(n1: int, d1: int, n2: int, d2: int, n3: int, d3: int)
    requires d1 > 0 && d2 > 0 && d3 > 0
    requires RatioLess(n1, d1, n2, d2) && !RatioLess(n3, d3, n2, d2)
    ensures RatioLess(n1, d1, n3, d3)
  {
    MulStrict(n1 * d2, n2 * d1, d3);
    MulLe(n2 * d3, n3 * d2, d1);
    MulAssoc(n1, d2, d3);
    MulComm(d2, d3);
    MulAssoc(n1, d3, d2);
    MulAssoc(n2, d1, d3);
    MulComm(d1, d3);
    MulAssoc(n2, d3, d1);
    MulComm(n2 * d3, d1);
    MulComm(n3 * d2, d1);
    MulAssoc(n3, d2, d1);
    MulComm(d2, d1);
    MulAssoc(n3, d1, d2);
    assert (n1 * d3) * d2 < (n3 * d1) * d2;
    if !(n1 * d3 < n3 * d1) {
      MulLe(n3 * d1, n1 * d3, d2);
    }
  }

  function Max(x: int, y: int): int
  {
    if x >= y then x else y
  }

  function Min(x: int, y: int): int
  {
    if x <= y then x else y
  }

  /** max() of a non-empty list: an element no smaller than any other. */
  function MaxOf(s: seq<int>): (m: int)
    requires |s| > 0
    ensures m in s && forall i :: 0 <= i < |s| ==> s[i] <= m
  {
    if |s| == 1 then s[0] else Max(s[0], MaxOf(s[1..]))
  }

  /** The greater of the two maxima is the maximum of the concatenation. */
  lemma MaxOfConcat(xs: seq<int>, ys: seq<int>)
    requires |xs| > 0 && |ys| > 0
    ensures var m := Max(MaxOf(xs), MaxOf(ys));
      (m in xs || m in ys) && forall i :: 0 <= i < |xs + ys| ==> (xs + ys)[i] <= m
  {
    var m := Max(MaxOf(xs), MaxOf(ys));
    forall i | 0 <= i < |xs + ys|
      ensures (xs + ys)[i] <= m
    {
      if i < |xs| {
        assert (xs + ys)[i] == xs[i];
      } else {
        assert (xs + ys)[i] == ys[i - |xs|];
      }
    }
  }
}
