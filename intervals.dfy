/** Just intervals: immutable ratios num:den kept in lowest terms with
    num >= den >= 1, composed by multiplication and decomposed by division
    with octave wrap-around. */
module Intervals {
  import opened NumberTheory
  import opened Results
  import opened Primes

  /** A just interval num:den. */
  datatype Interval = Interval(num: nat, den: nat)
  {
    /** Lowest terms and never below the unison. */
    predicate Valid()
    {
      1 <= den <= num && Gcd(num, den) == 1
    }
  }

  const Unison: Interval := Interval(1, 1)
  const Octave: Interval := Interval(2, 1)

  /** The facts about dividing n and d by their gcd. */
  lemma ReduceFacts(n: nat, d: nat)
    requires 1 <= d <= n
    ensures Gcd(n, d) >= 1
    ensures (n / Gcd(n, d)) * Gcd(n, d) == n && (d / Gcd(n, d)) * Gcd(n, d) == d
    ensures 1 <= d / Gcd(n, d) <= n / Gcd(n, d)
    ensures Gcd(n / Gcd(n, d), d / Gcd(n, d)) == 1
  {
    ReduceCoprime(n, d);
    var g := Gcd(n, d);
    ModZeroQuotient(n, g);
    ModZeroQuotient(d, g);
    QuotientPositive(d, g);
    if n / g < d / g {
      MulStrict(n / g, d / g, g);
    }
  }

  /** n:d in lowest terms: a valid interval of the same value. */
  function Reduce(n: nat, d: nat): (r: Interval)
    requires 1 <= d <= n
    ensures r.Valid()
    ensures SameRatio(r.num, r.den, n, d)
  {
    ReduceFacts(n, d);
    var g := Gcd(n, d);
    RatioScale(n / g, d / g, g);
    Interval(n / g, d / g)
  }

  /** The reduced interval is the original pair divided by a common factor. */
  lemma ReduceDivides(n: nat, d: nat)
    requires 1 <= d <= n
    ensures Gcd(n, d) >= 1
    ensures Reduce(n, d).num * Gcd(n, d) == n && Reduce(n, d).den * Gcd(n, d) == d
  {
    ReduceFacts(n, d);
  }

  /** Two valid intervals of the same value are the same interval. */
  lemma ValueEquality(a: Interval, b: Interval)
    requires a.Valid() && b.Valid()
    ensures SameRatio(a.num, a.den, b.num, b.den) <==> a == b
  {
    if SameRatio(a.num, a.den, b.num, b.den) {
      CoprimeCanonical(a.num, a.den, b.num, b.den);
    }
  }

  /** Reduce yields the one valid interval with the value n:d. */
  lemma ReduceCanonical(n: nat, d: nat, r: Interval)
    requires 1 <= d <= n && r.Valid() && SameRatio(r.num, r.den, n, d)
    ensures Reduce(n, d) == r
  {
    var q := Reduce(n, d);
    RatioTrans(q.num, q.den, n, d, r.num, r.den);
    ValueEquality(q, r);
  }

  /** JustInterval(numerator, denominator): the checks run in the source's
      order, then the pair is stored in lowest terms. */
  function Make(numerator: int, denominator: int): Result<Interval>
  {
    if denominator > numerator then Err(ValueError)
    else if denominator == 0 then Err(ZeroDivisionError)
    else if denominator < 1 then Err(ValueError)
    else Ok(Reduce(numerator, denominator))
  }

  lemma MakeCorrect(numerator: int, denominator: int)
    ensures denominator > numerator ==> Make(numerator, denominator) == Err(ValueError)
    ensures denominator <= numerator && denominator == 0 ==>
      Make(numerator, denominator) == Err(ZeroDivisionError)
    ensures denominator <= numerator && denominator < 0 ==>
      Make(numerator, denominator) == Err(ValueError)
    ensures 1 <= denominator <= numerator <==> Make(numerator, denominator).Ok?
    ensures Make(numerator, denominator).Ok? ==>
      var r := Make(numerator, denominator).value;
      r.Valid() && SameRatio(r.num, r.den, numerator, denominator) &&
      r.num * Gcd(numerator, denominator) == numerator &&
      r.den * Gcd(numerator, denominator) == denominator
  {
    if 1 <= denominator <= numerator {
      ReduceDivides(numerator, denominator);
    }
  }

  lemma MakeExamples()
    ensures Make(4, 3) == Ok(Interval(4, 3))
    ensures Make(3, 3) == Ok(Unison)
    ensures Make(6, 3) == Ok(Octave)
    ensures Make(3, 4) == Err(ValueError)
    ensures Make(0, 0) == Err(ZeroDivisionError)
    ensures Make(-1, -2) == Err(ValueError)
  {
    ReduceCanonical(4, 3, Interval(4, 3));
    ReduceCanonical(3, 3, Unison);
    ReduceCanonical(6, 3, Octave);
  }

  // Value comparison. The source divides in floating point; the model
  // compares the exact ratios by cross-multiplication.

  predicate Less(a: Interval, b: Interval)
  {
    RatioLess(a.num, a.den, b.num, b.den)
  }

  predicate LessEq(a: Interval, b: Interval)
  {
    !Less(b, a)
  }

  lemma LessTransitive(a: Interval, b: Interval, c: Interval)
    requires a.Valid() && b.Valid() && c.Valid()
    requires Less(a, b) && LessEq(b, c)
    ensures Less(a, c)
  {
    RatioLessTrans(a.num, a.den, b.num, b.den, c.num, c.den);
  }

  /** The value order is total and antisymmetric on valid intervals. */
  lemma OrderTotal(a: Interval, b: Interval)
    requires a.Valid() && b.Valid()
    ensures LessEq(a, b) || LessEq(b, a)
    ensures LessEq(a, b) && LessEq(b, a) <==> a == b
    ensures Less(a, b) <==> LessEq(a, b) && a != b
  {
    ValueEquality(a, b);
  }

  lemma LessEqTransitive(a: Interval, b: Interval, c: Interval)
    requires a.Valid() && b.Valid() && c.Valid()
    requires LessEq(a, b) && LessEq(b, c)
    ensures LessEq(a, c)
  {
    OrderTotal(a, b);
    if a != b {
      LessTransitive(a, b, c);
    }
  }

  /** Every valid interval lies at or above the unison. */
  lemma UnisonLeast(a: Interval)
    requires a.Valid()
    ensures LessEq(Unison, a)
  {
  }

  /** a + b: the ratios multiply. */
  function Add(a: Interval, b: Interval): (r: Interval)
    requires a.Valid() && b.Valid()
    ensures r.Valid()
  {
    MulMonotone(a.den, a.num, b.den, b.num);
    MulMonotone(1, a.den, 1, b.den);
    Reduce(a.num * b.num, a.den * b.den)
  }

  /** The value of a + b is the product of the values. */
  lemma AddValue(a: Interval, b: Interval)
    requires a.Valid() && b.Valid()
    ensures SameRatio(Add(a, b).num, Add(a, b).den, a.num * b.num, a.den * b.den)
  {
  }

  lemma AddCommutative(a: Interval, b: Interval)
    requires a.Valid() && b.Valid()
    ensures Add(a, b) == Add(b, a)
  {
    MulComm(a.num, b.num);
    MulComm(a.den, b.den);
  }

  lemma AddUnison(a: Interval)
    requires a.Valid()
    ensures Add(a, Unison) == a && Add(Unison, a) == a
  {
    ReduceCanonical(a.num, a.den, a);
  }

  lemma AddAssociative(a: Interval, b: Interval, c: Interval)
    requires a.Valid() && b.Valid() && c.Valid()
    ensures Add(Add(a, b), c) == Add(a, Add(b, c))
  {
    var ab, bc := Add(a, b), Add(b, c);
    var l, r := Add(ab, c), Add(a, bc);
    MulAssoc(a.num, b.num, c.num);
    MulAssoc(a.den, b.den, c.den);
    MulPositive(a.den, b.den);
    MulPositive(b.den, c.den);
    RatioMul(ab.num, ab.den, a.num * b.num, a.den * b.den, c.num, c.den, c.num, c.den);
    RatioTrans(l.num, l.den, ab.num * c.num, ab.den * c.den,
      (a.num * b.num) * c.num, (a.den * b.den) * c.den);
    RatioMul(a.num, a.den, a.num, a.den, bc.num, bc.den, b.num * c.num, b.den * c.den);
    RatioTrans(r.num, r.den, a.num * bc.num, a.den * bc.den,
      a.num * (b.num * c.num), a.den * (b.den * c.den));
    MulPositive(a.den * b.den, c.den);
    RatioTrans(l.num, l.den, a.num * (b.num * c.num), a.den * (b.den * c.den), r.num, r.den);
    ValueEquality(l, r);
  }

  /** Composition never goes below either operand. */
  lemma AddAtLeast(a: Interval, b: Interval)
    requires a.Valid() && b.Valid()
    ensures LessEq(a, Add(a, b)) && LessEq(b, Add(a, b))
  {
    var c := Add(a, b);
    MulPositive(a.den, b.den);
    RatioLessLeft(c.num, c.den, a.num * b.num, a.den * b.den, a.num, a.den);
    RatioLessLeft(c.num, c.den, a.num * b.num, a.den * b.den, b.num, b.den);
    // a.num * b.num * a.den >= a.num * a.den * b.den, and symmetrically
    MulLe(b.den, b.num, a.num * a.den);
    MulLe(a.den, a.num, b.num * b.den);
    MulSwap(a.num, b.num, a.den, 1);
    MulAssoc(a.num, b.num, a.den);
    MulAssoc(a.num, a.den, b.den);
    MulComm(b.num, a.den);
    MulAssoc(a.num, a.den, b.num);
    MulComm(a.num * a.den, b.num);
    MulComm(a.num * a.den, b.den);
    MulAssoc(b.num, a.num, b.den);
    MulComm(a.num, b.den);
    MulAssoc(b.num, b.den, a.num);
    MulComm(b.num * b.den, a.num);
    MulComm(b.num * b.den, a.den);
    MulAssoc(a.num, b.num, b.den);
    MulComm(a.num, b.num);
    MulAssoc(b.num, a.num, b.den);
    MulAssoc(a.den, b.den, b.num);
    MulComm(a.den, b.den);
    MulAssoc(b.den, a.den, b.num);
    MulComm(a.den, b.num);
    MulAssoc(b.den, b.num, a.den);
    MulAssoc(b.num, b.den, a.den);
    MulComm(b.num, b.den);
  }

  lemma MulPositive(a: int, b: int)
    requires a >= 1 && b >= 1
    ensures a * b >= 1
  {
    MulMonotone(1, a, 1, b);
  }

  /** Measure of how far a lies below b; a + octave is strictly closer. */
  function Shortfall(a: Interval, b: Interval): int
  {
    b.num * a.den - a.num * b.den
  }

  lemma AddOctaveCloser(a: Interval, b: Interval)
    requires a.Valid() && b.Valid() && Less(a, b)
    ensures Shortfall(Add(a, Octave), b) < Shortfall(a, b)
  {
    var c := Add(a, Octave);
    ReduceDivides(a.num * 2, a.den * 1);
    var g := Gcd(a.num * 2, a.den * 1);
    var p, q := a.num * b.den, b.num * a.den;
    ScaleDifference(b.num, c.den, c.num, b.den, g, a.den, a.num * 2);
    MulAssoc(a.num, 2, b.den);
    MulComm(2, b.den);
    MulAssoc(a.num, b.den, 2);
    MulPositive(a.num, b.den);
    ScaledBelow(Shortfall(c, b), g, q - p, p);
  }

  /** (bn * cd - cn * bd) scaled by g, when cd and cn scale to ad and an. */
  lemma ScaleDifference(bn: int, cd: int, cn: int, bd: int, g: int, ad: int, an: int)
    requires cd * g == ad && cn * g == an
    ensures (bn * cd - cn * bd) * g == bn * ad - an * bd
  {
    MulSub(bn * cd, cn * bd, g);
    MulAssoc(bn, cd, g);
    MulAssoc(cn, bd, g);
    MulComm(bd, g);
    MulAssoc(cn, g, bd);
  }

  lemma MulSub(p: int, q: int, c: int)
    ensures (p - q) * c == p * c - q * c
  {
  }

  /** A number whose multiple by g >= 1 falls p >= 1 short of e > 0 is below e. */
  lemma ScaledBelow(x: int, g: int, e: int, p: int)
    requires g >= 1 && p >= 1 && e > 0 && x * g == e - p
    ensures x < e
  {
    if x > 0 {
      MulLe(1, g, x);
      MulComm(g, x);
    }
  }

  /** a - b: when b exceeds a, an octave is added to a until it does not; then
      the ratios divide. */
  function Sub(a: Interval, b: Interval): (r: Interval)
    requires a.Valid() && b.Valid()
    ensures r.Valid()
    decreases Shortfall(a, b)
  {
    if Less(a, b) then
      AddOctaveCloser(a, b);
      Sub(Add(a, Octave), b)
    else
      MulMonotone(1, a.den, 1, b.num);
      Reduce(a.num * b.den, a.den * b.num)
  }

  /** The number of octaves Sub adds before dividing. */
  function SubOctaves(a: Interval, b: Interval): nat
    requires a.Valid() && b.Valid()
    decreases Shortfall(a, b)
  {
    if Less(a, b) then
      AddOctaveCloser(a, b);
      1 + SubOctaves(Add(a, Octave), b)
    else 0
  }

  /** a + octave has twice the value of a. */
  lemma AddOctaveValue(a: Interval)
    requires a.Valid()
    ensures SameRatio(Add(a, Octave).num, Add(a, Octave).den, 2 * a.num, a.den)
  {
  }

  /** a - b is a / b * 2^k for the least k >= 0 giving a value >= 1/1: the
      value is at least the unison, and when an octave was added it is below
      the octave, so one octave fewer would fall below the unison. */
  lemma {:induction false} SubValue(a: Interval, b: Interval)
    requires a.Valid() && b.Valid()
    ensures LessEq(Unison, Sub(a, b))
    ensures SameRatio(Sub(a, b).num, Sub(a, b).den,
      Pow2(SubOctaves(a, b)) * (a.num * b.den), a.den * b.num)
    ensures SubOctaves(a, b) > 0 ==> Less(Sub(a, b), Octave)
    ensures SubOctaves(a, b) == 0 <==> LessEq(b, a)
    decreases Shortfall(a, b)
  {
    var r := Sub(a, b);
    if Less(a, b) {
      AddOctaveCloser(a, b);
      var c := Add(a, Octave);
      var k := SubOctaves(a, b);
      SubValue(c, b);
      assert r == Sub(c, b);
      // c / b has twice the value of a / b
      AddOctaveValue(a);
      RatioMul(c.num, c.den, 2 * a.num, a.den, b.den, b.num, b.den, b.num);
      MulAssoc(2, a.num, b.den);
      RatioMul(Pow2(k - 1), 1, Pow2(k - 1), 1,
        c.num * b.den, c.den * b.num, 2 * (a.num * b.den), a.den * b.num);
      MulAssoc(Pow2(k - 1), 2, a.num * b.den);
      MulComm(Pow2(k - 1), 2);
      MulPositive(c.den, b.num);
      RatioTrans(r.num, r.den, Pow2(k - 1) * (c.num * b.den), c.den * b.num,
        Pow2(k) * (a.num * b.den), a.den * b.num);
      if SubOctaves(c, b) == 0 {
        // r == c / b, and c / b < 2 since a < b
        MulPositive(a.den, b.num);
        RatioLessLeft(r.num, r.den, 2 * (a.num * b.den), a.den * b.num, 2, 1);
        MulStrict(a.num * b.den, b.num * a.den, 2);
        MulComm(b.num, a.den);
      }
    } else {
      MulPositive(a.den, b.num);
    }
  }

  /** (a + b) - b == a. */
  lemma AddSubInverse(a: Interval, b: Interval)
    requires a.Valid() && b.Valid()
    ensures Sub(Add(a, b), b) == a
  {
    var c := Add(a, b);
    AddAtLeast(a, b);
    assert !Less(c, b);
    MulPositive(c.den, b.num);
    MulPositive(a.den, b.den);
    // c.num * b.den * a.den == a.num * b.num * c.den
    MulAssoc(c.num, b.den, a.den);
    MulComm(b.den, a.den);
    MulComm(a.num, b.num);
    MulAssoc(b.num, a.num, c.den);
    MulAssoc(a.num, c.den, b.num);
    MulComm(c.den, b.num);
    MulAssoc(a.num, b.num, c.den);
    ReduceCanonical(c.num * b.den, c.den * b.num, a);
  }

  /** a + (b - a) == b when a does not exceed b: no octave is added, so the
      difference is the plain quotient. */
  lemma AddSubComplete(a: Interval, b: Interval)
    requires a.Valid() && b.Valid() && LessEq(a, b)
    ensures Add(a, Sub(b, a)) == b
  {
    var s := Sub(b, a);
    assert s == Reduce(b.num * a.den, b.den * a.num);
    var n, d := a.num * s.num, a.den * s.den;
    RatioMul(a.num, a.den, a.num, a.den, s.num, s.den, b.num * a.den, b.den * a.num);
    // a.num * (b.num * a.den) : a.den * (b.den * a.num) is b.num : b.den scaled by a.num * a.den
    MulAssoc(a.num, b.num, a.den);
    MulComm(a.num, b.num);
    MulAssoc(b.num, a.num, a.den);
    MulAssoc(a.den, b.den, a.num);
    MulComm(a.den, b.den);
    MulAssoc(b.den, a.den, a.num);
    MulComm(a.den, a.num);
    RatioScale(b.num, b.den, a.num * a.den);
    MulPositive(a.den, a.num);
    MulPositive(b.den, a.num * a.den);
    RatioTrans(n, d, a.num * (b.num * a.den), a.den * (b.den * a.num), b.num, b.den);
    MulMonotone(1, a.den, 1, s.den);
    MulMonotone(a.den, a.num, s.den, s.num);
    ReduceCanonical(n, d, b);
  }

  lemma SubExamples()
    ensures Sub(Interval(3, 2), Interval(9, 8)) == Interval(4, 3)
    ensures Sub(Unison, Interval(3, 2)) == Interval(4, 3)
    ensures Add(Interval(3, 2), Interval(4, 3)) == Octave
  {
    ReduceCanonical(24, 18, Interval(4, 3));
    assert Add(Unison, Octave) == Octave by {
      ReduceCanonical(2, 1, Octave);
    }
    ReduceCanonical(12, 6, Octave);
  }

  /** The interval that completes a to an octave: 2/1 - a below the octave,
      1/1 for the octave itself, and no interval (NotImplemented) above it. */
  function Complement(a: Interval): Option<Interval>
    requires a.Valid()
  {
    if Less(a, Octave) then Some(Sub(Octave, a))
    else if a == Octave then Some(Unison)
    else None
  }

  /** Below the octave the complement is 2/1 : a itself, in (1/1, 2/1]. */
  lemma ComplementBelowOctave(a: Interval)
    requires a.Valid() && Less(a, Octave)
    ensures Sub(Octave, a) == Reduce(2 * a.den, a.num)
    ensures Less(Unison, Sub(Octave, a)) && LessEq(Sub(Octave, a), Octave)
  {
    var c := Reduce(2 * a.den, a.num);
    assert Sub(Octave, a) == c;
    RatioLessLeft(1, 1, 1, 1, c.num, c.den);
    RatioLessRight(1, 1, c.num, c.den, 2 * a.den, a.num);
    RatioLessLeft(2, 1, 2, 1, c.num, c.den);
    RatioLessRight(2, 1, c.num, c.den, 2 * a.den, a.num);
  }

  /** The complement law: a + complement(a) is the octave whenever a lies
      below it. */
  lemma ComplementLaw(a: Interval)
    requires a.Valid() && Less(a, Octave)
    ensures Complement(a).Some?
    ensures Add(a, Complement(a).value) == Octave
  {
    var c := Sub(Octave, a);
    ComplementBelowOctave(a);
    assert SameRatio(c.num, c.den, 2 * a.den, a.num);
    RatioMul(a.num, a.den, a.num, a.den, c.num, c.den, 2 * a.den, a.num);
    MulPositive(a.den, a.num);
    MulAssoc(a.num, 2, a.den);
    MulComm(a.num, 2);
    MulAssoc(2, a.num, a.den);
    MulComm(a.den, a.num);
    assert SameRatio(a.num * (2 * a.den), a.den * a.num, 2, 1);
    RatioTrans(a.num * c.num, a.den * c.den, a.num * (2 * a.den), a.den * a.num, 2, 1);
    ReduceCanonical(a.num * c.num, a.den * c.den, Octave);
  }

  /** Strictly inside the octave, the complement of the complement is the
      interval again. */
  lemma ComplementInvolutive(a: Interval)
    requires a.Valid() && Less(Unison, a) && Less(a, Octave)
    ensures Complement(a).Some? && Complement(Complement(a).value) == Some(a)
  {
    var c := Sub(Octave, a);
    ComplementBelowOctave(a);
    assert SameRatio(c.num, c.den, 2 * a.den, a.num);
    RatioLessLeft(c.num, c.den, 2 * a.den, a.num, 2, 1);
    ComplementBelowOctave(c);
    var cc := Reduce(2 * c.den, c.num);
    assert SameRatio(cc.num, cc.den, 2 * c.den, c.num);
    // 2 * c.den : c.num == 2 * a.num : 2 * a.den, since c.num : c.den == 2 * a.den : a.num
    MulAssoc(2, c.den, 2 * a.den);
    MulComm(c.den, 2 * a.den);
    MulAssoc(2, 2 * a.den, c.den);
    MulAssoc(2 * a.num, c.num, 1);
    MulAssoc(2, a.num, c.num);
    MulComm(a.num, c.num);
    MulAssoc(2, c.num, a.num);
    MulComm(2, 2 * a.den);
    MulAssoc(2 * a.den, 2, c.den);
    MulAssoc(2 * c.num, a.num, 1);
    assert SameRatio(2 * c.den, c.num, 2 * a.num, 2 * a.den);
    RatioTrans(cc.num, cc.den, 2 * c.den, c.num, 2 * a.num, 2 * a.den);
    RatioScale(a.num, a.den, 2);
    MulComm(a.num, 2);
    MulComm(a.den, 2);
    RatioTrans(cc.num, cc.den, 2 * a.num, 2 * a.den, a.num, a.den);
    ValueEquality(cc, a);
  }

  lemma ComplementExamples()
    ensures Complement(Interval(3, 2)) == Some(Interval(4, 3))
    ensures Complement(Octave) == Some(Unison)
    ensures Complement(Unison) == Some(Octave)
    ensures Complement(Interval(9, 4)) == None
  {
    ReduceCanonical(4, 3, Interval(4, 3));
    ReduceCanonical(2, 1, Octave);
  }

  /** Halving n:d reduces the excess of numerator over denominator. */
  lemma HalvingCloser(n: nat, d: nat)
    requires 1 <= d && 2 * d <= n
    ensures Reduce(n, 2 * d).num - Reduce(n, 2 * d).den < n - d
  {
    var r := Reduce(n, 2 * d);
    ReduceDivides(n, 2 * d);
    var g := Gcd(n, 2 * d);
    MulSub(r.num, r.den, g);
    if r.num - r.den > 0 {
      MulLe(1, g, r.num - r.den);
    }
  }

  /** a - 2/1 for a at or above the octave halves the value. */
  lemma SubOctaveHalves(a: Interval)
    requires a.Valid() && LessEq(Octave, a)
    ensures Sub(a, Octave).Valid() && Sub(a, Octave) == Reduce(a.num, 2 * a.den)
    ensures Sub(a, Octave).num - Sub(a, Octave).den < a.num - a.den
  {
    assert a.num * 1 == a.num && a.den * 2 == 2 * a.den;
    HalvingCloser(a.num, a.den);
  }

  /** The reduction of a into the octave [1/1, 2/1): octaves are taken off
      while a is at least 2/1. */
  function BaseOctaveOf(a: Interval): (r: Interval)
    requires a.Valid()
    ensures r.Valid()
    decreases a.num - a.den
  {
    if LessEq(Octave, a) then
      SubOctaveHalves(a);
      BaseOctaveOf(Sub(a, Octave))
    else a
  }

  /** The number of octaves BaseOctaveOf takes off. */
  function OctavesAbove(a: Interval): nat
    requires a.Valid()
    decreases a.num - a.den
  {
    if LessEq(Octave, a) then
      SubOctaveHalves(a);
      1 + OctavesAbove(Sub(a, Octave))
    else 0
  }

  /** base_octave: the source's loop subtracting octaves from a copy. */
  method BaseOctave(a: Interval) returns (r: Interval)
    requires a.Valid()
    ensures r == BaseOctaveOf(a)
  {
    r := a;
    while LessEq(Octave, r)
      invariant r.Valid() && BaseOctaveOf(r) == BaseOctaveOf(a)
      decreases r.num - r.den
    {
      SubOctaveHalves(r);
      r := Sub(r, Octave);
    }
  }

  /** The base octave lies in [1/1, 2/1) and is a divided by 2^k, where k is
      the number of octaves taken off. */
  lemma {:induction false} BaseOctaveCorrect(a: Interval)
    requires a.Valid()
    ensures BaseOctaveOf(a).Valid()
    ensures LessEq(Unison, BaseOctaveOf(a)) && Less(BaseOctaveOf(a), Octave)
    ensures SameRatio(BaseOctaveOf(a).num * Pow2(OctavesAbove(a)), BaseOctaveOf(a).den,
      a.num, a.den)
    decreases a.num - a.den
  {
    var b := BaseOctaveOf(a);
    if LessEq(Octave, a) {
      SubOctaveHalves(a);
      var h := Sub(a, Octave);
      var k := OctavesAbove(h);
      BaseOctaveCorrect(h);
      // b * 2^k == h and h * 2 == a
      assert SameRatio(h.num, h.den, a.num, 2 * a.den);
      RatioMul(b.num * Pow2(k), b.den, h.num, h.den, 2, 1, 2, 1);
      RatioMul(h.num, h.den, a.num, 2 * a.den, 2, 1, 2, 1);
      MulPositive(h.den, 1);
      RatioTrans(b.num * Pow2(k) * 2, b.den * 1, h.num * 2, h.den * 1, a.num * 2, 2 * a.den * 1);
      RatioScale(a.num, a.den, 2);
      MulComm(2, a.den);
      MulPositive(2 * a.den, 1);
      RatioTrans(b.num * Pow2(k) * 2, b.den * 1, a.num * 2, 2 * a.den * 1, a.num, a.den);
      MulAssoc(b.num, Pow2(k), 2);
      MulComm(Pow2(k), 2);
    } else {
      OrderTotal(a, Octave);
    }
  }

  /** Reducing into the octave is idempotent and ignores whole octaves. */
  lemma BaseOctaveIdempotent(a: Interval)
    requires a.Valid()
    ensures BaseOctaveOf(BaseOctaveOf(a)) == BaseOctaveOf(a)
    ensures BaseOctaveOf(Add(a, Octave)) == BaseOctaveOf(a)
  {
    BaseOctaveCorrect(a);
    var c := Add(a, Octave);
    AddAtLeast(a, Octave);
    AddSubInverse(a, Octave);
    SubOctaveHalves(c);
  }

  // Octave classes. Two positive ratios differ by a power of two exactly when
  // their odd parts agree; the class of num:den is Odd(num):Odd(den).

  predicate SameClass(n1: nat, d1: nat, n2: nat, d2: nat)
  {
    SameRatio(Odd(n1), Odd(d1), Odd(n2), Odd(d2))
  }

  /** Equal ratios are in the same octave class. */
  lemma SameRatioSameClass(n1: nat, d1: nat, n2: nat, d2: nat)
    requires n1 >= 1 && d1 >= 1 && n2 >= 1 && d2 >= 1
    requires SameRatio(n1, d1, n2, d2)
    ensures SameClass(n1, d1, n2, d2)
  {
    OddMul(n1, d2);
    OddMul(n2, d1);
  }

  lemma OddPositive(x: nat)
    requires x >= 1
    ensures Odd(x) >= 1
  {
    OddDecomposition(x);
  }

  lemma ClassTrans(n1: nat, d1: nat, n2: nat, d2: nat, n3: nat, d3: nat)
    requires d2 >= 1 && SameClass(n1, d1, n2, d2) && SameClass(n2, d2, n3, d3)
    ensures SameClass(n1, d1, n3, d3)
  {
    OddPositive(d2);
    RatioTrans(Odd(n1), Odd(d1), Odd(n2), Odd(d2), Odd(n3), Odd(d3));
  }

  /** The class of a product is the product of the classes. */
  lemma ClassMul(n1: nat, d1: nat, n2: nat, d2: nat)
    requires n1 >= 1 && d1 >= 1 && n2 >= 1 && d2 >= 1
    ensures Odd(n1 * n2) == Odd(n1) * Odd(n2) && Odd(d1 * d2) == Odd(d1) * Odd(d2)
  {
    OddMul(n1, n2);
    OddMul(d1, d2);
  }

  /** Two valid intervals in [1/1, 2/1) of the same octave class are equal. */
  lemma ClassUniqueInOctave(a: Interval, b: Interval)
    requires a.Valid() && b.Valid()
    requires Less(a, Octave) && Less(b, Octave)
    requires SameClass(a.num, a.den, b.num, b.den)
    ensures a == b
  {
    var x, y := a.num * b.den, b.num * a.den;
    MulPositive(a.num, b.den);
    MulPositive(b.num, a.den);
    OddMul(a.num, b.den);
    OddMul(b.num, a.den);
    MulComm(Odd(b.num), Odd(a.den));
    // x < 2 * y: a.num < 2 * a.den and b.den <= b.num
    MulStrict(a.num, 2 * a.den, b.den);
    MulLe(b.den, b.num, 2 * a.den);
    MulComm(2 * a.den, b.den);
    MulComm(2 * a.den, b.num);
    MulAssoc(2, a.den, b.num);
    MulComm(a.den, b.num);
    MulStrict(b.num, 2 * b.den, a.den);
    MulLe(a.den, a.num, 2 * b.den);
    MulComm(2 * b.den, a.den);
    MulComm(2 * b.den, a.num);
    MulAssoc(2, b.den, a.num);
    MulComm(b.den, a.num);
    SameOddNear(x, y);
    ValueEquality(a, b);
  }

  /** Composition multiplies the classes. */
  lemma AddClass(a: Interval, b: Interval)
    requires a.Valid() && b.Valid()
    ensures SameClass(Add(a, b).num, Add(a, b).den, a.num * b.num, a.den * b.den)
  {
    var c := Add(a, b);
    MulPositive(a.num, b.num);
    MulPositive(a.den, b.den);
    SameRatioSameClass(c.num, c.den, a.num * b.num, a.den * b.den);
  }

  /** Powers of two do not change the class. */
  lemma ClassDropPow2(n: nat, d: nat, k: nat, x: nat, y: nat)
    requires n >= 1 && d >= 1 && x >= 1 && y >= 1
    requires SameRatio(n, d, Pow2(k) * x, y)
    ensures SameClass(n, d, x, y)
  {
    MulPositive(Pow2(k), x);
    SameRatioSameClass(n, d, Pow2(k) * x, y);
    OddMul(Pow2(k), x);
    OddOfPow2(k);
  }

  /** Decomposition divides the classes; the octaves it adds do not count. */
  lemma SubClass(a: Interval, b: Interval)
    requires a.Valid() && b.Valid()
    ensures SameClass(Sub(a, b).num, Sub(a, b).den, a.num * b.den, a.den * b.num)
  {
    SubValue(a, b);
    MulPositive(a.num, b.den);
    MulPositive(a.den, b.num);
    ClassDropPow2(Sub(a, b).num, Sub(a, b).den, SubOctaves(a, b), a.num * b.den, a.den * b.num);
  }

  /** Reducing into the octave keeps the class. */
  lemma {:induction false} BaseOctaveClass(a: Interval)
    requires a.Valid()
    ensures SameClass(BaseOctaveOf(a).num, BaseOctaveOf(a).den, a.num, a.den)
    decreases a.num - a.den
  {
    if LessEq(Octave, a) {
      SubOctaveHalves(a);
      var h := Sub(a, Octave);
      BaseOctaveClass(h);
      SubClass(a, Octave);
      OddTwice(a.den);
      ClassTrans(BaseOctaveOf(a).num, BaseOctaveOf(a).den, h.num, h.den, a.num * 1, a.den * 2);
    }
  }

  /** The base octave is the one interval in [1/1, 2/1) of a's class. */
  lemma BaseOctaveUnique(a: Interval, b: Interval)
    requires a.Valid() && b.Valid() && Less(b, Octave)
    requires SameClass(a.num, a.den, b.num, b.den)
    ensures BaseOctaveOf(a) == b
  {
    BaseOctaveCorrect(a);
    BaseOctaveClass(a);
    ClassTrans(BaseOctaveOf(a).num, BaseOctaveOf(a).den, a.num, a.den, b.num, b.den);
    ClassUniqueInOctave(BaseOctaveOf(a), b);
  }

  lemma BaseOctaveExamples()
    ensures BaseOctaveOf(Interval(9, 4)) == Interval(9, 8)
    ensures BaseOctaveOf(Octave) == Unison
  {
    ReduceCanonical(9, 8, Interval(9, 8));
    ReduceCanonical(2, 2, Unison);
  }

  /** Superparticular intervals have the form (x + 1):x. */
  predicate IsSuperparticular(a: Interval)
  {
    a.num == a.den + 1
  }

  /** prime_limit: 1 when the base octave is the unison, otherwise the largest
      prime factor of numerator and denominator. max() of the empty
      factorisation of 1 raises ValueError. */
  function PrimeLimitOf(a: Interval): Result<int>
    requires a.Valid()
  {
    if BaseOctaveOf(a) == Unison then Ok(1)
    else
      var nf, df := Factorization(a.num), Factorization(a.den);
      if nf == [] || df == [] then Err(ValueError)
      else Ok(Max(MaxOf(nf), MaxOf(df)))
  }

  /** The base octave is the unison exactly for the powers of two. */
  lemma UnisonBaseOctave(a: Interval)
    requires a.Valid()
    ensures BaseOctaveOf(a) == Unison <==> a.den == 1 && Odd(a.num) == 1
  {
    if BaseOctaveOf(a) == Unison {
      BaseOctaveCorrect(a);
      var k := OctavesAbove(a);
      var p := Pow2(k);
      // a.num == 2^k * a.den, so a.den divides gcd(a.num, a.den) == 1
      assert SameRatio(1 * p, 1, a.num, a.den);
      assert a.num == a.den * p by {
        MulComm(a.den, p);
      }
      MulModZero(a.den, p);
      MulModZero(a.den, 1);
      GcdGreatest(a.num, a.den, a.den);
      assert a.den == 1;
      OddOfPow2(k);
    } else if a.den == 1 && Odd(a.num) == 1 {
      BaseOctaveUnique(a, Unison);
    }
  }

  /** prime_limit fails exactly for whole-number intervals that are not powers
      of two (3:1, say); otherwise it is 1 for powers of two and else the
      largest prime factor of numerator or denominator. */
  lemma PrimeLimitCorrect(a: Interval)
    requires a.Valid()
    ensures PrimeLimitOf(a).Err? <==> a.den == 1 && Odd(a.num) != 1
    ensures PrimeLimitOf(a).Err? ==> PrimeLimitOf(a).error == ValueError
    ensures a.den == 1 && Odd(a.num) == 1 ==> PrimeLimitOf(a) == Ok(1)
    ensures a.den >= 2 ==>
      var factors := Factorization(a.num) + Factorization(a.den);
      PrimeLimitOf(a).Ok? && PrimeLimitOf(a).value in factors &&
      PrimeLimitOf(a).value >= 2 && IsPrime(PrimeLimitOf(a).value) &&
      forall i :: 0 <= i < |factors| ==> factors[i] <= PrimeLimitOf(a).value
  {
    UnisonBaseOctave(a);
    FactorizationCorrect(a.num);
    FactorizationCorrect(a.den);
    if a.den >= 2 {
      var nf, df := Factorization(a.num), Factorization(a.den);
      assert nf != [] && df != [];
      MaxOfConcat(nf, df);
    }
  }

  lemma PrimeLimitExamples()
    ensures PrimeLimitOf(Interval(64, 49)) == Ok(7)
    ensures PrimeLimitOf(Interval(3, 1)) == Err(ValueError)
    ensures PrimeLimitOf(Octave) == Ok(1)
  {
    var a := Interval(64, 49);
    assert a.Valid();
    FactorizationExamples();
    UnisonBaseOctave(a);
    assert PrimeLimitOf(a) == Ok(Max(MaxOf([2, 2, 2, 2, 2, 2]), MaxOf([7, 7])));
    PrimeLimitCorrect(Interval(3, 1));
    PrimeLimitCorrect(Octave);
  }

  /** The exponent the search in primary_interval stops at: the least e at or
      above the start with 2^e >= p. */
  function ExpFrom(p: int, e: nat): (r: nat)
    ensures r >= e && p <= Pow2(r)
    ensures forall j :: e <= j < r ==> Pow2(j) < p
    decreases p - Pow2(e)
  {
    if Pow2(e) < p then ExpFrom(p, e + 1) else e
  }

  /** The power of two the source divides by. The loop guard compares the
      fixed base 2 with 2 ** max_pot_exp, so it runs only when max_pot_exp > 1
      and then stops only on 2^exp >= p. */
  function PotOf(p: int, maxPotExp: int): nat
  {
    if maxPotExp > 1 then Pow2(ExpFrom(p, 2) - 1) else 2
  }

  /** primary_interval(p, sub_harmonic, max_pot_exp). */
  function PrimaryOf(p: int, subHarmonic: bool, maxPotExp: int): Result<Option<Interval>>
  {
    match Make(p, PotOf(p, maxPotExp))
    case Err(e) => Err(e)
    case Ok(i) => if subHarmonic then Ok(Complement(i)) else Ok(Some(i))
  }

  /** primary_interval's loop over the exponent. */
  method PrimaryInterval(p: int, subHarmonic: bool, maxPotExp: int)
    returns (r: Result<Option<Interval>>)
    ensures r == PrimaryOf(p, subHarmonic, maxPotExp)
  {
    var pot := 2;
    var exp: nat := 2;
    while Pow2(exp) < p && maxPotExp > 1
      invariant exp >= 2
      invariant maxPotExp > 1 ==> ExpFrom(p, exp) == ExpFrom(p, 2)
      invariant maxPotExp <= 1 ==> exp == 2
      decreases p - Pow2(exp)
    {
      exp := exp + 1;
    }
    pot := Pow2(exp - 1);
    var i := Make(p, pot);
    if i.Err? {
      return Err(i.error);
    }
    if subHarmonic {
      return Ok(Complement(i.value));
    }
    return Ok(Some(i.value));
  }

  lemma Pow2Positive(k: nat)
    ensures Pow2(k) >= 1 && (k >= 1 ==> Pow2(k) >= 2 && Pow2(k) % 2 == 0)
  {
    if k >= 1 {
      MulModZero(2, Pow2(k - 1));
    }
  }

  /** The generator p : 2^k of a lattice axis, for p >= 2. */
  function Generator(p: int): Interval
    requires p >= 2
  {
    PrimaryFacts(p);
    Reduce(p, Pow2(ExpFrom(p, 2) - 1))
  }

  lemma PrimaryFacts(p: int)
    requires p >= 2
    ensures 2 <= Pow2(ExpFrom(p, 2) - 1) <= p <= 2 * Pow2(ExpFrom(p, 2) - 1)
    ensures p >= 3 ==> Pow2(ExpFrom(p, 2) - 1) < p
  {
    var e := ExpFrom(p, 2);
    Pow2Positive(e - 1);
    if e > 2 {
      assert Pow2(e - 1) < p;
    } else {
      assert Pow2(1) == 2;
    }
  }

  /** primary_interval(p) is p : 2^k with 2^k the largest power of two
      strictly below p (and at least 2), reduced, and within the octave.
      Values of p below 2 raise ValueError. */
  lemma PrimaryCorrect(p: int, subHarmonic: bool)
    ensures p <= 1 ==> PrimaryOf(p, subHarmonic, 500) == Err(ValueError)
    ensures p >= 2 ==> PrimaryOf(p, false, 500) == Ok(Some(Generator(p)))
    ensures p >= 2 ==> PrimaryOf(p, true, 500) == Ok(Complement(Generator(p)))
    ensures p >= 2 ==> LessEq(Generator(p), Octave)
  {
    var pot := Pow2(ExpFrom(p, 2) - 1);
    assert PotOf(p, 500) == pot;
    Pow2Positive(ExpFrom(p, 2) - 1);
    if p >= 2 {
      PrimaryFacts(p);
      GeneratorInOctave(p);
    }
  }

  lemma GeneratorInOctave(p: int)
    requires p >= 2
    ensures Make(p, Pow2(ExpFrom(p, 2) - 1)) == Ok(Generator(p))
    ensures LessEq(Generator(p), Octave)
  {
    PrimaryFacts(p);
    var pot := Pow2(ExpFrom(p, 2) - 1);
    var g := Generator(p);
    RatioLessRight(2, 1, g.num, g.den, p, pot);
    assert !RatioLess(2, 1, p, pot);
  }

  /** For an odd p >= 3 the generator is p : 2^k itself, 2^k < p < 2^(k+1). */
  lemma PrimaryOdd(p: int)
    requires p >= 3 && p % 2 == 1
    ensures var pot := Pow2(ExpFrom(p, 2) - 1);
      2 <= pot < p < 2 * pot && Generator(p) == Interval(p, pot)
  {
    PrimaryFacts(p);
    var pot := Pow2(ExpFrom(p, 2) - 1);
    Pow2Positive(ExpFrom(p, 2) - 1);
    OddCoprimePow2(p, ExpFrom(p, 2) - 1);
    ReduceCanonical(p, pot, Interval(p, pot));
  }

  /** An odd number is coprime to every power of two. */
  lemma OddCoprimePow2(p: nat, k: nat)
    requires p >= 1 && p % 2 == 1
    ensures Gcd(p, Pow2(k)) == 1
  {
    var g := Gcd(p, Pow2(k));
    GcdDividesBoth(p, Pow2(k));
    Pow2Positive(k);
    OddDecomposition(Pow2(k));
    OddOfPow2(k);
    OddDivisorOfPow2(g, k);
    if g != 1 {
      // g is a power of two above 1, so even, and divides the odd p
      ModZeroQuotient(p, g);
      HalfOfEven(g, p / g);
    }
  }

  /** Odd divisors of powers of two are 1... and every divisor is a power of two. */
  lemma OddDivisorOfPow2(g: nat, k: nat)
    requires g >= 1 && Pow2(k) % g == 0
    ensures g == 1 || g % 2 == 0
  {
    if g % 2 == 1 && g != 1 {
      Pow2Positive(k);
      EuclidOnPow2(g, k);
    }
  }

  /** An odd g > 1 never divides 2^k. */
  lemma {:induction false} EuclidOnPow2(g: nat, k: nat)
    requires g >= 1 && g % 2 == 1 && Pow2(k) % g == 0
    ensures g == 1
  {
    if k == 0 {
      MultipleAtLeast(1, g);
    } else {
      // gcd(g, 2) == 1, so g divides 2 * 2^(k-1) only if it divides 2^(k-1)
      assert Gcd(g, 2) == 1 by {
        GcdDividesBoth(g, 2);
        var h := Gcd(g, 2);
        MultipleAtLeast(2, h);
      }
      MulComm(2, Pow2(k - 1));
      EuclidLemma(g, 2, Pow2(k - 1));
      EuclidOnPow2(g, k - 1);
    }
  }

  lemma PrimaryExamples()
    ensures PrimaryOf(7, false, 500) == Ok(Some(Interval(7, 4)))
    ensures PrimaryOf(19, false, 500) == Ok(Some(Interval(19, 16)))
    ensures PrimaryOf(3, true, 500) == Ok(Some(Interval(4, 3)))
  {
    PrimaryCorrect(7, false);
    PrimaryOdd(7);
    assert ExpFrom(7, 2) == 3;
    PrimaryCorrect(19, false);
    PrimaryOdd(19);
    assert ExpFrom(19, 2) == 5;
    PrimaryCorrect(3, true);
    PrimaryOdd(3);
    assert ExpFrom(3, 2) == 2;
    assert Generator(3) == Interval(3, 2);
    ComplementThreeHalves();
  }

  lemma ComplementThreeHalves()
    ensures Complement(Interval(3, 2)) == Some(Interval(4, 3))
  {
    ReduceCanonical(4, 3, Interval(4, 3));
  }
}
