/** Dividing a just interval into smaller steps: the naive division `/` into
    superparticular steps, and the bounded search `divisions` for steps whose
    endpoints avoid primes above a limit. */
module Divisions {
  import opened NumberTheory
  import opened Results
  import opened Primes
  import opened Intervals
  import opened Compositions

  // Naive division.

  /** The factor _prepare_division scales the interval by. */
  function DivisionFactor(a: Interval, n: int): int
    requires a.Valid() && (IsSuperparticular(a) || a.num != a.den)
  {
    if IsSuperparticular(a) then n else n / (a.num - a.den)
  }

  /** _prepare_division: a superparticular interval is scaled by n, any other
      by n / (num - den), which must divide evenly. */
  function PrepareDivision(a: Interval, n: int): Result<(int, int)>
    requires a.Valid()
  {
    if !IsSuperparticular(a) then
      if a.num - a.den == 0 then Err(ZeroDivisionError)
      else if n % (a.num - a.den) != 0 then Err(ValueError)
      else Ok((a.num * DivisionFactor(a, n), a.den * DivisionFactor(a, n)))
    else Ok((a.num * n, a.den * n))
  }

  lemma GcdConsecutive(k: int)
    requires k >= 2
    ensures Gcd(k, k - 1) == 1
  {
    if k > 2 {
      DivModUnique(k, k - 1, 1, 1);
      assert Gcd(k, k - 1) == Gcd(k - 1, 1);
      assert Gcd(k - 1, 1) == Gcd(1, 0);
    }
  }

  /** The interval k : k - 1. */
  function Step(k: int): (r: Interval)
    requires k >= 2
    ensures r == Interval(k, k - 1) && r.Valid() && IsSuperparticular(r)
  {
    GcdConsecutive(k);
    ReduceCanonical(k, k - 1, Interval(k, k - 1));
    Reduce(k, k - 1)
  }

  /** [JustInterval(k, k - 1) for k in range(lo, hi + 1)]. */
  function StepsUp(lo: int, hi: int): (r: seq<Interval>)
    requires lo >= 2 || hi < lo
    ensures AllValid(r)
    decreases hi - lo
  {
    if hi < lo then [] else StepsUp(lo, hi - 1) + [Step(hi)]
  }

  /** a / n: the steps between the scaled endpoints, sorted by value. */
  function Div(a: Interval, n: int): Result<seq<Interval>>
    requires a.Valid()
  {
    match PrepareDivision(a, n)
    case Err(e) => Err(e)
    case Ok((num, den)) =>
      PrepareShape(a, n);
      Ok(Sort(StepsUp(den + 1, num)))
  }

  /** A factor below 1 leaves no room between the endpoints; otherwise the
      lower endpoint is at least 1. */
  lemma PrepareShape(a: Interval, n: int)
    requires a.Valid() && PrepareDivision(a, n).Ok?
    ensures var f := DivisionFactor(a, n);
      PrepareDivision(a, n).value == (a.num * f, a.den * f) &&
      (f >= 1 ==> a.den * f >= 1) && (f <= 0 ==> a.num * f <= a.den * f)
  {
    var f := DivisionFactor(a, n);
    if f >= 1 {
      MulPositive(a.den, f);
    } else {
      MulLe(f * 1, 0, a.num - a.den);
      MulComm(f, a.num - a.den);
    }
  }

  lemma {:induction false} StepsUpIndex(lo: int, hi: int)
    requires lo >= 2 || hi < lo
    ensures |StepsUp(lo, hi)| == if hi < lo then 0 else hi - lo + 1
    ensures forall j :: 0 <= j < |StepsUp(lo, hi)| ==> StepsUp(lo, hi)[j] == Interval(lo + j, lo + j - 1)
    decreases hi - lo
  {
    if hi >= lo {
      StepsUpIndex(lo, hi - 1);
    }
  }

  /** A larger k gives a smaller step k : k - 1. */
  lemma StepsShrink(j: int, k: int)
    requires 2 <= j < k
    ensures Less(Step(k), Step(j))
  {
    assert k * (j - 1) == k * j - k;
    assert j * (k - 1) == j * k - j;
  }

  lemma StepsUpDecreasing(lo: int, hi: int)
    requires lo >= 2 || hi < lo
    ensures StrictlyDecreasing(StepsUp(lo, hi))
  {
    StepsUpIndex(lo, hi);
    var s := StepsUp(lo, hi);
    forall i, j | 0 <= i < j < |s|
      ensures Less(s[j], s[i])
    {
      assert s[i] == Step(lo + i) && s[j] == Step(lo + j);
      StepsShrink(lo + i, lo + j);
    }
  }

  /** The steps telescope: their composition is hi : lo - 1. */
  lemma {:induction false} ComposeSteps(lo: int, hi: int)
    requires 2 <= lo <= hi + 1
    ensures Compose(StepsUp(lo, hi)) == Reduce(hi, lo - 1)
    decreases hi - lo
  {
    if hi < lo {
      ReduceCanonical(hi, hi, Unison);
    } else {
      var s := StepsUp(lo, hi - 1);
      assert StepsUp(lo, hi)[..|s|] == s;
      ComposeSteps(lo, hi - 1);
      var p := Reduce(hi - 1, lo - 1);
      var x := Step(hi);
      ReduceCanonical(hi, hi - 1, x);
      AddCommutative(p, x);
      AddReduce(hi, hi - 1, lo - 1);
    }
  }

  /** The sorted steps between lo - 1 and hi run from hi : hi - 1 down to
      lo : lo - 1. */
  lemma SortedStepsIndex(lo: int, hi: int)
    requires 2 <= lo <= hi + 1
    ensures var r := Sort(StepsUp(lo, hi));
      |r| == hi - lo + 1 && forall i :: 0 <= i < |r| ==> r[i] == Interval(hi - i, hi - i - 1)
  {
    var s := StepsUp(lo, hi);
    StepsUpDecreasing(lo, hi);
    SortDecreasing(s);
    StepsUpIndex(lo, hi);
  }

  /** ... and so they ascend strictly by value. */
  lemma SortedStepsAscending(lo: int, hi: int)
    requires 2 <= lo <= hi + 1
    ensures var r := Sort(StepsUp(lo, hi));
      forall i, j :: 0 <= i < j < |r| ==> Less(r[i], r[j])
  {
    SortedStepsIndex(lo, hi);
    var r := Sort(StepsUp(lo, hi));
    forall i, j | 0 <= i < j < |r|
      ensures Less(r[i], r[j])
    {
      StepsShrink(hi - j, hi - i);
    }
  }

  /** ... and compose to hi : lo - 1. */
  lemma SortedStepsCompose(lo: int, hi: int)
    requires 2 <= lo <= hi + 1
    ensures AllValid(Sort(StepsUp(lo, hi)))
    ensures Compose(Sort(StepsUp(lo, hi))) == Reduce(hi, lo - 1)
  {
    ComposeSort(StepsUp(lo, hi));
    ComposeSteps(lo, hi);
  }

  /** The errors of a / n: 1:1 divides by zero, and a non-superparticular
      interval needs n to be a multiple of num - den. */
  lemma DivErrors(a: Interval, n: int)
    requires a.Valid()
    ensures a == Unison ==> Div(a, n) == Err(ZeroDivisionError)
    ensures !IsSuperparticular(a) && a.num != a.den && n % (a.num - a.den) != 0 ==>
      Div(a, n) == Err(ValueError)
    ensures Div(a, n).Ok? <==> IsSuperparticular(a) || (a.num != a.den && n % (a.num - a.den) == 0)
  {
    if a.num == a.den {
      assert Gcd(a.num, a.num) == a.num by {
        assert a.num % a.num == 0;
      }
    }
  }

  /** a / n with a positive factor f is the f * (num - den) steps k : k - 1
      from num * f down to den * f + 1, ascending by value, and they compose
      to a; a factor below 1 gives no steps. */
  lemma DivCorrect(a: Interval, n: int)
    requires a.Valid() && Div(a, n).Ok?
    ensures DivisionFactor(a, n) <= 0 ==> Div(a, n).value == []
    ensures DivisionFactor(a, n) >= 1 ==>
      var f, r := DivisionFactor(a, n), Div(a, n).value;
      AllValid(r) && |r| == a.num * f - a.den * f &&
      (forall i :: 0 <= i < |r| ==> r[i] == Interval(a.num * f - i, a.num * f - i - 1)) &&
      (forall i, j :: 0 <= i < j < |r| ==> Less(r[i], r[j])) &&
      Compose(r) == a
  {
    PrepareShape(a, n);
    var f := DivisionFactor(a, n);
    var lo, hi := a.den * f + 1, a.num * f;
    assert Div(a, n).value == Sort(StepsUp(lo, hi));
    if f >= 1 {
      MulLe(a.den, a.num, f);
      SortedStepsIndex(lo, hi);
      SortedStepsAscending(lo, hi);
      SortedStepsCompose(lo, hi);
      RatioScale(a.num, a.den, f);
      ReduceCanonical(hi, lo - 1, a);
    }
  }

  lemma DivOctaveIntoTwo()
    ensures Div(Octave, 2) == Ok([Interval(4, 3), Interval(3, 2)])
  {
    assert PrepareDivision(Octave, 2) == Ok((4, 2));
    SortedStepsIndex(3, 4);
    var r := Sort(StepsUp(3, 4));
    assert r == [r[0], r[1]];
  }

  lemma DivOctaveIntoThree()
    ensures Div(Octave, 3) == Ok([Interval(6, 5), Interval(5, 4), Interval(4, 3)])
  {
    assert PrepareDivision(Octave, 3) == Ok((6, 3));
    SortedStepsIndex(4, 6);
    var r := Sort(StepsUp(4, 6));
    assert r == [r[0], r[1], r[2]];
  }

  /** 7/4 is not superparticular: dividing into 3 scales by 3 / 3 == 1. */
  lemma DivSevenFourths()
    ensures Div(Interval(7, 4), 3) == Ok([Interval(7, 6), Interval(6, 5), Interval(5, 4)])
    ensures Div(Interval(7, 4), 2) == Err(ValueError)
  {
    var a := Interval(7, 4);
    assert a.Valid();
    assert !IsSuperparticular(a);
    assert PrepareDivision(a, 3) == Ok((7, 4));
    SortedStepsIndex(5, 7);
    var r := Sort(StepsUp(5, 7));
    assert r == [r[0], r[1], r[2]];
  }

  /** The superparticular intervals are exactly the steps k/(k - 1), and
      dividing one into a single part gives it back. */
  lemma SuperparticularSteps(a: Interval)
    requires a.Valid()
    ensures IsSuperparticular(a) <==> a.den + 1 >= 2 && a == Step(a.den + 1)
    ensures IsSuperparticular(a) ==> Div(a, 1) == Ok([a])
  {
    if IsSuperparticular(a) {
      assert PrepareDivision(a, 1) == Ok((a.num, a.den));
      SortedStepsIndex(a.den + 1, a.num);
    }
  }

  /** is_superparticular on the doctest's fifth and on two other intervals. */
  lemma SuperparticularExamples()
    ensures IsSuperparticular(Interval(3, 2)) && IsSuperparticular(Interval(9, 8))
    ensures !IsSuperparticular(Interval(9, 4)) && !IsSuperparticular(Unison)
  {
  }

  // The search for divisions within a prime limit.

  /** Composing x : y with y : z gives x : z. */
  lemma AddReduce(x: int, y: int, z: int)
    requires 1 <= z <= y <= x
    ensures Add(Reduce(x, y), Reduce(y, z)) == Reduce(x, z)
  {
    var p, q := Reduce(x, y), Reduce(y, z);
    var c := Add(p, q);
    AddValue(p, q);
    RatioMul(p.num, p.den, x, y, q.num, q.den, y, z);
    MulPositive(p.den, q.den);
    RatioTrans(c.num, c.den, p.num * q.num, p.den * q.den, x * y, y * z);
    RatioScale(x, z, y);
    MulComm(z, y);
    MulPositive(z, y);
    RatioTrans(c.num, c.den, x * y, y * z, x, z);
    ReduceCanonical(x, z, c);
  }

  /** A number the search removes from its range: a prime above the limit. */
  predicate Dropped(k: int, limit: int)
  {
    IsPrime(k) && k > limit
  }

  /** range(lo, hi + 1) with the primes above the limit removed. */
  function Kept(lo: int, hi: int, limit: int): seq<int>
    decreases hi - lo
  {
    if hi < lo then [] else Kept(lo, hi - 1, limit) + (if Dropped(hi, limit) then [] else [hi])
  }

  /** The kept range for one trial factor: from den * factor to num * factor. */
  function DivRange(a: Interval, factor: int, limit: int): seq<int>
  {
    Kept(a.den * factor, a.num * factor, limit)
  }

  /** Trial i succeeds when its kept range has divisor + 1 numbers. */
  predicate Fits(a: Interval, divisor: int, limit: int, i: int)
  {
    |DivRange(a, divisor + i, limit)| == divisor + 1
  }

  /** The trial the search stops at, looking from trial i on: the first that
      fits, or the last one allowed. */
  function StopFrom(a: Interval, divisor: int, limit: int, i: int, maxIt: int): (j: int)
    requires 0 <= i <= maxIt
    ensures i <= j <= maxIt
    decreases maxIt - i
  {
    if Fits(a, divisor, limit, i) || i == maxIt then i
    else StopFrom(a, divisor, limit, i + 1, maxIt)
  }

  /** The range the search settles on; with no trial at all it stays empty. */
  function Search(a: Interval, divisor: int, limit: int, maxIt: int): seq<int>
  {
    if maxIt < 0 then []
    else DivRange(a, divisor + StopFrom(a, divisor, limit, 0, maxIt), limit)
  }

  /** Each neighbouring pair of the reversed range made an interval, from the
      left; the first constructor that fails ends the walk. */
  function Pairs(rev: seq<int>): Result<seq<Interval>>
    decreases |rev|
  {
    if |rev| < 2 then Ok([])
    else match Pairs(rev[..|rev| - 1])
      case Err(e) => Err(e)
      case Ok(p) =>
        match Make(rev[|rev| - 2], rev[|rev| - 1])
        case Err(e) => Err(e)
        case Ok(x) => Ok(p + [x])
  }

  /** divisions(divisor, prime_limit, max_iterations). */
  function DivisionsOf(a: Interval, divisor: int, limit: int, maxIt: int): Result<seq<Interval>>
  {
    if !IsPrime(limit) then Err(ValueError)
    else match Pairs(Reverse(Search(a, divisor, limit, maxIt)))
      case Err(e) => Err(e)
      case Ok(p) => Ok(Sort(p))
  }

  /** Whatever the walk yields are constructed intervals, hence valid. */
  lemma {:induction false} PairsValid(rev: seq<int>)
    requires Pairs(rev).Ok?
    ensures AllValid(Pairs(rev).value)
    decreases |rev|
  {
    if |rev| >= 2 {
      PairsValid(rev[..|rev| - 1]);
      MakeCorrect(rev[|rev| - 2], rev[|rev| - 1]);
    }
  }

  /** Every list divisions returns holds valid intervals. */
  lemma DivisionsValid(a: Interval, divisor: int, limit: int, maxIt: int)
    requires DivisionsOf(a, divisor, limit, maxIt).Ok?
    ensures AllValid(DivisionsOf(a, divisor, limit, maxIt).value)
  {
    var rev := Reverse(Search(a, divisor, limit, maxIt));
    PairsValid(rev);
    SortCorrect(Pairs(rev).value);
  }

  /** Once a prefix of the walk fails, the whole walk fails the same way. */
  lemma {:induction false} PairsPrefixErr(s: seq<int>, k: int)
    requires 2 <= k <= |s| && Pairs(s[..k]).Err?
    ensures Pairs(s) == Pairs(s[..k])
    decreases |s|
  {
    if k < |s| {
      var s' := s[..|s| - 1];
      assert s'[..k] == s[..k];
      PairsPrefixErr(s', k);
    } else {
      assert s[..k] == s;
    }
  }

  /** The filtering pass over range(lo, hi + 1). */
  method KeptRange(lo: int, hi: int, limit: int) returns (range: seq<int>)
    ensures range == Kept(lo, hi, limit)
  {
    range := [];
    var k := lo;
    while k <= hi
      invariant k >= lo && (k == lo || k <= hi + 1)
      invariant range == Kept(lo, k - 1, limit)
      decreases hi - k
    {
      var p := CheckPrime(k);
      IsPrimeMeaning(k);
      if !(p && k > limit) {
        range := range + [k];
      }
      k := k + 1;
    }
  }

  /** The walk over neighbouring pairs; the IndexError at the last number is
      the loop's end. */
  method WalkPairs(rev: seq<int>) returns (r: Result<seq<Interval>>)
    ensures r == Pairs(rev)
  {
    var divisions: seq<Interval> := [];
    var j := 0;
    while j < |rev|
      invariant 0 <= j <= |rev|
      invariant j < |rev| ==> Pairs(rev[..j + 1]) == Ok(divisions)
      invariant j == |rev| ==> Pairs(rev) == Ok(divisions)
    {
      if j + 1 < |rev| {
        assert rev[..j + 2][..j + 1] == rev[..j + 1];
        var x := Make(rev[j], rev[j + 1]);
        if x.Err? {
          PairsPrefixErr(rev, j + 2);
          return Err(x.error);
        }
        divisions := divisions + [x.value];
      } else {
        assert rev[..j + 1] == rev;
      }
      j := j + 1;
    }
    r := Ok(divisions);
  }

  /** divisions, as the source runs it: the trial loop, the reversal and the
      walk over neighbouring pairs, then sorting. */
  method Divisions(a: Interval, divisor: int, limit: int, maxIt: int) returns (r: Result<seq<Interval>>)
    ensures r == DivisionsOf(a, divisor, limit, maxIt)
  {
    var limitIsPrime := CheckPrime(limit);
    IsPrimeMeaning(limit);
    if !limitIsPrime {
      return Err(ValueError);
    }
    var factor := divisor;
    var range: seq<int> := [];
    var i := 0;
    while i <= maxIt
      invariant 0 <= i && factor == divisor + i
      invariant i <= maxIt ==> StopFrom(a, divisor, limit, i, maxIt) == StopFrom(a, divisor, limit, 0, maxIt)
      invariant i > maxIt ==> range == Search(a, divisor, limit, maxIt)
      decreases maxIt - i
    {
      range := KeptRange(a.den * factor, a.num * factor, limit);
      if |range| != divisor + 1 {
        factor := factor + 1;
        i := i + 1;
      } else {
        break;
      }
    }
    var pairs := WalkPairs(Reverse(range));
    if pairs.Err? {
      return Err(pairs.error);
    }
    r := Ok(Sort(pairs.value));
  }

  // What the search computes.

  /** The kept range holds exactly the numbers of [lo, hi] that are not primes
      above the limit, in increasing order. */
  lemma {:induction false} KeptMembers(lo: int, hi: int, limit: int)
    ensures forall x :: x in Kept(lo, hi, limit) <==> lo <= x <= hi && !Dropped(x, limit)
    ensures StrictlyIncreasing(Kept(lo, hi, limit))
    ensures |Kept(lo, hi, limit)| <= if hi < lo then 0 else hi - lo + 1
    decreases hi - lo
  {
    if hi >= lo {
      KeptMembers(lo, hi - 1, limit);
      var k := Kept(lo, hi, limit);
      forall i, j | 0 <= i < j < |k|
        ensures k[i] < k[j]
      {
        if j == |k| - 1 && !Dropped(hi, limit) {
          assert k[i] in Kept(lo, hi - 1, limit);
        }
      }
    }
  }

  /** The shape of the kept range the later lemmas use. */
  lemma KeptShape(lo: int, hi: int, limit: int)
    ensures StrictlyIncreasing(Kept(lo, hi, limit))
    ensures |Kept(lo, hi, limit)| <= if hi < lo then 0 else hi - lo + 1
    ensures |Kept(lo, hi, limit)| > 0 ==> Kept(lo, hi, limit)[0] >= lo
  {
    KeptMembers(lo, hi, limit);
    if |Kept(lo, hi, limit)| > 0 {
      assert Kept(lo, hi, limit)[0] in Kept(lo, hi, limit);
    }
  }

  /** A kept lower end comes first. */
  lemma {:induction false} KeptFirst(lo: int, hi: int, limit: int)
    requires lo <= hi && !Dropped(lo, limit)
    ensures |Kept(lo, hi, limit)| > 0 && Kept(lo, hi, limit)[0] == lo
    decreases hi - lo
  {
    if hi > lo {
      KeptFirst(lo, hi - 1, limit);
    }
  }

  /** The search stops at a trial that fits, or at the last one, and every
      trial before the stop failed. */
  lemma {:induction false} StopFromCorrect(a: Interval, divisor: int, limit: int, i: int, maxIt: int)
    requires 0 <= i <= maxIt
    ensures var j := StopFrom(a, divisor, limit, i, maxIt);
      (Fits(a, divisor, limit, j) || j == maxIt) &&
      forall k :: i <= k < j ==> !Fits(a, divisor, limit, k)
    decreases maxIt - i
  {
    if !Fits(a, divisor, limit, i) && i < maxIt {
      StopFromCorrect(a, divisor, limit, i + 1, maxIt);
    }
  }

  /** The search settles on the first trial factor that fits. */
  lemma SearchFound(a: Interval, divisor: int, limit: int, maxIt: int, j: int)
    requires 0 <= j <= maxIt && Fits(a, divisor, limit, j)
    requires forall k :: 0 <= k < j ==> !Fits(a, divisor, limit, k)
    ensures StopFrom(a, divisor, limit, 0, maxIt) == j
    ensures Search(a, divisor, limit, maxIt) == DivRange(a, divisor + j, limit)
  {
    StopFromCorrect(a, divisor, limit, 0, maxIt);
  }

  /** When no trial fits, the search keeps the range of the last trial. */
  lemma SearchGivesUp(a: Interval, divisor: int, limit: int, maxIt: int)
    requires maxIt >= 0
    requires forall k :: 0 <= k <= maxIt ==> !Fits(a, divisor, limit, k)
    ensures StopFrom(a, divisor, limit, 0, maxIt) == maxIt
    ensures Search(a, divisor, limit, maxIt) == DivRange(a, divisor + maxIt, limit)
  {
    StopFromCorrect(a, divisor, limit, 0, maxIt);
  }

  predicate Descending(s: seq<int>)
  {
    forall i, j :: 0 <= i < j < |s| ==> s[j] < s[i]
  }

  /** On a descending list of positive numbers the walk never fails: it
      yields x : y for each neighbouring x, y. */
  lemma {:induction false} PairsCorrect(rev: seq<int>)
    requires Descending(rev) && (|rev| > 0 ==> rev[|rev| - 1] >= 1)
    ensures Pairs(rev).Ok? && AllValid(Pairs(rev).value)
    ensures |Pairs(rev).value| == if |rev| == 0 then 0 else |rev| - 1
    ensures forall i :: 0 <= i < |Pairs(rev).value| ==>
      Pairs(rev).value[i] == Reduce(rev[i], rev[i + 1])
    decreases |rev|
  {
    if |rev| >= 2 {
      var s := rev[..|rev| - 1];
      assert Descending(s);
      PairsCorrect(s);
    }
  }

  /** ... and the pairs telescope to first : last. */
  lemma {:induction false} PairsCompose(rev: seq<int>)
    requires Descending(rev) && |rev| > 0 && rev[|rev| - 1] >= 1
    ensures Pairs(rev).Ok? && AllValid(Pairs(rev).value)
    ensures Compose(Pairs(rev).value) == Reduce(rev[0], rev[|rev| - 1])
    decreases |rev|
  {
    PairsCorrect(rev);
    if |rev| == 1 {
      ReduceCanonical(rev[0], rev[0], Unison);
    } else {
      var s := rev[..|rev| - 1];
      assert Descending(s);
      PairsCompose(s);
      var p := Pairs(s).value;
      var x := Reduce(rev[|rev| - 2], rev[|rev| - 1]);
      assert Pairs(rev).value == p + [x];
      assert (p + [x])[..|p|] == p;
      AddReduce(rev[0], rev[|rev| - 2], rev[|rev| - 1]);
    }
  }

  lemma IncreasingReversed(s: seq<int>)
    requires StrictlyIncreasing(s)
    ensures Descending(Reverse(s))
    ensures |s| > 0 ==> Reverse(s)[0] == s[|s| - 1] && Reverse(s)[|s| - 1] == s[0]
  {
    var r := Reverse(s);
    forall i, j | 0 <= i < j < |r|
      ensures r[j] < r[i]
    {
      assert r[i] == s[|s| - 1 - i] && r[j] == s[|s| - 1 - j];
    }
  }

  /** The divisions of an increasing range of positive numbers: one fewer
      than the numbers, ascending by value, a permutation of the neighbouring
      pairs, composing to last : first. */
  lemma RangeDivisions(rng: seq<int>)
    requires StrictlyIncreasing(rng) && (|rng| > 0 ==> rng[0] >= 1)
    ensures var p := Pairs(Reverse(rng));
      p.Ok? &&
      var r := Sort(p.value);
      |r| == (if |rng| == 0 then 0 else |rng| - 1) &&
      AllValid(r) && Sorted(r) && multiset(r) == multiset(p.value) &&
      (|rng| > 0 ==> Compose(r) == Reduce(rng[|rng| - 1], rng[0]))
  {
    IncreasingReversed(rng);
    var rev := Reverse(rng);
    PairsCorrect(rev);
    var p := Pairs(rev).value;
    SortCorrect(p);
    assert |Sort(p)| == |multiset(Sort(p))| == |multiset(p)| == |p|;
    if |rng| > 0 {
      PairsCompose(rev);
      ComposeSort(p);
    }
  }

  /** With a prime limit and a positive stopping factor f, divisions is the
      sorted walk over the kept range of f. */
  lemma DivisionsOfRange(a: Interval, divisor: int, limit: int, maxIt: int, f: int)
    requires a.Valid() && IsPrime(limit) && maxIt >= 0
    requires f == divisor + StopFrom(a, divisor, limit, 0, maxIt) && f >= 1
    ensures var rng := DivRange(a, f, limit);
      StrictlyIncreasing(rng) && (|rng| > 0 ==> rng[0] >= 1) &&
      Pairs(Reverse(rng)).Ok? &&
      DivisionsOf(a, divisor, limit, maxIt) == Ok(Sort(Pairs(Reverse(rng)).value))
  {
    KeptShape(a.den * f, a.num * f, limit);
    MulPositive(a.den, f);
    IncreasingReversed(DivRange(a, f, limit));
    PairsCorrect(Reverse(DivRange(a, f, limit)));
  }

  /** With a prime limit, divisions never fails: the range of a positive
      factor starts at den * factor >= 1, and any other factor leaves at
      most one number. */
  lemma DivisionsTotal(a: Interval, divisor: int, limit: int, maxIt: int)
    requires a.Valid()
    ensures DivisionsOf(a, divisor, limit, maxIt).Ok? <==> IsPrime(limit)
  {
    if IsPrime(limit) && maxIt >= 0 {
      var f := divisor + StopFrom(a, divisor, limit, 0, maxIt);
      var rng := DivRange(a, f, limit);
      assert Search(a, divisor, limit, maxIt) == rng;
      if f >= 1 {
        DivisionsOfRange(a, divisor, limit, maxIt, f);
      } else {
        var lo, hi := a.den * f, a.num * f;
        KeptShape(lo, hi, limit);
        MulLe(f, 0, a.num - a.den);
        MulComm(f, a.num - a.den);
        MulSub(a.num, a.den, f);
        assert hi <= lo;
        assert |rng| <= 1;
        assert Pairs(Reverse(rng)) == Ok([]);
      }
    }
  }

  /** When trial j is the first that fits, divisions yields exactly divisor
      intervals, ascending by value: the neighbouring pairs of the kept range
      of factor divisor + j, sorted. */
  lemma DivisionsFound(a: Interval, divisor: int, limit: int, maxIt: int, j: int)
    requires a.Valid() && IsPrime(limit) && divisor >= 1
    requires 0 <= j <= maxIt && Fits(a, divisor, limit, j)
    requires forall k :: 0 <= k < j ==> !Fits(a, divisor, limit, k)
    ensures var r, rng := DivisionsOf(a, divisor, limit, maxIt), DivRange(a, divisor + j, limit);
      r.Ok? && Pairs(Reverse(rng)).Ok? && r.value == Sort(Pairs(Reverse(rng)).value) &&
      |r.value| == divisor && AllValid(r.value) && Sorted(r.value) &&
      multiset(r.value) == multiset(Pairs(Reverse(rng)).value)
  {
    SearchFound(a, divisor, limit, maxIt, j);
    FoundRange(a, divisor, limit, maxIt, j);
    RangeDivisions(DivRange(a, divisor + j, limit));
  }

  /** The kept range the search settles on when trial j is the first that
      fits: increasing, positive, divisor + 1 numbers long. */
  lemma FoundRange(a: Interval, divisor: int, limit: int, maxIt: int, j: int)
    requires a.Valid() && IsPrime(limit) && divisor >= 1 && maxIt >= 0
    requires StopFrom(a, divisor, limit, 0, maxIt) == j && Fits(a, divisor, limit, j)
    ensures var rng := DivRange(a, divisor + j, limit);
      StrictlyIncreasing(rng) && |rng| == divisor + 1 && rng[0] >= 1 &&
      Pairs(Reverse(rng)).Ok? && DivisionsOf(a, divisor, limit, maxIt) == Ok(Sort(Pairs(Reverse(rng)).value))
  {
    var rng := DivRange(a, divisor + j, limit);
    assert |rng| == divisor + 1 by {
      assert Fits(a, divisor, limit, j);
    }
    DivisionsOfRange(a, divisor, limit, maxIt, divisor + j);
  }

  /** ... composing to the span of that range ... */
  lemma DivisionsSpan(a: Interval, divisor: int, limit: int, maxIt: int, j: int)
    requires a.Valid() && IsPrime(limit) && divisor >= 1
    requires 0 <= j <= maxIt && Fits(a, divisor, limit, j)
    requires forall k :: 0 <= k < j ==> !Fits(a, divisor, limit, k)
    ensures var r, rng := DivisionsOf(a, divisor, limit, maxIt), DivRange(a, divisor + j, limit);
      r.Ok? && AllValid(r.value) && 1 <= rng[0] <= rng[|rng| - 1] &&
      Compose(r.value) == Reduce(rng[|rng| - 1], rng[0])
  {
    SearchFound(a, divisor, limit, maxIt, j);
    FoundRange(a, divisor, limit, maxIt, j);
    var rng := DivRange(a, divisor + j, limit);
    RangeDivisions(rng);
    assert rng[0] <= rng[|rng| - 1];
  }

  /** ... which, when neither end is a prime above the limit, is the interval
      itself. */
  lemma DivisionsComposeBack(a: Interval, divisor: int, limit: int, maxIt: int, j: int, r: seq<Interval>)
    requires a.Valid() && IsPrime(limit) && divisor >= 1
    requires 0 <= j <= maxIt && Fits(a, divisor, limit, j)
    requires forall k :: 0 <= k < j ==> !Fits(a, divisor, limit, k)
    requires !Dropped(a.den * (divisor + j), limit) && !Dropped(a.num * (divisor + j), limit)
    requires DivisionsOf(a, divisor, limit, maxIt) == Ok(r)
    ensures AllValid(r) && Compose(r) == a
  {
    DivisionsSpan(a, divisor, limit, maxIt, j);
    EndsKept(a, divisor + j, limit);
  }

  /** The kept range of a positive factor whose ends are both kept spans a. */
  lemma EndsKept(a: Interval, f: int, limit: int)
    requires a.Valid() && f >= 1
    requires !Dropped(a.den * f, limit) && !Dropped(a.num * f, limit)
    ensures var rng := DivRange(a, f, limit);
      |rng| > 0 && rng[0] == a.den * f && rng[|rng| - 1] == a.num * f &&
      Reduce(rng[|rng| - 1], rng[0]) == a
  {
    var lo, hi := a.den * f, a.num * f;
    MulPositive(a.den, f);
    MulLe(a.den, a.num, f);
    KeptFirst(lo, hi, limit);
    RatioScale(a.num, a.den, f);
    ReduceCanonical(hi, lo, a);
  }

  /** When no trial fits, divisions gives up with a result of the wrong
      length, taken from the last trial factor. */
  lemma DivisionsGiveUp(a: Interval, divisor: int, limit: int, maxIt: int)
    requires a.Valid() && IsPrime(limit) && divisor >= 1 && maxIt >= 0
    requires forall k :: 0 <= k <= maxIt ==> !Fits(a, divisor, limit, k)
    ensures var r := DivisionsOf(a, divisor, limit, maxIt);
      r.Ok? && |r.value| != divisor && Sorted(r.value)
  {
    var f := divisor + maxIt;
    var rng := DivRange(a, f, limit);
    assert |rng| != divisor + 1 by {
      assert !Fits(a, divisor, limit, maxIt);
    }
    SearchGivesUp(a, divisor, limit, maxIt);
    DivisionsOfRange(a, divisor, limit, maxIt, f);
    WrongLength(rng, divisor);
  }

  /** A range of any length but divisor + 1 gives sorted divisions of a
      length other than divisor. */
  lemma WrongLength(rng: seq<int>, divisor: int)
    requires StrictlyIncreasing(rng) && (|rng| > 0 ==> rng[0] >= 1)
    requires divisor >= 1 && |rng| != divisor + 1
    ensures Pairs(Reverse(rng)).Ok?
    ensures var r := Sort(Pairs(Reverse(rng)).value); |r| != divisor && Sorted(r)
  {
    RangeDivisions(rng);
  }

  // The documented examples.

  lemma SmallPrimes()
    ensures IsPrime(5) && IsPrime(7) && IsPrime(31)
    ensures !IsPrime(4) && !IsPrime(6) && !IsPrime(8) && !IsPrime(9) && !IsPrime(10)
    ensures !IsPrime(30) && !IsPrime(32)
  {
    IsPrimeExamples();
    assert 9 % 3 == 0;
  }

  lemma OctaveRanges()
    ensures DivRange(Octave, 4, 5) == [4, 5, 6, 8]
    ensures DivRange(Octave, 5, 5) == [5, 6, 8, 9, 10]
  {
    SmallPrimes();
    assert Kept(4, 4, 5) == [4];
    assert Kept(4, 5, 5) == [4, 5];
    assert Kept(4, 6, 5) == [4, 5, 6];
    assert Kept(4, 7, 5) == [4, 5, 6];
    assert Kept(4, 8, 5) == [4, 5, 6, 8];
    assert Kept(5, 5, 5) == [5];
    assert Kept(5, 6, 5) == [5, 6];
    assert Kept(5, 7, 5) == [5, 6];
    assert Kept(5, 8, 5) == [5, 6, 8];
    assert Kept(5, 9, 5) == [5, 6, 8, 9];
    assert Kept(5, 10, 5) == [5, 6, 8, 9, 10];
  }

  lemma OctavePairs()
    ensures Pairs([10, 9, 8, 6, 5]) == Ok([Interval(10, 9), Interval(9, 8), Interval(4, 3), Interval(6, 5)])
  {
    var rev := [10, 9, 8, 6, 5];
    PairsCorrect(rev);
    GcdConsecutive(10);
    GcdConsecutive(9);
    GcdConsecutive(6);
    ReduceCanonical(10, 9, Interval(10, 9));
    ReduceCanonical(9, 8, Interval(9, 8));
    ReduceCanonical(8, 6, Interval(4, 3));
    ReduceCanonical(6, 5, Interval(6, 5));
    var p := Pairs(rev).value;
    assert p == [p[0], p[1], p[2], p[3]];
  }

  lemma OctavePairsSorted()
    ensures Sort([Interval(10, 9), Interval(9, 8), Interval(4, 3), Interval(6, 5)]) ==
      [Interval(10, 9), Interval(9, 8), Interval(6, 5), Interval(4, 3)]
  {
    var p := [Interval(10, 9), Interval(9, 8), Interval(4, 3), Interval(6, 5)];
    var t := [Interval(10, 9), Interval(9, 8), Interval(6, 5), Interval(4, 3)];
    OctaveStepsValid();
    assert multiset(t) == multiset(p);
    SortCorrect(p);
    SortedUnique(Sort(p), t);
  }

  lemma OctaveStepsValid()
    ensures AllValid([Interval(10, 9), Interval(9, 8), Interval(4, 3), Interval(6, 5)])
    ensures var t := [Interval(10, 9), Interval(9, 8), Interval(6, 5), Interval(4, 3)];
      AllValid(t) && Sorted(t)
  {
    GcdConsecutive(10);
    GcdConsecutive(9);
    GcdConsecutive(6);
    GcdConsecutive(4);
  }

  /** The octave into four within the 5-limit: the first factor, 4, leaves
      only 4, 5, 6, 8; the next, 5, keeps all but 7. */
  lemma DivisionsOctaveExample()
    ensures DivisionsOf(Octave, 4, 5, 30) ==
      Ok([Interval(10, 9), Interval(9, 8), Interval(6, 5), Interval(4, 3)])
  {
    SmallPrimes();
    OctaveRanges();
    assert !Fits(Octave, 4, 5, 0) && Fits(Octave, 4, 5, 1);
    SearchFound(Octave, 4, 5, 30, 1);
    assert Reverse([5, 6, 8, 9, 10]) == [10, 9, 8, 6, 5];
    OctavePairs();
    OctavePairsSorted();
  }

  /** 16/15 into two within the 31-limit: 31 is not above the limit, so the
      first factor already fits. */
  lemma DivisionsSemitoneExample()
    ensures DivisionsOf(Interval(16, 15), 2, 31, 30) == Ok([Interval(32, 31), Interval(31, 30)])
  {
    var a := Interval(16, 15);
    GcdConsecutive(16);
    assert a.Valid();
    SmallPrimes();
    assert Kept(30, 32, 31) == [30, 31, 32];
    assert Fits(a, 2, 31, 0);
    SearchFound(a, 2, 31, 30, 0);
    assert Reverse([30, 31, 32]) == [32, 31, 30];
    SemitonePairs();
  }

  lemma SemitonePairs()
    ensures Pairs([32, 31, 30]) == Ok([Interval(32, 31), Interval(31, 30)])
    ensures Sort([Interval(32, 31), Interval(31, 30)]) == [Interval(32, 31), Interval(31, 30)]
  {
    var rev := [32, 31, 30];
    PairsCorrect(rev);
    var p := Pairs(rev).value;
    GcdConsecutive(32);
    GcdConsecutive(31);
    ReduceCanonical(32, 31, Interval(32, 31));
    ReduceCanonical(31, 30, Interval(31, 30));
    assert p == [Interval(32, 31), Interval(31, 30)];
    SortCorrect(p);
    SortedUnique(Sort(p), p);
  }

  /** The primes and composites the three genus divisions meet. */
  lemma GenusPrimes()
    ensures IsPrime(7) && IsPrime(11) && IsPrime(17) && IsPrime(19)
    ensures IsPrime(29) && IsPrime(31) && IsPrime(47)
    ensures !IsPrime(10) && !IsPrime(12) && !IsPrime(15) && !IsPrime(16) && !IsPrime(18)
    ensures !IsPrime(20) && !IsPrime(27) && !IsPrime(28) && !IsPrime(30) && !IsPrime(32)
    ensures !IsPrime(45) && !IsPrime(46) && !IsPrime(48)
  {
    PrimeBelowFortyNine(7);
    PrimeBelowFortyNine(11);
    PrimeBelowFortyNine(17);
    PrimeBelowFortyNine(19);
    PrimeBelowFortyNine(29);
    PrimeBelowFortyNine(31);
    PrimeBelowFortyNine(47);
    NotPrime(10, 2);
    NotPrime(12, 2);
    NotPrime(15, 3);
    NotPrime(16, 2);
    NotPrime(18, 2);
    NotPrime(20, 2);
    NotPrime(27, 3);
    NotPrime(28, 2);
    NotPrime(30, 2);
    NotPrime(32, 2);
    NotPrime(45, 3);
    NotPrime(46, 2);
    NotPrime(48, 2);
  }

  /** The ranges the genus divisions try within the 7-limit: with factor 2
      the middle number is a prime above 7, with factor 3 one of the two
      inner numbers is. */
  lemma GenusRanges()
    ensures Kept(30, 32, 7) == [30, 32] && Kept(45, 48, 7) == [45, 46, 48]
    ensures Kept(18, 20, 7) == [18, 20] && Kept(27, 30, 7) == [27, 28, 30]
    ensures Kept(10, 12, 7) == [10, 12] && Kept(15, 18, 7) == [15, 16, 18]
  {
    GenusPrimes();
    assert Kept(30, 30, 7) == [30] && Kept(30, 31, 7) == [30];
    assert Kept(45, 45, 7) == [45] && Kept(45, 46, 7) == [45, 46] && Kept(45, 47, 7) == [45, 46];
    assert Kept(18, 18, 7) == [18] && Kept(18, 19, 7) == [18];
    assert Kept(27, 27, 7) == [27] && Kept(27, 28, 7) == [27, 28] && Kept(27, 29, 7) == [27, 28];
    assert Kept(10, 10, 7) == [10] && Kept(10, 11, 7) == [10];
    assert Kept(15, 15, 7) == [15] && Kept(15, 16, 7) == [15, 16] && Kept(15, 17, 7) == [15, 16];
  }

  /** Two neighbouring pairs of a descending range of three, sorted. */
  lemma PairsOfThree(x: int, y: int, z: int, p: Interval, q: Interval)
    requires 1 <= z < y < x && p.Valid() && q.Valid()
    requires SameRatio(p.num, p.den, x, y) && SameRatio(q.num, q.den, y, z)
    requires !LessEq(p, q)
    ensures Pairs([x, y, z]) == Ok([p, q])
    ensures Sort([p, q]) == [q, p]
  {
    var rev := [x, y, z];
    assert Descending(rev);
    PairsCorrect(rev);
    ReduceCanonical(x, y, p);
    ReduceCanonical(y, z, q);
    var r := Pairs(rev).value;
    assert r == [r[0], r[1]];
    SortOfTwo(p, q);
  }

  lemma SortOfTwo(p: Interval, q: Interval)
    requires !LessEq(p, q)
    ensures Sort([p, q]) == [q, p]
  {
    assert [p, q][1..] == [q];
    assert [q][1..] == [];
    assert Sort([q]) == [q];
    assert Insert(p, [q]) == [q] + Insert(p, []);
  }

  /** 4/3 less the enharmonic 5/4 is 16/15; within the 7-limit factor 2
      leaves only 30 and 32, factor 3 leaves 45, 46 and 48. */
  lemma DivisionsEnharmonicExample()
    ensures DivisionsOf(Interval(16, 15), 2, 7, 30) == Ok([Interval(46, 45), Interval(24, 23)])
  {
    var a := Interval(16, 15);
    GcdConsecutive(16);
    GcdConsecutive(46);
    GcdConsecutive(24);
    GenusPrimes();
    GenusRanges();
    assert !Fits(a, 2, 7, 0) && Fits(a, 2, 7, 1);
    SearchFound(a, 2, 7, 30, 1);
    assert Reverse([45, 46, 48]) == [48, 46, 45];
    PairsOfThree(48, 46, 45, Interval(24, 23), Interval(46, 45));
  }

  /** 4/3 less the chromatic 6/5 is 10/9: factor 3 leaves 27, 28 and 30. */
  lemma DivisionsChromaticExample()
    ensures DivisionsOf(Interval(10, 9), 2, 7, 30) == Ok([Interval(28, 27), Interval(15, 14)])
  {
    var a := Interval(10, 9);
    GcdConsecutive(10);
    GcdConsecutive(28);
    GcdConsecutive(15);
    GenusPrimes();
    GenusRanges();
    assert !Fits(a, 2, 7, 0) && Fits(a, 2, 7, 1);
    SearchFound(a, 2, 7, 30, 1);
    assert Reverse([27, 28, 30]) == [30, 28, 27];
    PairsOfThree(30, 28, 27, Interval(15, 14), Interval(28, 27));
  }

  /** 4/3 less the diatonic 10/9 is 6/5: factor 3 leaves 15, 16 and 18. */
  lemma DivisionsDiatonicExample()
    ensures DivisionsOf(Interval(6, 5), 2, 7, 30) == Ok([Interval(16, 15), Interval(9, 8)])
  {
    var a := Interval(6, 5);
    GcdConsecutive(6);
    GcdConsecutive(16);
    GcdConsecutive(9);
    GenusPrimes();
    GenusRanges();
    assert !Fits(a, 2, 7, 0) && Fits(a, 2, 7, 1);
    SearchFound(a, 2, 7, 30, 1);
    assert Reverse([15, 16, 18]) == [18, 16, 15];
    PairsOfThree(18, 16, 15, Interval(9, 8), Interval(16, 15));
  }

  /** A limit that is not prime is refused. */
  lemma DivisionsLimitExample()
    ensures DivisionsOf(Octave, 4, 6, 30) == Err(ValueError)
  {
    assert 6 % 2 == 0;
  }
}
