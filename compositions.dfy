/** Lists of intervals: composition of a whole list (Python's sum over
    intervals), integer powers, and sorting by value (Python's sorted). */
module Compositions {
  import opened NumberTheory
  import opened Results
  import opened Intervals

  predicate AllValid(s: seq<Interval>)
  {
    forall i :: 0 <= i < |s| ==> s[i].Valid()
  }

  lemma AllValidOfThree(a: Interval, b: Interval, c: Interval)
    requires a.Valid() && b.Valid() && c.Valid()
    ensures AllValid([a, b, c])
  {
    var v := [a, b, c];
    assert v[0] == a && v[1] == b && v[2] == c;
  }

  /** sum(s): the intervals composed left to right, starting from the unison
      that __radd__ substitutes for the initial 0. */
  function Compose(s: seq<Interval>): (r: Interval)
    requires AllValid(s)
    ensures r.Valid()
  {
    if s == [] then Unison else Add(Compose(s[..|s| - 1]), s[|s| - 1])
  }

  lemma ComposeSingle(x: Interval)
    requires x.Valid()
    ensures Compose([x]) == x
  {
    AddUnison(x);
  }

  /** Composing a concatenation composes the two compositions. */
  lemma {:induction false} ComposeAppend(s: seq<Interval>, t: seq<Interval>)
    requires AllValid(s) && AllValid(t)
    ensures AllValid(s + t)
    ensures Compose(s + t) == Add(Compose(s), Compose(t))
    decreases |t|
  {
    if t == [] {
      assert s + t == s;
      AddUnison(Compose(s));
    } else {
      var t', y := t[..|t| - 1], t[|t| - 1];
      assert (s + t)[..|s + t| - 1] == s + t';
      assert (s + t)[|s + t| - 1] == y;
      ComposeAppend(s, t');
      AddAssociative(Compose(s), Compose(t'), y);
    }
  }

  /** Composing does not depend on the position of an element. */
  lemma ComposeRemove(s: seq<Interval>, i: int)
    requires AllValid(s) && 0 <= i < |s|
    ensures AllValid(s[..i] + s[i + 1..])
    ensures Compose(s) == Add(Compose(s[..i] + s[i + 1..]), s[i])
  {
    var a, b, x := s[..i], s[i + 1..], s[i];
    assert s == (a + [x]) + b;
    assert AllValid(a) && AllValid(b) && AllValid([x]);
    ComposeAppend(a, b);
    var ca, cb := Compose(a), Compose(b);
    calc {
      Compose(s);
      { ComposeAppend(a + [x], b); }
      Add(Compose(a + [x]), cb);
      { ComposeAppend(a, [x]); ComposeSingle(x); }
      Add(Add(ca, x), cb);
      { AddAssociative(ca, x, cb); }
      Add(ca, Add(x, cb));
      { AddCommutative(x, cb); }
      Add(ca, Add(cb, x));
      { AddAssociative(ca, cb, x); }
      Add(Add(ca, cb), x);
    }
  }

  /** Composition depends only on the multiset of intervals. */
  lemma {:induction false} ComposePermutation(s: seq<Interval>, t: seq<Interval>)
    requires AllValid(s) && AllValid(t) && multiset(s) == multiset(t)
    ensures Compose(s) == Compose(t)
    decreases |s|
  {
    if s == [] {
      assert |t| == |multiset(t)| == 0;
    } else {
      var s', x := s[..|s| - 1], s[|s| - 1];
      assert s == s' + [x];
      assert x in multiset(t);
      var i :| 0 <= i < |t| && t[i] == x;
      var t' := t[..i] + t[i + 1..];
      assert t == t[..i] + [t[i]] + t[i + 1..];
      assert multiset(t') == multiset(t) - multiset{x};
      assert multiset(s') == multiset(s) - multiset{x};
      ComposeRemove(t, i);
      ComposePermutation(s', t');
    }
  }

  /** a ** n for n >= 0: 1/1 for n == 0, else sum([a] * n). */
  function PowerOf(a: Interval, n: nat): (r: Interval)
    requires a.Valid()
    ensures r.Valid()
  {
    if n == 0 then Unison else Compose(seq(n, _ => a))
  }

  /** __pow__: negative exponents raise ValueError. */
  function Power(a: Interval, n: int): Result<Interval>
    requires a.Valid()
  {
    if n < 0 then Err(ValueError) else Ok(PowerOf(a, n))
  }

  /** a ** n is n-fold composition: the ratio num^n : den^n in lowest
      terms, and exponents add. */
  lemma {:induction false} PowerStep(a: Interval, n: nat)
    requires a.Valid()
    ensures PowerOf(a, n + 1) == Add(PowerOf(a, n), a)
  {
    var s := seq(n + 1, _ => a);
    assert s[n] == a;
    assert s[..n] == seq(n, _ => a);
    assert Compose(s) == Add(Compose(s[..n]), a);
  }

  lemma {:induction false} PowerValue(a: Interval, n: nat)
    requires a.Valid()
    ensures SameRatio(PowerOf(a, n).num, PowerOf(a, n).den, IntPow(a.num, n), IntPow(a.den, n))
  {
    if n > 0 {
      PowerValue(a, n - 1);
      PowerStep(a, n - 1);
      var p := PowerOf(a, n - 1);
      AddValue(p, a);
      RatioMul(p.num, p.den, IntPow(a.num, n - 1), IntPow(a.den, n - 1),
        a.num, a.den, a.num, a.den);
      IntPowPositive(a.den, n - 1);
      MulPositive(p.den, a.den);
      RatioTrans(PowerOf(a, n).num, PowerOf(a, n).den, p.num * a.num, p.den * a.den,
        IntPow(a.num, n - 1) * a.num, IntPow(a.den, n - 1) * a.den);
      MulComm(a.num, IntPow(a.num, n - 1));
      MulComm(a.den, IntPow(a.den, n - 1));
    }
  }

  lemma {:induction false} PowerAdd(a: Interval, m: nat, n: nat)
    requires a.Valid()
    ensures PowerOf(a, m + n) == Add(PowerOf(a, m), PowerOf(a, n))
    decreases n
  {
    if n == 0 {
      AddUnison(PowerOf(a, m));
    } else {
      PowerAdd(a, m, n - 1);
      PowerStep(a, m + n - 1);
      PowerStep(a, n - 1);
      AddAssociative(PowerOf(a, m), PowerOf(a, n - 1), a);
    }
  }

  lemma PowerExamples()
    ensures Power(Interval(3, 2), 3) == Ok(Interval(27, 8))
    ensures Power(Interval(3, 2), 0) == Ok(Unison)
    ensures Power(Interval(3, 2), -1) == Err(ValueError)
  {
    var a := Interval(3, 2);
    PowerValue(a, 3);
    assert IntPow(3, 3) == 27 && IntPow(2, 3) == 8;
    ValueEquality(PowerOf(a, 3), Interval(27, 8));
  }

  // Sorting by value: Python's sorted on intervals, here insertion sort.

  predicate Sorted(s: seq<Interval>)
  {
    forall i, j :: 0 <= i < j < |s| ==> LessEq(s[i], s[j])
  }

  function Insert(x: Interval, s: seq<Interval>): seq<Interval>
  {
    if s == [] then [x]
    else if LessEq(x, s[0]) then [x] + s
    else [s[0]] + Insert(x, s[1..])
  }

  function Sort(s: seq<Interval>): seq<Interval>
  {
    if s == [] then [] else Insert(s[0], Sort(s[1..]))
  }

  lemma {:induction false} InsertCorrect(x: Interval, s: seq<Interval>)
    requires x.Valid() && AllValid(s) && Sorted(s)
    ensures multiset(Insert(x, s)) == multiset(s) + multiset{x}
    ensures AllValid(Insert(x, s)) && Sorted(Insert(x, s))
    decreases |s|
  {
    if s != [] && !LessEq(x, s[0]) {
      var s' := s[1..];
      assert s == [s[0]] + s';
      InsertCorrect(x, s');
      var r := Insert(x, s');
      assert Insert(x, s) == [s[0]] + r;
      InsertBound(x, s, r);
      SortedCons(s[0], r);
    } else if s != [] {
      forall j | 0 <= j < |s|
        ensures LessEq(x, s[j])
      {
        LessEqTransitive(x, s[0], s[j]);
      }
      SortedCons(x, s);
    }
  }

  /** When x goes after s[0], s[0] stays below everything inserted after it. */
  lemma InsertBound(x: Interval, s: seq<Interval>, r: seq<Interval>)
    requires x.Valid() && AllValid(s) && Sorted(s) && s != [] && !LessEq(x, s[0])
    requires multiset(r) == multiset(s[1..]) + multiset{x}
    ensures forall j :: 0 <= j < |r| ==> LessEq(s[0], r[j])
  {
    var s' := s[1..];
    forall j | 0 <= j < |r|
      ensures LessEq(s[0], r[j])
    {
      assert r[j] in multiset(r);
      if r[j] == x {
        OrderTotal(s[0], x);
      } else {
        assert r[j] in multiset(s');
        var k :| 0 <= k < |s'| && s'[k] == r[j];
        assert s[k + 1] == r[j];
      }
    }
  }

  /** An interval below every member of a sorted sequence can go in front. */
  lemma SortedCons(y: Interval, r: seq<Interval>)
    requires Sorted(r) && forall j :: 0 <= j < |r| ==> LessEq(y, r[j])
    ensures Sorted([y] + r)
  {
    var t := [y] + r;
    forall i, j | 0 <= i < j < |t|
      ensures LessEq(t[i], t[j])
    {
      assert t[j] == r[j - 1];
      if i > 0 {
        assert t[i] == r[i - 1];
      }
    }
  }

  /** Sort yields a sorted permutation of its input. */
  lemma {:induction false} SortCorrect(s: seq<Interval>)
    requires AllValid(s)
    ensures multiset(Sort(s)) == multiset(s)
    ensures AllValid(Sort(s)) && Sorted(Sort(s))
  {
    if s != [] {
      assert s == [s[0]] + s[1..];
      SortCorrect(s[1..]);
      InsertCorrect(s[0], Sort(s[1..]));
    }
  }

  lemma SortedHeadLeast(s: seq<Interval>, x: Interval)
    requires AllValid(s) && Sorted(s) && x in s
    ensures LessEq(s[0], x)
  {
    var i :| 0 <= i < |s| && s[i] == x;
    if i > 0 {
      assert LessEq(s[0], s[i]);
    }
  }

  lemma SortedTail(s: seq<Interval>)
    requires |s| > 0 && AllValid(s) && Sorted(s)
    ensures AllValid(s[1..]) && Sorted(s[1..])
  {
    forall i, j | 0 <= i < j < |s[1..]|
      ensures LessEq(s[1..][i], s[1..][j])
    {
      assert s[1..][i] == s[i + 1] && s[1..][j] == s[j + 1];
    }
  }

  lemma MultisetTail(s: seq<Interval>, t: seq<Interval>)
    requires |s| > 0 && |t| > 0 && s[0] == t[0] && multiset(s) == multiset(t)
    ensures multiset(s[1..]) == multiset(t[1..])
  {
    assert s == [s[0]] + s[1..] && t == [t[0]] + t[1..];
    assert multiset(s[1..]) == multiset(s) - multiset{s[0]};
    assert multiset(t[1..]) == multiset(t) - multiset{t[0]};
  }

  /** There is only one sorted arrangement of a multiset of valid intervals. */
  lemma {:induction false} SortedUnique(s: seq<Interval>, t: seq<Interval>)
    requires AllValid(s) && AllValid(t) && Sorted(s) && Sorted(t)
    requires multiset(s) == multiset(t)
    ensures s == t
    decreases |s|
  {
    if s == [] {
      assert |t| == |multiset(t)| == 0;
    } else {
      assert |t| == |multiset(t)| == |s|;
      assert s[0] in multiset(t) && t[0] in multiset(s);
      SortedHeadLeast(t, s[0]);
      SortedHeadLeast(s, t[0]);
      OrderTotal(s[0], t[0]);
      MultisetTail(s, t);
      SortedTail(s);
      SortedTail(t);
      SortedUnique(s[1..], t[1..]);
      assert s == [s[0]] + s[1..] && t == [t[0]] + t[1..];
    }
  }

  /** Composition survives sorting. */
  lemma ComposeSort(s: seq<Interval>)
    requires AllValid(s)
    ensures AllValid(Sort(s)) && Compose(Sort(s)) == Compose(s)
  {
    SortCorrect(s);
    ComposePermutation(Sort(s), s);
  }

  function Reverse<T>(s: seq<T>): (r: seq<T>)
    ensures |r| == |s| && forall i :: 0 <= i < |s| ==> r[i] == s[|s| - 1 - i]
  {
    if s == [] then [] else Reverse(s[1..]) + [s[0]]
  }

  predicate StrictlyDecreasing(s: seq<Interval>)
  {
    forall i, j :: 0 <= i < j < |s| ==> Less(s[j], s[i])
  }

  lemma {:induction false} InsertGreatest(x: Interval, s: seq<Interval>)
    requires forall i :: 0 <= i < |s| ==> Less(s[i], x)
    ensures Insert(x, s) == s + [x]
    decreases |s|
  {
    if s != [] {
      InsertGreatest(x, s[1..]);
      assert s == [s[0]] + s[1..];
    }
  }

  /** Sorting a strictly decreasing list reverses it. */
  lemma {:induction false} SortDecreasing(s: seq<Interval>)
    requires StrictlyDecreasing(s)
    ensures Sort(s) == Reverse(s)
  {
    if s != [] {
      SortDecreasing(s[1..]);
      var r := Reverse(s[1..]);
      forall i | 0 <= i < |r|
        ensures Less(r[i], s[0])
      {
        assert r[i] == s[|s| - 1 - i];
      }
      InsertGreatest(s[0], r);
    }
  }
}
