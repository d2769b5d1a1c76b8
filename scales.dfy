/** Just scales: arbitrary scales kept as a list of tones, disjunct
    tetrachords (three steps filling a fourth), and the scales built from a
    lower and an upper tetrachord joined by a whole tone of 9/8. */
module Scales {
  import opened NumberTheory
  import opened Results
  import opened Primes
  import opened Intervals
  import opened Compositions
  import opened Divisions
  import opened Text

  /** The span of a tetrachord. */
  const Fourth: Interval := Interval(4, 3)

  /** The tone that separates the two tetrachords of a scale. */
  const Disjunction: Interval := Interval(9, 8)

  // JustScale: the derived lists.

  /** JustScale.tones: the stored tones sorted by value. */
  function SortedTones(stored: seq<Interval>): (r: seq<Interval>)
    requires AllValid(stored)
    ensures AllValid(r) && Sorted(r) && multiset(r) == multiset(stored)
  {
    SortCorrect(stored);
    Sort(stored)
  }

  /** Appending a tone puts it in its sorted place among the others. */
  lemma AppendTones(stored: seq<Interval>, x: Interval)
    requires AllValid(stored) && x.Valid()
    ensures AllValid(stored + [x])
    ensures SortedTones(stored + [x]) == Insert(x, SortedTones(stored))
  {
    var t := SortedTones(stored);
    InsertCorrect(x, t);
    var r := SortedTones(stored + [x]);
    assert multiset(r) == multiset(stored) + multiset{x};
    SortedUnique(r, Insert(x, t));
  }

  /** A list that is already sorted is its own tones. */
  lemma SortedTonesOfSorted(t: seq<Interval>)
    requires AllValid(t) && Sorted(t)
    ensures SortedTones(t) == t
  {
    SortedUnique(SortedTones(t), t);
  }

  /** The step from each tone to the next. */
  function Steps(t: seq<Interval>): (r: seq<Interval>)
    requires AllValid(t)
    ensures |r| == if |t| == 0 then 0 else |t| - 1
    ensures AllValid(r)
  {
    if |t| == 0 then []
    else seq(|t| - 1, i requires 0 <= i < |t| - 1 => Sub(t[i + 1], t[i]))
  }

  /** JustScale.intervals: the steps between neighbouring sorted tones; each
      step composed onto its tone gives the next tone. */
  function ScaleIntervals(stored: seq<Interval>): (r: seq<Interval>)
    requires AllValid(stored)
    ensures AllValid(r)
    ensures |r| == if |stored| == 0 then 0 else |stored| - 1
    ensures forall i :: 0 <= i < |r| ==> Add(SortedTones(stored)[i], r[i]) == SortedTones(stored)[i + 1]
  {
    StepsRebuild(SortedTones(stored));
    assert |SortedTones(stored)| == |multiset(stored)| == |stored|;
    Steps(SortedTones(stored))
  }

  /** Each step composed onto its tone gives the next tone. */
  lemma StepsRebuild(t: seq<Interval>)
    requires AllValid(t) && Sorted(t)
    ensures forall i :: 0 <= i < |t| - 1 ==> Add(t[i], Steps(t)[i]) == t[i + 1]
  {
    forall i | 0 <= i < |t| - 1
      ensures Add(t[i], Steps(t)[i]) == t[i + 1]
    {
      AddSubComplete(t[i], t[i + 1]);
    }
  }

  /** The steps of a sorted list compose to the span from its first to its
      last tone. */
  lemma {:induction false} StepsCompose(t: seq<Interval>)
    requires AllValid(t) && Sorted(t) && |t| >= 1
    ensures Add(t[0], Compose(Steps(t))) == t[|t| - 1]
    decreases |t|
  {
    if |t| == 1 {
      AddUnison(t[0]);
    } else {
      var u := t[..|t| - 1];
      assert Sorted(u);
      StepsCompose(u);
      var s := Steps(t);
      assert s[..|s| - 1] == Steps(u);
      AddAssociative(t[0], Compose(Steps(u)), s[|s| - 1]);
      AddSubComplete(t[|t| - 2], t[|t| - 1]);
    }
  }

  /** complement of every tone, in order; None when some tone lies above the
      octave, where complement gives NotImplemented. */
  function Complements(t: seq<Interval>): (r: Option<seq<Interval>>)
    requires AllValid(t)
    ensures r.Some? ==>
              |r.value| == |t| && forall i :: 0 <= i < |t| ==> Complement(t[i]) == Some(r.value[i])
  {
    if forall i :: 0 <= i < |t| ==> Complement(t[i]).Some? then
      Some(seq(|t|, i requires 0 <= i < |t| => Complement(t[i]).value))
    else None
  }

  /** Complements exist exactly up to the octave, and are valid. */
  lemma ComplementsCorrect(t: seq<Interval>)
    requires AllValid(t)
    ensures Complements(t).Some? <==> forall i :: 0 <= i < |t| ==> LessEq(t[i], Octave)
    ensures Complements(t).Some? ==> AllValid(Complements(t).value)
  {
    forall i | 0 <= i < |t|
      ensures Complement(t[i]).Some? <==> LessEq(t[i], Octave)
    {
      OrderTotal(t[i], Octave);
    }
    if Complements(t).Some? {
      forall i | 0 <= i < |t|
        ensures Complements(t).value[i].Valid()
      {
      }
    }
  }

  /** JustScale.complement: a scale over the complements of the sorted tones.
      Below the octave each complement completes its tone to the octave. */
  function ScaleComplement(stored: seq<Interval>): (r: Option<seq<Interval>>)
    requires AllValid(stored)
    ensures r.Some? ==> |r.value| == |stored| && AllValid(r.value)
    ensures r.Some? <==> forall i :: 0 <= i < |stored| ==> LessEq(stored[i], Octave)
    ensures r.Some? ==> forall i :: 0 <= i < |stored| ==>
      (Less(SortedTones(stored)[i], Octave) ==> Add(SortedTones(stored)[i], r.value[i]) == Octave) &&
      (SortedTones(stored)[i] == Octave ==> r.value[i] == Unison)
  {
    assert |SortedTones(stored)| == |multiset(stored)| == |stored|;
    ComplementsCorrect(SortedTones(stored));
    SortedBelowOctave(stored);
    ComplementsLaw(SortedTones(stored));
    Complements(SortedTones(stored))
  }

  /** The sorted tones stay within the octave exactly when the stored ones do. */
  lemma SortedBelowOctave(stored: seq<Interval>)
    requires AllValid(stored)
    ensures (forall i :: 0 <= i < |stored| ==> LessEq(stored[i], Octave)) <==>
      (forall i :: 0 <= i < |SortedTones(stored)| ==> LessEq(SortedTones(stored)[i], Octave))
  {
    var t := SortedTones(stored);
    if forall i :: 0 <= i < |stored| ==> LessEq(stored[i], Octave) {
      forall i | 0 <= i < |t|
        ensures LessEq(t[i], Octave)
      {
        assert t[i] in multiset(stored);
      }
    }
    if forall i :: 0 <= i < |t| ==> LessEq(t[i], Octave) {
      forall i | 0 <= i < |stored|
        ensures LessEq(stored[i], Octave)
      {
        assert stored[i] in multiset(t);
      }
    }
  }

  /** Below the octave each complement completes its tone to the octave; the
      octave's complement is the unison. */
  lemma ComplementsLaw(t: seq<Interval>)
    requires AllValid(t)
    ensures Complements(t).Some? ==> forall i :: 0 <= i < |t| ==>
      (Less(t[i], Octave) ==> Add(t[i], Complements(t).value[i]) == Octave) &&
      (t[i] == Octave ==> Complements(t).value[i] == Unison)
  {
    forall i | 0 <= i < |t| && Less(t[i], Octave)
      ensures Add(t[i], Complement(t[i]).value) == Octave
    {
      ComplementLaw(t[i]);
    }
  }

  /** The prime limit of each tone, in order; the first that fails fails
      the whole list. */
  function Limits(t: seq<Interval>): (r: Result<seq<int>>)
    requires AllValid(t)
    ensures r.Ok? ==>
              |r.value| == |t| && forall i :: 0 <= i < |t| ==> PrimeLimitOf(t[i]) == Ok(r.value[i])
    ensures r.Err? ==> exists i :: 0 <= i < |t| && PrimeLimitOf(t[i]) == Err(r.error)
  {
    if t == [] then Ok([])
    else
      assert forall i :: 1 <= i < |t| ==> t[1..][i - 1] == t[i];
      match PrimeLimitOf(t[0])
      case Err(e) => Err(e)
      case Ok(p) =>
        match Limits(t[1..])
        case Err(e) => Err(e)
        case Ok(ps) => Ok([p] + ps)
  }

  /** JustScale.prime_limit: the greatest limit among the tones; max() of
      an empty scale raises ValueError. */
  function ScalePrimeLimit(stored: seq<Interval>): (r: Result<int>)
    requires AllValid(stored)
    ensures stored == [] ==> r == Err(ValueError)
    ensures r.Ok? ==> exists i :: 0 <= i < |stored| && PrimeLimitOf(stored[i]) == Ok(r.value)
    ensures r.Ok? ==> forall i :: 0 <= i < |stored| ==> PrimeLimitOf(stored[i]).Ok? && PrimeLimitOf(stored[i]).value <= r.value
  {
    var t := SortedTones(stored);
    assert |stored| == |multiset(stored)| == |multiset(t)| == |t|;
    match Limits(t)
    case Err(e) => Err(e)
    case Ok(ls) =>
      if ls == [] then Err(ValueError)
      else
        MaxOfPermuted(stored, t, ls);
        Ok(MaxOf(ls))
  }

  /** The greatest limit over the sorted tones is the greatest over the
      stored ones. */
  lemma MaxOfPermuted(stored: seq<Interval>, t: seq<Interval>, ls: seq<int>)
    requires AllValid(stored) && AllValid(t) && multiset(t) == multiset(stored)
    requires Limits(t) == Ok(ls) && ls != []
    ensures (exists i :: 0 <= i < |stored| && PrimeLimitOf(stored[i]) == Ok(MaxOf(ls))) &&
      forall i :: 0 <= i < |stored| ==> PrimeLimitOf(stored[i]).Ok? && PrimeLimitOf(stored[i]).value <= MaxOf(ls)
  {
    var m := MaxOf(ls);
    forall i | 0 <= i < |stored|
      ensures PrimeLimitOf(stored[i]).Ok? && PrimeLimitOf(stored[i]).value <= m
    {
      assert stored[i] in multiset(t);
      var k :| 0 <= k < |t| && t[k] == stored[i];
    }
    var k :| 0 <= k < |ls| && ls[k] == m;
    assert t[k] in multiset(stored);
    var i :| 0 <= i < |stored| && stored[i] == t[k];
  }

  /** The scale 1/1 with 3/2 and 2/1 appended: its steps are the fifth and
      then the fourth. */
  lemma ScaleIntervalsExample()
    ensures ScaleIntervals([Unison] + [Interval(3, 2)] + [Octave]) == [Interval(3, 2), Interval(4, 3)]
  {
    var t := [Unison, Interval(3, 2), Octave];
    assert [Unison] + [Interval(3, 2)] + [Octave] == t;
    FifthScaleSorted();
    StepsOfThree(Unison, Interval(3, 2), Octave);
    assert Sub(Interval(3, 2), Unison) == Interval(3, 2) by {
      ReduceCanonical(3, 2, Interval(3, 2));
    }
    assert Sub(Octave, Interval(3, 2)) == Interval(4, 3) by {
      ReduceCanonical(4, 3, Interval(4, 3));
    }
  }

  lemma StepsOfThree(a: Interval, b: Interval, c: Interval)
    requires a.Valid() && b.Valid() && c.Valid()
    ensures Steps([a, b, c]) == [Sub(b, a), Sub(c, b)]
  {
  }

  lemma FifthScaleSorted()
    ensures AllValid([Unison, Interval(3, 2), Octave])
    ensures SortedTones([Unison, Interval(3, 2), Octave]) == [Unison, Interval(3, 2), Octave]
  {
    SortedTonesOfSorted([Unison, Interval(3, 2), Octave]);
  }

  /** The complement of the same scale: 2/1, 4/3 and 1/1, which as a new
      scale are the tones 1/1, 4/3 and 2/1. */
  lemma ScaleComplementExample()
    ensures ScaleComplement([Unison] + [Interval(3, 2)] + [Octave]) == Some([Octave, Interval(4, 3), Unison])
    ensures SortedTones([Octave, Interval(4, 3), Unison]) == [Unison, Interval(4, 3), Octave]
  {
    var t := [Unison, Interval(3, 2), Octave];
    assert [Unison] + [Interval(3, 2)] + [Octave] == t;
    FifthScaleSorted();
    ComplementExamples();
    assert Complement(t[0]) == Some(Octave) && Complement(t[1]) == Some(Interval(4, 3));
    assert Complement(t[2]) == Some(Unison);
    assert Complements(t).value == [Octave, Interval(4, 3), Unison];
    FourthScaleSorted();
  }

  lemma FourthScaleSorted()
    ensures SortedTones([Octave, Interval(4, 3), Unison]) == [Unison, Interval(4, 3), Octave]
  {
    var f := Interval(4, 3);
    assert f.Valid() by {
      GcdConsecutive(4);
    }
    assert Sort([Unison]) == [Unison];
    assert [f, Unison][1..] == [Unison];
    assert Insert(f, [Unison]) == [Unison, f];
    assert Sort([f, Unison]) == [Unison, f];
    assert [Octave, f, Unison][1..] == [f, Unison];
    assert Insert(Octave, [f]) == [f, Octave];
    assert Insert(Octave, [Unison, f]) == [Unison, f, Octave];
  }

  /** A JustScale: the tones as they were given and appended, unsorted. */
  class JustScale {
    var stored: seq<Interval>

    constructor (tones: seq<Interval>)
      ensures stored == tones
    {
      stored := tones;
    }

    /** append: exactly one tone more, at the end of the stored list. */
    method Append(tone: Interval)
      modifies this
      ensures stored == old(stored) + [tone]
    {
      stored := stored + [tone];
    }

    /** The tones setter replaces the stored list. */
    method SetTones(values: seq<Interval>)
      modifies this
      ensures stored == values
    {
      stored := values;
    }
  }

  // JustTetrachord.

  /** validate_tetrachord: exactly three intervals composing to a fourth. */
  function ValidateOf(t: seq<Interval>): Result<()>
    requires AllValid(t)
  {
    if |t| != 3 then Err(ValueError)
    else if Compose(t) != Fourth then Err(ValueError)
    else Ok(())
  }

  /** validate_tetrachord, as the source runs it: the length test, then the
      running total of the intervals from 1/1. */
  method ValidateTetrachord(t: seq<Interval>) returns (r: Result<()>)
    requires AllValid(t)
    ensures r.Ok? <==> |t| == 3 && Compose(t) == Fourth
    ensures r.Err? ==> r.error == ValueError
    ensures r == ValidateOf(t)
  {
    if |t| != 3 {
      return Err(ValueError);
    }
    var total := Unison;
    var i := 0;
    while i < |t|
      invariant 0 <= i <= |t|
      invariant total == Compose(t[..i])
    {
      assert t[..i + 1][..i] == t[..i];
      total := Add(total, t[i]);
      i := i + 1;
    }
    assert t[..i] == t;
    if total != Fourth {
      return Err(ValueError);
    }
    return Ok(());
  }

  /** Validation depends only on the multiset of intervals. */
  lemma ValidatePermutation(s: seq<Interval>, t: seq<Interval>)
    requires AllValid(s) && AllValid(t) && multiset(s) == multiset(t)
    ensures ValidateOf(s) == ValidateOf(t)
  {
    assert |s| == |multiset(s)| == |multiset(t)| == |t|;
    ComposePermutation(s, t);
  }

  /** Each interval of a valid tetrachord lies between 1/1 and 4/3; one with
      a denominator of 1 is the unison. */
  lemma ValidatedBounds(t: seq<Interval>)
    requires AllValid(t) && ValidateOf(t).Ok?
    ensures forall i :: 0 <= i < 3 ==> LessEq(Unison, t[i]) && LessEq(t[i], Fourth)
    ensures forall i :: 0 <= i < 3 ==> t[i].den >= 2 || t[i] == Unison
  {
    forall i | 0 <= i < 3
      ensures LessEq(t[i], Fourth) && (t[i].den >= 2 || t[i] == Unison)
    {
      ComposeRemove(t, i);
      AddAtLeast(Compose(t[..i] + t[i + 1..]), t[i]);
    }
  }

  /** The fields of a JustTetrachord. */
  datatype Tetrachord = Tetrachord(intervals: seq<Interval>, primeLimit: int)

  /** max of the prime limits of three intervals, evaluated left to right. */
  function IntervalsLimit(v: seq<Interval>): (r: Result<int>)
    requires |v| == 3 && AllValid(v)
    ensures r.Ok? <==> PrimeLimitOf(v[0]).Ok? && PrimeLimitOf(v[1]).Ok? && PrimeLimitOf(v[2]).Ok?
    ensures r.Ok? ==> r.value == Max(Max(PrimeLimitOf(v[0]).value, PrimeLimitOf(v[1]).value), PrimeLimitOf(v[2]).value)
  {
    match PrimeLimitOf(v[0])
    case Err(e) => Err(e)
    case Ok(a) =>
      match PrimeLimitOf(v[1])
      case Err(e) => Err(e)
      case Ok(b) =>
        match PrimeLimitOf(v[2])
        case Err(e) => Err(e)
        case Ok(c) => Ok(Max(Max(a, b), c))
  }

  /** The intervals setter: validate, then take the largest prime limit of
      the three; the stored limit is overwritten. */
  function SetIntervalsOf(s: Tetrachord, values: seq<Interval>): Result<Tetrachord>
    requires AllValid(values)
  {
    match ValidateOf(values)
    case Err(e) => Err(e)
    case Ok(_) =>
      match IntervalsLimit(values)
      case Err(e) => Err(e)
      case Ok(m) => Ok(Tetrachord(values, m))
  }

  /** A valid tetrachord is always accepted: its intervals lie below 4/3, so
      none is a whole number whose prime limit fails. The new limit is at
      least 1 and bounds every interval's limit. */
  lemma SetIntervalsCorrect(s: Tetrachord, values: seq<Interval>)
    requires AllValid(values)
    ensures SetIntervalsOf(s, values).Ok? <==> ValidateOf(values).Ok?
    ensures SetIntervalsOf(s, values).Err? ==> SetIntervalsOf(s, values).error == ValueError
    ensures SetIntervalsOf(s, values).Ok? ==>
      var t := SetIntervalsOf(s, values).value;
      t.intervals == values && t.primeLimit >= 1 &&
      forall i :: 0 <= i < 3 ==> PrimeLimitOf(values[i]).Ok? && PrimeLimitOf(values[i]).value <= t.primeLimit
  {
    if ValidateOf(values).Ok? {
      ValidatedBounds(values);
      forall i | 0 <= i < 3
        ensures PrimeLimitOf(values[i]).Ok? && PrimeLimitOf(values[i]).value >= 1
      {
        PrimeLimitCorrect(values[i]);
        if values[i] == Unison {
          assert Odd(1) == 1;
        }
      }
      var m := Max(Max(PrimeLimitOf(values[0]).value, PrimeLimitOf(values[1]).value), PrimeLimitOf(values[2]).value);
      assert IntervalsLimit(values) == Ok(m);
      forall i | 0 <= i < 3
        ensures PrimeLimitOf(values[i]).value <= m
      {
      }
    }
  }

  /** The characteristic (highest) interval of each classical genus; any
      other name is a missing key. */
  function Characteristic(name: string): (r: Result<Interval>)
    ensures r.Ok? ==> r.value.Valid() && Less(r.value, Fourth)
  {
    if name == "enharmonic" then Ok(Interval(5, 4))
    else if name == "chromatic" then Ok(Interval(6, 5))
    else if name == "diatonic" then Ok(Interval(10, 9))
    else Err(KeyError)
  }

  /** The genus getter: named after the last interval when it is one of the
      characteristic intervals; an empty tetrachord raises. */
  function GenusOf(intervals: seq<Interval>): Result<string>
  {
    if intervals == [] then Err(ValueError)
    else
      var last := intervals[|intervals| - 1];
      if last == Interval(5, 4) then Ok("enharmonic")
      else if last == Interval(6, 5) then Ok("chromatic")
      else if last == Interval(10, 9) then Ok("diatonic")
      else Ok("non-classical")
  }

  /** The genus setter: the fourth less the characteristic interval is split
      in two by divisions at the tetrachord's limit, the characteristic is
      put on top, and the intervals setter takes the result. */
  function SetGenusOf(s: Tetrachord, name: string): Result<Tetrachord>
  {
    match Characteristic(name)
    case Err(e) => Err(e)
    case Ok(c) =>
      match DivisionsOf(Sub(Fourth, c), 2, s.primeLimit, 30)
      case Err(e) => Err(e)
      case Ok(ds) =>
        DivisionsValid(Sub(Fourth, c), 2, s.primeLimit, 30);
        SetIntervalsOf(s, ds + [c])
  }

  /** Setting a genus and reading it back gives the same name; an unknown
      name is a KeyError and a valid one puts its characteristic on top. */
  lemma GenusRoundTrip(s: Tetrachord, name: string)
    ensures Characteristic(name).Err? ==> SetGenusOf(s, name) == Err(KeyError)
    ensures SetGenusOf(s, name).Ok? ==>
      var t := SetGenusOf(s, name).value;
      |t.intervals| == 3 && Ok(t.intervals[2]) == Characteristic(name) &&
      GenusOf(t.intervals) == Ok(name)
  {
    if Characteristic(name).Ok? {
      var c := Characteristic(name).value;
      var d := DivisionsOf(Sub(Fourth, c), 2, s.primeLimit, 30);
      if d.Ok? {
        DivisionsValid(Sub(Fourth, c), 2, s.primeLimit, 30);
        var v := d.value + [c];
        assert SetGenusOf(s, name) == SetIntervalsOf(s, v);
        if SetIntervalsOf(s, v).Ok? {
          assert SetIntervalsOf(s, v).value.intervals == v && |v| == 3;
          assert v[2] == c;
          GenusOfCharacteristic(name, v);
        }
      }
    }
  }

  /** A list topped by a genus's characteristic interval is named after
      that genus. */
  lemma GenusOfCharacteristic(name: string, v: seq<Interval>)
    requires Characteristic(name).Ok? && |v| > 0 && v[|v| - 1] == Characteristic(name).value
    ensures GenusOf(v) == Ok(name)
  {
    if name == "enharmonic" {
    } else if name == "chromatic" {
    } else {
      assert name == "diatonic";
    }
  }

  /** When the split of the remainder keeps both its ends, the genus setter
      succeeds: the two steps compose back to the remainder, which together
      with the characteristic fills the fourth. */
  lemma SetGenusFound(s: Tetrachord, name: string, j: int)
    requires Characteristic(name).Ok? && IsPrime(s.primeLimit)
    requires var rest := Sub(Fourth, Characteristic(name).value);
      0 <= j <= 30 && Fits(rest, 2, s.primeLimit, j) &&
      (forall k :: 0 <= k < j ==> !Fits(rest, 2, s.primeLimit, k)) &&
      !Dropped(rest.den * (2 + j), s.primeLimit) && !Dropped(rest.num * (2 + j), s.primeLimit)
    ensures var c := Characteristic(name).value;
      var ds := DivisionsOf(Sub(Fourth, c), 2, s.primeLimit, 30);
      ds.Ok? && |ds.value| == 2 && AllValid(ds.value) && Compose(ds.value) == Sub(Fourth, c) &&
      SetGenusOf(s, name).Ok? && SetGenusOf(s, name).value.intervals == ds.value + [c]
  {
    var c := Characteristic(name).value;
    var rest := Sub(Fourth, c);
    DivisionsFound(rest, 2, s.primeLimit, 30, j);
    var ds := DivisionsOf(rest, 2, s.primeLimit, 30).value;
    DivisionsComposeBack(rest, 2, s.primeLimit, 30, j, ds);
    var v := ds + [c];
    ComposeAppend(ds, [c]);
    ComposeSingle(c);
    AddCommutative(rest, c);
    AddSubComplete(c, Fourth);
    assert Compose(v) == Fourth;
    SetIntervalsCorrect(s, v);
  }

  /** JustTetrachord(intervals, genus, prime_limit): a limit that is not
      prime is refused; then the intervals are set if given, else the genus
      (stripped and lower-cased), else the tetrachord stays empty. */
  function NewOf(intervals: Option<seq<Interval>>, genus: Option<string>, limit: int): Result<Tetrachord>
    requires intervals.Some? ==> AllValid(intervals.value)
  {
    if !IsPrime(limit) then Err(ValueError)
    else
      var s := Tetrachord([], limit);
      if intervals.Some? then SetIntervalsOf(s, intervals.value)
      else if genus.Some? then SetGenusOf(s, Lower(Strip(genus.value)))
      else Ok(s)
  }

  /** A new tetrachord is empty or valid, and given intervals it keeps them. */
  lemma NewCorrect(intervals: Option<seq<Interval>>, genus: Option<string>, limit: int)
    requires intervals.Some? ==> AllValid(intervals.value)
    ensures !IsPrime(limit) ==> NewOf(intervals, genus, limit) == Err(ValueError)
    ensures NewOf(intervals, genus, limit).Ok? ==>
      var t := NewOf(intervals, genus, limit).value;
      AllValid(t.intervals) &&
      (t.intervals == [] || ValidateOf(t.intervals).Ok?) &&
      (intervals.Some? ==> t.intervals == intervals.value) &&
      (intervals.None? && genus.None? ==> t == Tetrachord([], limit))
  {
    var s := Tetrachord([], limit);
    if IsPrime(limit) && intervals.None? && genus.Some? {
      var name := Lower(Strip(genus.value));
      if Characteristic(name).Ok? {
        var c := Characteristic(name).value;
        var ds := DivisionsOf(Sub(Fourth, c), 2, limit, 30);
        if ds.Ok? {
          DivisionsValid(Sub(Fourth, c), 2, limit, 30);
          SetIntervalsCorrect(s, ds.value + [c]);
        }
      }
    } else if IsPrime(limit) && intervals.Some? {
      SetIntervalsCorrect(s, intervals.value);
    }
  }

  // The documented tetrachords.

  /** An interval's prime limit is the factor of numerator or denominator
      that bounds all the others. */
  lemma LimitFromFactors(a: Interval, p: int)
    requires a.Valid() && a.den >= 2
    requires p in Factorization(a.num) + Factorization(a.den)
    requires forall x :: x in Factorization(a.num) + Factorization(a.den) ==> x <= p
    ensures PrimeLimitOf(a) == Ok(p)
  {
    PrimeLimitCorrect(a);
    var fs := Factorization(a.num) + Factorization(a.den);
    var q := PrimeLimitOf(a).value;
    assert q in fs;
    assert q <= p;
    var i :| 0 <= i < |fs| && fs[i] == p;
    assert p <= q;
  }

  lemma SmallFactorizations()
    ensures Factorization(2) == [2] && Factorization(3) == [3] && Factorization(5) == [5]
    ensures Factorization(4) == [2, 2] && Factorization(15) == [3, 5]
  {
    PrimeBySqrt(5, 3);
    PrimeBySqrt(3, 2);
    FactorizationOfPrime(5);
    FactorizationOfPrime(3);
    FactorizationOfPrime(2);
    FactorizationDouble(2);
    FactorizationStep(15, 3);
  }

  lemma EnharmonicFactorizations()
    ensures Factorization(46) == [2, 23] && Factorization(45) == [3, 3, 5]
    ensures Factorization(24) == [2, 2, 2, 3] && Factorization(23) == [23]
  {
    SmallFactorizations();
    PrimeBelowFortyNine(23);
    FactorizationOfPrime(23);
    FactorizationDouble(23);
    FactorizationStep(45, 3);
    FactorizationDouble(12);
    FactorizationDouble(6);
    FactorizationDouble(3);
  }

  lemma SemitoneFactorizations()
    ensures Factorization(32) == [2, 2, 2, 2, 2] && Factorization(31) == [31]
    ensures Factorization(30) == [2, 3, 5]
  {
    SmallFactorizations();
    IsPrimeExamples();
    FactorizationOfPrime(31);
    FactorizationOfPow2(5);
    assert Pow2(5) == 32;
    assert seq(5, _ => 2) == [2, 2, 2, 2, 2];
    FactorizationDouble(15);
  }

  lemma LimitOfFortySixFortyFifths()
    ensures Interval(46, 45).Valid() && PrimeLimitOf(Interval(46, 45)) == Ok(23)
  {
    EnharmonicFactorizations();
    LimitOf(Interval(46, 45), [2, 23], [3, 3, 5], 23);
  }

  lemma LimitOfTwentyFourTwentyThirds()
    ensures Interval(24, 23).Valid() && PrimeLimitOf(Interval(24, 23)) == Ok(23)
  {
    EnharmonicFactorizations();
    LimitOf(Interval(24, 23), [2, 2, 2, 3], [23], 23);
  }

  lemma LimitOfFiveFourths()
    ensures Interval(5, 4).Valid() && PrimeLimitOf(Interval(5, 4)) == Ok(5)
  {
    SmallFactorizations();
    LimitOf(Interval(5, 4), [5], [2, 2], 5);
  }

  lemma LimitOfThirtyTwoThirtyFirsts()
    ensures Interval(32, 31).Valid() && PrimeLimitOf(Interval(32, 31)) == Ok(31)
  {
    SemitoneFactorizations();
    LimitOf(Interval(32, 31), [2, 2, 2, 2, 2], [31], 31);
  }

  lemma LimitOfThirtyOneThirtieths()
    ensures Interval(31, 30).Valid() && PrimeLimitOf(Interval(31, 30)) == Ok(31)
  {
    SemitoneFactorizations();
    LimitOf(Interval(31, 30), [31], [2, 3, 5], 31);
  }

  /** A genus name without surrounding whitespace or capitals is looked up
      as it is. */
  lemma PlainName(name: string)
    requires name != [] && !IsSpace(name[0]) && !IsSpace(name[|name| - 1])
    requires forall i :: 0 <= i < |name| ==> !IsUpper(name[i])
    ensures Lower(Strip(name)) == name
  {
    assert TrimStart(name) == name;
    LowerUnchanged(name);
  }

  /** JustTetrachord(genus='enharmonic') at the default limit 7: 16/15 is
      split into 46/45 and 24/23 below 5/4, and the limit becomes 23. */
  lemma EnharmonicExample()
    ensures NewOf(None, Some("enharmonic"), 7) ==
      Ok(Tetrachord([Interval(46, 45), Interval(24, 23), Interval(5, 4)], 23))
  {
    var name := "enharmonic";
    PlainName(name);
    GenusPrimes();
    var v := [Interval(46, 45), Interval(24, 23), Interval(5, 4)];
    EnharmonicSplit();
    var t := SetGenusOf(Tetrachord([], 7), name);
    assert t == SetIntervalsOf(Tetrachord([], 7), v);
    LimitOfFortySixFortyFifths();
    LimitOfTwentyFourTwentyThirds();
    LimitOfFiveFourths();
    assert IntervalsLimit(v) == Ok(23);
  }

  /** The enharmonic genus at limit 7 sets the three intervals. */
  lemma EnharmonicSplit()
    ensures var v := [Interval(46, 45), Interval(24, 23), Interval(5, 4)];
      AllValid(v) && SetGenusOf(Tetrachord([], 7), "enharmonic") == SetIntervalsOf(Tetrachord([], 7), v) &&
      ValidateOf(v).Ok?
  {
    assert Sub(Fourth, Interval(5, 4)) == Interval(16, 15) by {
      GcdConsecutive(16);
      ReduceCanonical(16, 15, Interval(16, 15));
    }
    DivisionsEnharmonicExample();
    EnharmonicComposes();
    assert [Interval(46, 45), Interval(24, 23)] + [Interval(5, 4)] ==
      [Interval(46, 45), Interval(24, 23), Interval(5, 4)];
  }

  /** 46/45, 24/23 and 5/4 fill the fourth. */
  lemma EnharmonicComposes()
    ensures var v := [Interval(46, 45), Interval(24, 23), Interval(5, 4)];
      AllValid(v) && ValidateOf(v) == Ok(())
  {
    var v := [Interval(46, 45), Interval(24, 23), Interval(5, 4)];
    GcdConsecutive(46);
    GcdConsecutive(24);
    GcdConsecutive(5);
    GcdConsecutive(16);
    FillsFourth(v[0], v[1], v[2], Interval(16, 15));
  }

  /** Three intervals whose first two make m and whose last completes m to
      the fourth. */
  lemma FillsFourth(x: Interval, y: Interval, z: Interval, m: Interval)
    requires x.Valid() && y.Valid() && z.Valid() && m.Valid()
    requires SameRatio(m.num, m.den, x.num * y.num, x.den * y.den)
    requires SameRatio(4, 3, m.num * z.num, m.den * z.den)
    ensures ValidateOf([x, y, z]) == Ok(())
  {
    var v := [x, y, z];
    ComposeSingle(x);
    assert v[..1] == [x] && v[..2] == [x, y] && v[..2][..1] == [x];
    MulMonotone(1, x.den, 1, y.den);
    MulMonotone(x.den, x.num, y.den, y.num);
    ReduceCanonical(x.num * y.num, x.den * y.den, m);
    assert Compose([x, y]) == m;
    MulMonotone(1, m.den, 1, z.den);
    MulMonotone(m.den, m.num, z.den, z.num);
    ReduceCanonical(m.num * z.num, m.den * z.den, Fourth);
    assert Compose(v) == Fourth;
  }

  /** JustTetrachord(genus='chromatic'): 10/9 is split into 28/27 and 15/14
      below 6/5, and the limit stays 7. */
  lemma ChromaticExample()
    ensures NewOf(None, Some("chromatic"), 7) ==
      Ok(Tetrachord([Interval(28, 27), Interval(15, 14), Interval(6, 5)], 7))
  {
    var name := "chromatic";
    PlainName(name);
    GenusPrimes();
    var v := [Interval(28, 27), Interval(15, 14), Interval(6, 5)];
    ChromaticSplit();
    var t := SetGenusOf(Tetrachord([], 7), name);
    assert t == SetIntervalsOf(Tetrachord([], 7), v);
    ChromaticLimits();
    assert IntervalsLimit(v) == Ok(7);
  }

  lemma ChromaticSplit()
    ensures var v := [Interval(28, 27), Interval(15, 14), Interval(6, 5)];
      AllValid(v) && SetGenusOf(Tetrachord([], 7), "chromatic") == SetIntervalsOf(Tetrachord([], 7), v) &&
      ValidateOf(v).Ok?
  {
    assert Sub(Fourth, Interval(6, 5)) == Interval(10, 9) by {
      GcdConsecutive(10);
      ReduceCanonical(20, 18, Interval(10, 9));
    }
    DivisionsChromaticExample();
    ChromaticComposes();
    assert [Interval(28, 27), Interval(15, 14)] + [Interval(6, 5)] ==
      [Interval(28, 27), Interval(15, 14), Interval(6, 5)];
  }

  /** 28/27, 15/14 and 6/5 fill the fourth. */
  lemma ChromaticComposes()
    ensures var v := [Interval(28, 27), Interval(15, 14), Interval(6, 5)];
      AllValid(v) && ValidateOf(v) == Ok(())
  {
    var v := [Interval(28, 27), Interval(15, 14), Interval(6, 5)];
    GcdConsecutive(28);
    GcdConsecutive(15);
    GcdConsecutive(6);
    GcdConsecutive(10);
    FillsFourth(v[0], v[1], v[2], Interval(10, 9));
  }

  lemma ChromaticFactorizations()
    ensures Factorization(28) == [2, 2, 7] && Factorization(27) == [3, 3, 3]
    ensures Factorization(14) == [2, 7] && Factorization(6) == [2, 3]
  {
    FactorizationOfTwentyEight();
    FactorizationOfTwentySeven();
    FactorizationOfSix();
  }

  lemma FactorizationOfFourteen()
    ensures Factorization(14) == [2, 7]
  {
    GenusPrimes();
    FactorizationOfPrime(7);
    FactorizationDouble(7);
  }

  lemma FactorizationOfTwentyEight()
    ensures Factorization(14) == [2, 7] && Factorization(28) == [2, 2, 7]
  {
    FactorizationOfFourteen();
    FactorizationDouble(14);
  }

  lemma FactorizationOfTwentySeven()
    ensures Factorization(27) == [3, 3, 3]
  {
    FactorizationOfNine();
    FactorizationStep(27, 3);
  }

  lemma FactorizationOfSix()
    ensures Factorization(6) == [2, 3]
  {
    SmallFactorizations();
    FactorizationDouble(3);
  }

  lemma ChromaticLimits()
    ensures Interval(28, 27).Valid() && PrimeLimitOf(Interval(28, 27)) == Ok(7)
    ensures Interval(15, 14).Valid() && PrimeLimitOf(Interval(15, 14)) == Ok(7)
    ensures Interval(6, 5).Valid() && PrimeLimitOf(Interval(6, 5)) == Ok(5)
  {
    LimitOfTwentyEightTwentySevenths();
    LimitOfFifteenFourteenths();
    LimitOfSixFifths();
  }

  lemma LimitOfTwentyEightTwentySevenths()
    ensures Interval(28, 27).Valid() && PrimeLimitOf(Interval(28, 27)) == Ok(7)
  {
    ChromaticFactorizations();
    LimitOf(Interval(28, 27), [2, 2, 7], [3, 3, 3], 7);
  }

  lemma LimitOfFifteenFourteenths()
    ensures Interval(15, 14).Valid() && PrimeLimitOf(Interval(15, 14)) == Ok(7)
  {
    SmallFactorizations();
    ChromaticFactorizations();
    LimitOf(Interval(15, 14), [3, 5], [2, 7], 7);
  }

  lemma LimitOfSixFifths()
    ensures Interval(6, 5).Valid() && PrimeLimitOf(Interval(6, 5)) == Ok(5)
  {
    SmallFactorizations();
    ChromaticFactorizations();
    LimitOf(Interval(6, 5), [2, 3], [5], 5);
  }

  /** JustTetrachord([32/31, 31/30, 5/4]) at the default limit: the intervals
      are kept, the limit becomes 31 and the genus is enharmonic. */
  lemma SemitonesExample()
    ensures var v := [Interval(32, 31), Interval(31, 30), Interval(5, 4)];
      AllValid(v) && NewOf(Some(v), None, 7) == Ok(Tetrachord(v, 31)) &&
      GenusOf(v) == Ok("enharmonic")
  {
    var v := [Interval(32, 31), Interval(31, 30), Interval(5, 4)];
    GenusPrimes();
    SemitonesCompose();
    LimitOfThirtyTwoThirtyFirsts();
    LimitOfThirtyOneThirtieths();
    LimitOfFiveFourths();
    assert IntervalsLimit(v) == Ok(31);
  }

  /** 32/31, 31/30 and 5/4 fill the fourth. */
  lemma SemitonesCompose()
    ensures var v := [Interval(32, 31), Interval(31, 30), Interval(5, 4)];
      AllValid(v) && ValidateOf(v) == Ok(())
  {
    var v := [Interval(32, 31), Interval(31, 30), Interval(5, 4)];
    GcdConsecutive(32);
    GcdConsecutive(31);
    GcdConsecutive(5);
    GcdConsecutive(16);
    FillsFourth(v[0], v[1], v[2], Interval(16, 15));
  }

  /** JustTetrachord(genus='diatonic'): 6/5 is split into 16/15 and 9/8
      below 10/9, and the limit becomes 5. */
  lemma DiatonicExample()
    ensures NewOf(None, Some("diatonic"), 7) ==
      Ok(Tetrachord([Interval(16, 15), Interval(9, 8), Interval(10, 9)], 5))
  {
    var name := "diatonic";
    PlainName(name);
    GenusPrimes();
    var v := [Interval(16, 15), Interval(9, 8), Interval(10, 9)];
    DiatonicSplit();
    var t := SetGenusOf(Tetrachord([], 7), name);
    assert t == SetIntervalsOf(Tetrachord([], 7), v);
    DiatonicLimits();
    assert IntervalsLimit(v) == Ok(5);
  }

  lemma DiatonicSplit()
    ensures var v := [Interval(16, 15), Interval(9, 8), Interval(10, 9)];
      AllValid(v) && SetGenusOf(Tetrachord([], 7), "diatonic") == SetIntervalsOf(Tetrachord([], 7), v) &&
      ValidateOf(v).Ok?
  {
    assert Sub(Fourth, Interval(10, 9)) == Interval(6, 5) by {
      GcdConsecutive(6);
      ReduceCanonical(36, 30, Interval(6, 5));
    }
    DivisionsDiatonicExample();
    DiatonicComposes();
    assert [Interval(16, 15), Interval(9, 8)] + [Interval(10, 9)] ==
      [Interval(16, 15), Interval(9, 8), Interval(10, 9)];
  }

  /** 16/15, 9/8 and 10/9 fill the fourth. */
  lemma DiatonicComposes()
    ensures var v := [Interval(16, 15), Interval(9, 8), Interval(10, 9)];
      AllValid(v) && ValidateOf(v) == Ok(())
  {
    var v := [Interval(16, 15), Interval(9, 8), Interval(10, 9)];
    GcdConsecutive(16);
    GcdConsecutive(9);
    GcdConsecutive(10);
    GcdConsecutive(6);
    FillsFourth(v[0], v[1], v[2], Interval(6, 5));
  }

  lemma DiatonicFactorizations()
    ensures Factorization(16) == [2, 2, 2, 2] && Factorization(9) == [3, 3]
    ensures Factorization(8) == [2, 2, 2] && Factorization(10) == [2, 5]
  {
    FactorizationOfSixteen();
    FactorizationOfNine();
    FactorizationOfTen();
  }

  lemma FactorizationOfEight()
    ensures Factorization(8) == [2, 2, 2]
  {
    SmallFactorizations();
    FactorizationDouble(4);
  }

  lemma FactorizationOfSixteen()
    ensures Factorization(8) == [2, 2, 2] && Factorization(16) == [2, 2, 2, 2]
  {
    FactorizationOfEight();
    FactorizationDouble(8);
  }

  lemma FactorizationOfNine()
    ensures Factorization(9) == [3, 3]
  {
    SmallFactorizations();
    FactorizationStep(9, 3);
  }

  lemma FactorizationOfTen()
    ensures Factorization(10) == [2, 5]
  {
    SmallFactorizations();
    FactorizationDouble(5);
  }

  lemma DiatonicLimits()
    ensures Interval(16, 15).Valid() && PrimeLimitOf(Interval(16, 15)) == Ok(5)
    ensures Interval(9, 8).Valid() && PrimeLimitOf(Interval(9, 8)) == Ok(3)
    ensures Interval(10, 9).Valid() && PrimeLimitOf(Interval(10, 9)) == Ok(5)
  {
    LimitOfSixteenFifteenths();
    LimitOfNineEighths();
    LimitOfTenNinths();
  }

  lemma LimitOfSixteenFifteenths()
    ensures Interval(16, 15).Valid() && PrimeLimitOf(Interval(16, 15)) == Ok(5)
  {
    SmallFactorizations();
    DiatonicFactorizations();
    LimitOf(Interval(16, 15), [2, 2, 2, 2], [3, 5], 5);
  }

  lemma LimitOfNineEighths()
    ensures Interval(9, 8).Valid() && PrimeLimitOf(Interval(9, 8)) == Ok(3)
  {
    DiatonicFactorizations();
    LimitOf(Interval(9, 8), [3, 3], [2, 2, 2], 3);
  }

  lemma LimitOfTenNinths()
    ensures Interval(10, 9).Valid() && PrimeLimitOf(Interval(10, 9)) == Ok(5)
  {
    DiatonicFactorizations();
    LimitOf(Interval(10, 9), [2, 5], [3, 3], 5);
  }

  /** An interval of neighbouring numbers is in lowest terms, and its limit
      is the largest of the factors given for numerator and denominator. */
  lemma LimitOf(a: Interval, nf: seq<int>, df: seq<int>, p: int)
    requires a.num == a.den + 1 && a.den >= 2
    requires Factorization(a.num) == nf && Factorization(a.den) == df
    requires p in nf + df && forall i :: 0 <= i < |nf + df| ==> (nf + df)[i] <= p
    ensures a.Valid() && PrimeLimitOf(a) == Ok(p)
  {
    GcdConsecutive(a.num);
    LimitFromFactors(a, p);
  }


  /** itertools.permutations: for each position in turn, its element
      followed by every arrangement of the others. */
  function Permutations<T>(s: seq<T>): seq<seq<T>>
    decreases |s|, 1
  {
    if s == [] then [[]] else PermutationsFrom(s, 0)
  }

  function PermutationsFrom<T>(s: seq<T>, i: nat): seq<seq<T>>
    requires i <= |s|
    decreases |s|, 0, |s| - i
  {
    if i == |s| then []
    else Prefixed(s[i], Permutations(s[..i] + s[i + 1..])) + PermutationsFrom(s, i + 1)
  }

  function Prefixed<T>(x: T, ps: seq<seq<T>>): (r: seq<seq<T>>)
    ensures |r| == |ps| && forall k :: 0 <= k < |ps| ==> r[k] == [x] + ps[k]
  {
    seq(|ps|, k requires 0 <= k < |ps| => [x] + ps[k])
  }

  lemma PermutationsOfOne<T>(a: T)
    ensures Permutations([a]) == [[a]]
  {
    assert [a][..0] + [a][1..] == [];
    assert Permutations<T>([]) == [[]];
    var p := Prefixed(a, [[]]);
    assert |p| == 1 && p[0] == [a] + [] == [a];
    assert PermutationsFrom([a], 1) == [];
    assert Permutations([a]) == p + [];
  }

  lemma PermutationsOfTwo<T>(a: T, b: T)
    ensures Permutations([a, b]) == [[a, b], [b, a]]
  {
    var s := [a, b];
    assert s[..0] + s[1..] == [b] && s[..1] + s[2..] == [a];
    PermutationsOfOne(a);
    PermutationsOfOne(b);
    assert PermutationsFrom(s, 2) == [];
    var p, q := Prefixed(a, [[b]]), Prefixed(b, [[a]]);
    assert |p| == 1 && p[0] == [a] + [b] == [a, b];
    assert |q| == 1 && q[0] == [b] + [a] == [b, a];
    assert PermutationsFrom(s, 1) == q + [];
    assert Permutations(s) == p + PermutationsFrom(s, 1);
  }

  /** The six arrangements of three, in the order itertools yields them. */
  lemma PermutationsOfThree<T>(a: T, b: T, c: T)
    ensures Permutations([a, b, c]) ==
      [[a, b, c], [a, c, b], [b, a, c], [b, c, a], [c, a, b], [c, b, a]]
  {
    var s := [a, b, c];
    assert s[..0] + s[1..] == [b, c];
    assert s[..1] + s[2..] == [a, c];
    assert s[..2] + s[3..] == [a, b];
    PermutationsOfTwo(b, c);
    PermutationsOfTwo(a, c);
    PermutationsOfTwo(a, b);
    assert PermutationsFrom(s, 3) == [];
    var p, q, u := Prefixed(a, [[b, c], [c, b]]), Prefixed(b, [[a, c], [c, a]]), Prefixed(c, [[a, b], [b, a]]);
    assert p == [[a, b, c], [a, c, b]] by {
      assert p[0] == [a] + [b, c] == [a, b, c] && p[1] == [a] + [c, b] == [a, c, b];
      assert |p| == 2;
    }
    assert q == [[b, a, c], [b, c, a]] by {
      assert q[0] == [b] + [a, c] == [b, a, c] && q[1] == [b] + [c, a] == [b, c, a];
      assert |q| == 2;
    }
    assert u == [[c, a, b], [c, b, a]] by {
      assert u[0] == [c] + [a, b] == [c, a, b] && u[1] == [c] + [b, a] == [c, b, a];
      assert |u| == 2;
    }
    assert PermutationsFrom(s, 2) == u + [];
    assert PermutationsFrom(s, 1) == q + PermutationsFrom(s, 2);
    assert Permutations(s) == p + PermutationsFrom(s, 1);
  }

  /** The results of a list built in order: the values when every entry
      succeeded, else the first error. */
  function Collect<T>(rs: seq<Result<T>>): (r: Result<seq<T>>)
    ensures r.Ok? <==> forall k :: 0 <= k < |rs| ==> rs[k].Ok?
    ensures r.Ok? ==> |r.value| == |rs| && forall k :: 0 <= k < |rs| ==> rs[k] == Ok(r.value[k])
    ensures r.Err? ==> exists k :: 0 <= k < |rs| && rs[k] == Err(r.error)
  {
    if rs == [] then Ok([])
    else
      assert forall k :: 1 <= k < |rs| ==> rs[1..][k - 1] == rs[k];
      match rs[0]
      case Err(e) => Err(e)
      case Ok(x) =>
        match Collect(rs[1..])
        case Err(e) => Err(e)
        case Ok(xs) => Ok([x] + xs)
  }

  /** The first failing entry decides the error. */
  lemma {:induction false} CollectFirstError<T>(rs: seq<Result<T>>, i: int)
    requires 0 <= i < |rs| && rs[i].Err?
    requires forall k :: 0 <= k < i ==> rs[k].Ok?
    ensures Collect(rs) == Err(rs[i].error)
    decreases i
  {
    if i > 0 {
      CollectFirstError(rs[1..], i - 1);
    }
  }

  /** A new tetrachord from each arrangement, with the default limit 7. */
  function Attempts(ps: seq<seq<Interval>>): (r: seq<Result<Tetrachord>>)
    requires forall k :: 0 <= k < |ps| ==> AllValid(ps[k])
    ensures |r| == |ps| && forall k :: 0 <= k < |ps| ==> r[k] == NewOf(Some(ps[k]), None, 7)
  {
    seq(|ps|, k requires 0 <= k < |ps| => NewOf(Some(ps[k]), None, 7))
  }

  /** One more successful attempt extends the list of states. */
  lemma AttemptsStep(ps: seq<seq<Interval>>, states: seq<Tetrachord>, x: Tetrachord)
    requires forall k :: 0 <= k < |ps| ==> AllValid(ps[k])
    requires |states| < |ps| && NewOf(Some(ps[|states|]), None, 7) == Ok(x)
    requires forall k :: 0 <= k < |states| ==> Attempts(ps)[k] == Ok(states[k])
    ensures forall k :: 0 <= k < |states| + 1 ==> Attempts(ps)[k] == Ok((states + [x])[k])
  {
  }

  /** The new tetrachords, in order; the first that fails fails the whole
      list. */
  function NewEach(ps: seq<seq<Interval>>): Result<seq<Tetrachord>>
    requires forall k :: 0 <= k < |ps| ==> AllValid(ps[k])
  {
    Collect(Attempts(ps))
  }

  lemma ArrangementValid(s: seq<Interval>, p: seq<Interval>)
    requires AllValid(s) && multiset(p) == multiset(s)
    ensures AllValid(p)
  {
    forall i | 0 <= i < |p|
      ensures p[i].Valid()
    {
      assert p[i] in multiset(s);
    }
  }

  /** Every arrangement holds the elements of s, as many times each. */
  lemma {:induction false} PermutationsArrange<T>(s: seq<T>)
    ensures forall k :: 0 <= k < |Permutations(s)| ==> multiset(Permutations(s)[k]) == multiset(s)
    decreases |s|, 1
  {
    if s != [] {
      PermutationsFromArrange(s, 0);
    }
  }

  lemma {:induction false} PermutationsFromArrange<T>(s: seq<T>, i: nat)
    requires i <= |s|
    ensures forall k :: 0 <= k < |PermutationsFrom(s, i)| ==>
              multiset(PermutationsFrom(s, i)[k]) == multiset(s)
    decreases |s|, 0, |s| - i
  {
    if i < |s| {
      var rest := s[..i] + s[i + 1..];
      PermutationsArrange(rest);
      PermutationsFromArrange(s, i + 1);
      assert s == s[..i] + [s[i]] + s[i + 1..];
      assert multiset(s) == multiset{s[i]} + multiset(rest);
      var a, b := Prefixed(s[i], Permutations(rest)), PermutationsFrom(s, i + 1);
      assert PermutationsFrom(s, i) == a + b;
      forall k | 0 <= k < |a + b|
        ensures multiset((a + b)[k]) == multiset(s)
      {
        if k < |a| {
          assert (a + b)[k] == [s[i]] + Permutations(rest)[k];
        } else {
          assert (a + b)[k] == b[k - |a|];
        }
      }
    }
  }

  function Factorial(n: nat): nat
  {
    if n == 0 then 1 else n * Factorial(n - 1)
  }

  /** There are n! arrangements of n elements. */
  lemma {:induction false} PermutationsCount<T>(s: seq<T>)
    ensures |Permutations(s)| == Factorial(|s|)
    decreases |s|, 1
  {
    if s != [] {
      PermutationsFromCount(s, 0);
    }
  }

  lemma {:induction false} PermutationsFromCount<T>(s: seq<T>, i: nat)
    requires i <= |s| && |s| >= 1
    ensures |PermutationsFrom(s, i)| == (|s| - i) * Factorial(|s| - 1)
    decreases |s|, 0, |s| - i
  {
    if i < |s| {
      var rest := s[..i] + s[i + 1..];
      PermutationsCount(rest);
      PermutationsFromCount(s, i + 1);
      var f := Factorial(|s| - 1);
      assert (|s| - i) * f == f + (|s| - (i + 1)) * f;
    }
  }

  /** Arrangements of valid intervals are valid. */
  lemma PermutationsValid(s: seq<Interval>)
    requires AllValid(s)
    ensures forall k :: 0 <= k < |Permutations(s)| ==> AllValid(Permutations(s)[k])
  {
    PermutationsArrange(s);
    forall k | 0 <= k < |Permutations(s)|
      ensures AllValid(Permutations(s)[k])
    {
      ArrangementValid(s, Permutations(s)[k]);
    }
  }

  /** NewEach succeeds exactly when every arrangement is a valid tetrachord,
      and then holds them in order; otherwise it is a ValueError. */
  lemma NewEachCorrect(ps: seq<seq<Interval>>)
    requires forall k :: 0 <= k < |ps| ==> AllValid(ps[k])
    ensures NewEach(ps).Ok? <==> forall k :: 0 <= k < |ps| ==> ValidateOf(ps[k]).Ok?
    ensures NewEach(ps).Err? ==> NewEach(ps).error == ValueError
    ensures NewEach(ps).Ok? ==>
              |NewEach(ps).value| == |ps| &&
              forall k :: 0 <= k < |ps| ==> Ok(NewEach(ps).value[k]) == SetIntervalsOf(Tetrachord([], 7), ps[k])
  {
    SmallPrimes();
    var rs := Attempts(ps);
    forall k | 0 <= k < |ps|
      ensures rs[k] == SetIntervalsOf(Tetrachord([], 7), ps[k])
      ensures rs[k].Ok? <==> ValidateOf(ps[k]).Ok?
      ensures rs[k].Err? ==> rs[k].error == ValueError
    {
      SetIntervalsCorrect(Tetrachord([], 7), ps[k]);
    }
  }

  /** JustTetrachord.permutations: a new tetrachord (at the default limit)
      from each arrangement of the intervals. */
  function TetrachordPermutations(intervals: seq<Interval>): Result<seq<Tetrachord>>
    requires AllValid(intervals)
  {
    PermutationsValid(intervals);
    NewEach(Permutations(intervals))
  }

  /** The prime limit of three intervals whose limits exist. */
  lemma LimitOfThree(x: Interval, y: Interval, z: Interval)
    requires x.Valid() && y.Valid() && z.Valid()
    requires PrimeLimitOf(x).Ok? && PrimeLimitOf(y).Ok? && PrimeLimitOf(z).Ok?
    ensures IntervalsLimit([x, y, z]) ==
            Ok(Max(Max(PrimeLimitOf(x).value, PrimeLimitOf(y).value), PrimeLimitOf(z).value))
  {
    var v := [x, y, z];
    assert v[0] == x && v[1] == y && v[2] == z;
  }

  /** The prime limit of three intervals does not depend on their order. */
  lemma LimitOfArrangements(a: Interval, b: Interval, c: Interval, p: seq<Interval>)
    requires a.Valid() && b.Valid() && c.Valid()
    requires IntervalsLimit([a, b, c]).Ok?
    requires p == [a, c, b] || p == [b, a, c] || p == [b, c, a] || p == [c, a, b] || p == [c, b, a]
    ensures AllValid(p) && IntervalsLimit(p) == IntervalsLimit([a, b, c])
  {
    var v := [a, b, c];
    assert v[0] == a && v[1] == b && v[2] == c;
    LimitOfThree(a, b, c);
    if p == [a, c, b] {
      LimitOfThree(a, c, b);
      AllValidOfThree(a, c, b);
    } else if p == [b, a, c] {
      LimitOfThree(b, a, c);
      AllValidOfThree(b, a, c);
    } else if p == [b, c, a] {
      LimitOfThree(b, c, a);
      AllValidOfThree(b, c, a);
    } else if p == [c, a, b] {
      LimitOfThree(c, a, b);
      AllValidOfThree(c, a, b);
    } else {
      LimitOfThree(c, b, a);
      AllValidOfThree(c, b, a);
    }
  }

  /** A validated list sets the intervals at the largest of their limits. */
  lemma SetIntervalsValue(s: Tetrachord, v: seq<Interval>)
    requires AllValid(v) && ValidateOf(v).Ok?
    ensures IntervalsLimit(v).Ok?
    ensures SetIntervalsOf(s, v) == Ok(Tetrachord(v, IntervalsLimit(v).value))
  {
    SetIntervalsCorrect(s, v);
  }

  /** Each arrangement of a valid tetrachord is accepted at the
      tetrachord's own limit. */
  lemma ArrangementAccepted(intervals: seq<Interval>, k: int)
    requires AllValid(intervals) && ValidateOf(intervals).Ok?
    requires 0 <= k < |Permutations(intervals)|
    ensures AllValid(Permutations(intervals)[k]) && IntervalsLimit(intervals).Ok?
    ensures SetIntervalsOf(Tetrachord([], 7), Permutations(intervals)[k]) ==
            Ok(Tetrachord(Permutations(intervals)[k], IntervalsLimit(intervals).value))
  {
    var a, b, c := intervals[0], intervals[1], intervals[2];
    assert intervals == [a, b, c];
    var p := Permutations(intervals)[k];
    assert p == [a, b, c] || p == [a, c, b] || p == [b, a, c] ||
           p == [b, c, a] || p == [c, a, b] || p == [c, b, a] by {
      PermutationsOfThree(a, b, c);
    }
    assert AllValid(p) && multiset(p) == multiset(intervals) by {
      PermutationsArrange(intervals);
      ArrangementValid(intervals, p);
    }
    ValidatePermutation(p, intervals);
    SetIntervalsValue(Tetrachord([], 7), intervals);
    if p != intervals {
      LimitOfArrangements(a, b, c, p);
    }
    SetIntervalsValue(Tetrachord([], 7), p);
  }

  /** A valid tetrachord has six permutations, in the order itertools
      yields them, each at the tetrachord's own limit; an empty one has
      none, since its single empty arrangement fails validation. */
  lemma TetrachordPermutationsCorrect(intervals: seq<Interval>)
    requires AllValid(intervals)
    ensures intervals == [] ==> TetrachordPermutations(intervals) == Err(ValueError)
    ensures ValidateOf(intervals).Ok? ==>
              var r := TetrachordPermutations(intervals);
              |Permutations(intervals)| == 6 && r.Ok? && |r.value| == 6 &&
              forall k :: 0 <= k < 6 ==>
                r.value[k].intervals == Permutations(intervals)[k] &&
                Ok(r.value[k].primeLimit) == IntervalsLimit(intervals)
  {
    PermutationsValid(intervals);
    var ps := Permutations(intervals);
    NewEachCorrect(ps);
    if intervals == [] {
      assert ps == [[]];
      assert ValidateOf(ps[0]).Err?;
    }
    if ValidateOf(intervals).Ok? {
      PermutationsCount(intervals);
      assert Factorial(3) == 6;
      SetIntervalsValue(Tetrachord([], 7), intervals);
      forall k | 0 <= k < 6
        ensures ValidateOf(ps[k]).Ok?
        ensures SetIntervalsOf(Tetrachord([], 7), ps[k]) == Ok(Tetrachord(ps[k], IntervalsLimit(intervals).value))
      {
        ArrangementAccepted(intervals, k);
        SetIntervalsCorrect(Tetrachord([], 7), ps[k]);
      }
    }
  }

  // JustTetrachordalScale.

  /** The intervals of a tetrachordal scale: the lower tetrachord, the 9/8
      disjunction and the upper tetrachord. Two valid tetrachords fill an
      octave. */
  function ScaleIntervalsOf(lower: seq<Interval>, upper: seq<Interval>): (r: seq<Interval>)
    requires AllValid(lower) && AllValid(upper)
    ensures AllValid(r) && |r| == |lower| + 1 + |upper|
    ensures ValidateOf(lower).Ok? && ValidateOf(upper).Ok? ==> |r| == 7 && Compose(r) == Octave
  {
    FillsOctave(lower, upper);
    lower + [Disjunction] + upper
  }

  lemma FillsOctave(lower: seq<Interval>, upper: seq<Interval>)
    requires AllValid(lower) && AllValid(upper)
    ensures AllValid(lower + [Disjunction] + upper)
    ensures ValidateOf(lower).Ok? && ValidateOf(upper).Ok? ==> Compose(lower + [Disjunction] + upper) == Octave
  {
    ComposeAppend(lower, [Disjunction]);
    ComposeAppend(lower + [Disjunction], upper);
    if ValidateOf(lower).Ok? && ValidateOf(upper).Ok? {
      ComposeSingle(Disjunction);
      assert Add(Fourth, Disjunction) == Interval(3, 2) by {
        ReduceCanonical(36, 24, Interval(3, 2));
      }
      SubExamples();
    }
  }

  /** JustTetrachordalScale.tones: the unison, the running total of the
      intervals before each inner degree, and the octave. */
  function TetrachordalTones(ivs: seq<Interval>): (r: seq<Interval>)
    requires AllValid(ivs)
    ensures AllValid(r) && |r| == if ivs == [] then 2 else |ivs| + 1
    ensures r[0] == Unison && r[|r| - 1] == Octave
  {
    var totals := if ivs == [] then [] else seq(|ivs| - 1, i requires 0 <= i < |ivs| - 1 => Compose(ivs[..i + 1]));
    [Unison] + totals + [Octave]
  }

  /** Seven intervals that fill an octave: each tone is the running total
      before it. */
  lemma TonesAreTotals(ivs: seq<Interval>)
    requires AllValid(ivs) && |ivs| == 7 && Compose(ivs) == Octave
    ensures |TetrachordalTones(ivs)| == 8
    ensures forall k :: 0 <= k < 8 ==> TetrachordalTones(ivs)[k] == Compose(ivs[..k])
  {
    assert ivs[..7] == ivs;
  }

  /** Running totals never fall. */
  lemma TotalsRise(ivs: seq<Interval>, t: seq<Interval>)
    requires AllValid(ivs) && |t| == |ivs| + 1
    requires forall k :: 0 <= k < |t| ==> t[k] == Compose(ivs[..k])
    ensures AllValid(t) && Sorted(t)
  {
    forall i, j | 0 <= i < j < |t|
      ensures LessEq(t[i], t[j])
    {
      assert ivs[..j] == ivs[..i] + ivs[i..j];
      ComposeAppend(ivs[..i], ivs[i..j]);
      AddAtLeast(Compose(ivs[..i]), Compose(ivs[i..j]));
    }
  }

  /** The steps between running totals are the intervals. */
  lemma TotalsSteps(ivs: seq<Interval>, t: seq<Interval>)
    requires AllValid(ivs) && |t| == |ivs| + 1
    requires forall k :: 0 <= k < |t| ==> t[k] == Compose(ivs[..k])
    ensures AllValid(t) && Steps(t) == ivs
  {
    forall k | 0 <= k < |ivs|
      ensures Steps(t)[k] == ivs[k]
    {
      assert ivs[..k + 1][..k] == ivs[..k];
      assert t[k + 1] == Add(t[k], ivs[k]);
      AddCommutative(t[k], ivs[k]);
      AddSubInverse(ivs[k], t[k]);
    }
  }

  /** For two valid tetrachords the eight tones are the running totals of
      the scale's intervals, they rise, and the steps between them give the
      intervals back. */
  lemma TetrachordalTonesCorrect(lower: seq<Interval>, upper: seq<Interval>)
    requires AllValid(lower) && AllValid(upper)
    requires ValidateOf(lower).Ok? && ValidateOf(upper).Ok?
    ensures var ivs := ScaleIntervalsOf(lower, upper);
            var t := TetrachordalTones(ivs);
            |t| == 8 && (forall k :: 0 <= k < 8 ==> t[k] == Compose(ivs[..k])) &&
            Sorted(t) && ScaleIntervals(t) == ivs
  {
    var ivs := ScaleIntervalsOf(lower, upper);
    var t := TetrachordalTones(ivs);
    TonesAreTotals(ivs);
    TotalsRise(ivs, t);
    TotalsSteps(ivs, t);
    SortedTonesOfSorted(t);
  }

  /** One more interval onto a running total. */
  lemma TotalStep(ivs: seq<Interval>, k: int, prev: Interval, next: Interval)
    requires AllValid(ivs) && 0 <= k < |ivs| && next.Valid()
    requires Compose(ivs[..k]) == prev
    requires SameRatio(next.num, next.den, prev.num * ivs[k].num, prev.den * ivs[k].den)
    ensures Compose(ivs[..k + 1]) == next
  {
    assert ivs[..k + 1][..k] == ivs[..k];
    assert ivs[..k + 1][k] == ivs[k];
    MulMonotone(1, prev.den, 1, ivs[k].den);
    MulMonotone(prev.den, prev.num, ivs[k].den, ivs[k].num);
    ReduceCanonical(prev.num * ivs[k].num, prev.den * ivs[k].den, next);
  }

  /** The diatonic tetrachord twice, joined by 9/8: the tones of the
      documented diatonic scale. */
  lemma DiatonicScaleTones()
    ensures var d := [Interval(16, 15), Interval(9, 8), Interval(10, 9)];
      AllValid(d) &&
      TetrachordalTones(ScaleIntervalsOf(d, d)) ==
        [Unison, Interval(16, 15), Interval(6, 5), Interval(4, 3),
         Interval(3, 2), Interval(8, 5), Interval(9, 5), Octave]
  {
    var d := [Interval(16, 15), Interval(9, 8), Interval(10, 9)];
    DiatonicStepsValid();
    assert ScaleIntervalsOf(d, d) == DiatonicSteps by {
      JoinedSteps(d, d);
    }
    DiatonicTotalsLow();
    DiatonicTotalsHigh();
    TonesOfSeven(DiatonicSteps, Interval(16, 15), Interval(6, 5), Interval(4, 3),
      Interval(3, 2), Interval(8, 5), Interval(9, 5));
  }

  /** The steps of a tetrachordal scale: the lower tetrachord, the tone of
      disjunction, the upper tetrachord. */
  lemma JoinedSteps(lower: seq<Interval>, upper: seq<Interval>)
    requires AllValid(lower) && AllValid(upper)
    ensures ScaleIntervalsOf(lower, upper) == lower + [Disjunction] + upper
  {
  }

  /** The tones of seven steps, from their running totals. */
  lemma TonesOfSeven(ivs: seq<Interval>, t1: Interval, t2: Interval, t3: Interval,
                     t4: Interval, t5: Interval, t6: Interval)
    requires AllValid(ivs) && |ivs| == 7
    requires Compose(ivs[..1]) == t1 && Compose(ivs[..2]) == t2 && Compose(ivs[..3]) == t3
    requires Compose(ivs[..4]) == t4 && Compose(ivs[..5]) == t5 && Compose(ivs[..6]) == t6
    ensures TetrachordalTones(ivs) == [Unison, t1, t2, t3, t4, t5, t6, Octave]
  {
    var r := TetrachordalTones(ivs);
    assert r == [r[0], r[1], r[2], r[3], r[4], r[5], r[6], r[7]];
  }

  /** The seven steps of the diatonic tetrachordal scale. */
  const DiatonicSteps: seq<Interval> :=
    [Interval(16, 15), Interval(9, 8), Interval(10, 9), Interval(9, 8),
     Interval(16, 15), Interval(9, 8), Interval(10, 9)]

  lemma DiatonicStepsValid()
    ensures AllValid(DiatonicSteps)
  {
    GcdConsecutive(16);
    GcdConsecutive(9);
    GcdConsecutive(10);
  }

  lemma DiatonicTotalsLow()
    ensures AllValid(DiatonicSteps)
    ensures Compose(DiatonicSteps[..1]) == Interval(16, 15)
    ensures Compose(DiatonicSteps[..2]) == Interval(6, 5)
    ensures Compose(DiatonicSteps[..3]) == Interval(4, 3)
  {
    DiatonicStepsValid();
    var ivs := DiatonicSteps;
    GcdConsecutive(16);
    GcdConsecutive(6);
    GcdConsecutive(4);
    assert ivs[..0] == [];
    TotalStep(ivs, 0, Unison, Interval(16, 15));
    TotalStep(ivs, 1, Interval(16, 15), Interval(6, 5));
    TotalStep(ivs, 2, Interval(6, 5), Interval(4, 3));
  }

  lemma DiatonicTotalsHigh()
    ensures AllValid(DiatonicSteps)
    ensures Compose(DiatonicSteps[..4]) == Interval(3, 2)
    ensures Compose(DiatonicSteps[..5]) == Interval(8, 5)
    ensures Compose(DiatonicSteps[..6]) == Interval(9, 5)
  {
    DiatonicTotalsLow();
    var ivs := DiatonicSteps;
    GcdConsecutive(3);
    assert Interval(8, 5).Valid() && Interval(9, 5).Valid();
    TotalStep(ivs, 3, Interval(4, 3), Interval(3, 2));
    TotalStep(ivs, 4, Interval(3, 2), Interval(8, 5));
    TotalStep(ivs, 5, Interval(8, 5), Interval(9, 5));
  }

  /** JustTetrachordalScale.complement: the complement of every tone, as
      the list a new JustScale is made from. */
  function TetrachordalComplement(lower: seq<Interval>, upper: seq<Interval>): Option<seq<Interval>>
    requires AllValid(lower) && AllValid(upper)
  {
    Complements(TetrachordalTones(ScaleIntervalsOf(lower, upper)))
  }

  /** Every tone of a scale of two valid tetrachords lies within the
      octave, so each has a complement, and tone and complement together
      make the octave. */
  lemma TetrachordalComplementCorrect(lower: seq<Interval>, upper: seq<Interval>)
    requires AllValid(lower) && AllValid(upper)
    requires ValidateOf(lower).Ok? && ValidateOf(upper).Ok?
    ensures var t := TetrachordalTones(ScaleIntervalsOf(lower, upper));
            var c := TetrachordalComplement(lower, upper);
            c.Some? && |c.value| == 8 && AllValid(c.value) &&
            c.value[0] == Octave && c.value[7] == Unison &&
            forall k :: 0 <= k < 8 ==> Add(t[k], c.value[k]) == Octave
  {
    var t := TetrachordalTones(ScaleIntervalsOf(lower, upper));
    TetrachordalTonesCorrect(lower, upper);
    forall k | 0 <= k < 8
      ensures LessEq(t[k], Octave)
    {
      assert t[7] == Octave;
    }
    ComplementsCorrect(t);
    ComplementsLaw(t);
    var c := Complements(t).value;
    forall k | 0 <= k < 8
      ensures Add(t[k], c[k]) == Octave
    {
      OrderTotal(t[k], Octave);
      AddUnison(Octave);
    }
  }

  /** JustTetrachordalScale.genera: the genus of the lower tetrachord, then
      of the upper; an empty one raises. */
  function GeneraOf(lower: seq<Interval>, upper: seq<Interval>): (r: Result<(string, string)>)
    ensures r.Ok? <==> lower != [] && upper != []
    ensures r.Err? ==> r.error == ValueError
    ensures r.Ok? ==> GenusOf(lower) == Ok(r.value.0) && GenusOf(upper) == Ok(r.value.1)
  {
    match GenusOf(lower)
    case Err(e) => Err(e)
    case Ok(g) =>
      match GenusOf(upper)
      case Err(e) => Err(e)
      case Ok(h) => Ok((g, h))
  }

  /** JustTetrachordalScale.prime_limit: the larger of the two limits. */
  function ScaleLimitOf(lower: Tetrachord, upper: Tetrachord): (r: int)
    ensures r >= lower.primeLimit && r >= upper.primeLimit
    ensures r == lower.primeLimit || r == upper.primeLimit
  {
    Max(lower.primeLimit, upper.primeLimit)
  }

  /** itertools.product of two lists: every pair, the first list's element
      varying slowest. */
  function ProductOf<A, B>(xs: seq<A>, ys: seq<B>): (r: seq<(A, B)>)
    ensures |r| == |xs| * |ys|
  {
    if xs == [] then []
    else
      assert |xs| * |ys| == |ys| + (|xs| - 1) * |ys|;
      seq(|ys|, j requires 0 <= j < |ys| => (xs[0], ys[j])) + ProductOf(xs[1..], ys)
  }

  /** Pair i |ys| + j of the product is (xs[i], ys[j]). */
  lemma {:induction false} ProductIndex<A, B>(xs: seq<A>, ys: seq<B>, i: int, j: int)
    requires 0 <= i < |xs| && 0 <= j < |ys|
    ensures i * |ys| + j < |ProductOf(xs, ys)|
    ensures ProductOf(xs, ys)[i * |ys| + j] == (xs[i], ys[j])
    decreases i
  {
    if i > 0 {
      ProductIndex(xs[1..], ys, i - 1, j);
      assert i * |ys| + j == |ys| + ((i - 1) * |ys| + j);
    }
  }

  /** JustTetrachordalScale.permutations: every pair of a permutation of
      the lower tetrachord with one of the upper. */
  function ScalePermutationsOf(lower: seq<Interval>, upper: seq<Interval>): Result<seq<(Tetrachord, Tetrachord)>>
    requires AllValid(lower) && AllValid(upper)
  {
    match TetrachordPermutations(lower)
    case Err(e) => Err(e)
    case Ok(ls) =>
      match TetrachordPermutations(upper)
      case Err(e) => Err(e)
      case Ok(us) => Ok(ProductOf(ls, us))
  }

  /** Two valid tetrachords give thirty-six scales: pair 6 i + j joins the
      i-th permutation of the lower with the j-th of the upper. */
  lemma ScalePermutationsCorrect(lower: seq<Interval>, upper: seq<Interval>, i: int, j: int)
    requires AllValid(lower) && AllValid(upper)
    requires ValidateOf(lower).Ok? && ValidateOf(upper).Ok?
    requires 0 <= i < 6 && 0 <= j < 6
    ensures |Permutations(lower)| == 6 && |Permutations(upper)| == 6
    ensures ScalePermutationsOf(lower, upper).Ok? && |ScalePermutationsOf(lower, upper).value| == 36
    ensures ScalePermutationsOf(lower, upper).value[6 * i + j].0.intervals == Permutations(lower)[i]
    ensures ScalePermutationsOf(lower, upper).value[6 * i + j].1.intervals == Permutations(upper)[j]
  {
    assert TetrachordPermutations(lower).Ok? && |TetrachordPermutations(lower).value| == 6 &&
           |Permutations(lower)| == 6 &&
           TetrachordPermutations(lower).value[i].intervals == Permutations(lower)[i] by {
      TetrachordPermutationsCorrect(lower);
    }
    assert TetrachordPermutations(upper).Ok? && |TetrachordPermutations(upper).value| == 6 &&
           |Permutations(upper)| == 6 &&
           TetrachordPermutations(upper).value[j].intervals == Permutations(upper)[j] by {
      TetrachordPermutationsCorrect(upper);
    }
    var ls, us := TetrachordPermutations(lower).value, TetrachordPermutations(upper).value;
    assert ScalePermutationsOf(lower, upper) == Ok(ProductOf(ls, us));
    ProductOfSix(ls, us, i, j);
  }

  /** The product of two lists of six: 36 pairs, pair 6 i + j being
      (xs[i], ys[j]). */
  lemma ProductOfSix<A, B>(xs: seq<A>, ys: seq<B>, i: int, j: int)
    requires |xs| == 6 && |ys| == 6 && 0 <= i < 6 && 0 <= j < 6
    ensures |ProductOf(xs, ys)| == 36 && ProductOf(xs, ys)[6 * i + j] == (xs[i], ys[j])
  {
    ProductIndex(xs, ys, i, j);
    assert i * |ys| == 6 * i;
  }

  class JustTetrachord {
    var intervals: seq<Interval>
    var primeLimit: int

    function State(): Tetrachord
      reads this
    {
      Tetrachord(intervals, primeLimit)
    }

    /** An empty tetrachord at the given limit. */
    constructor Init(limit: int)
      ensures State() == Tetrachord([], limit)
    {
      intervals := [];
      primeLimit := limit;
    }

    /** JustTetrachord(intervals, genus, prime_limit). */
    static method New(intervals: Option<seq<Interval>>, genus: Option<string>, limit: int)
      returns (r: Result<JustTetrachord>)
      requires intervals.Some? ==> AllValid(intervals.value)
      ensures r.Ok? <==> NewOf(intervals, genus, limit).Ok?
      ensures r.Err? ==> NewOf(intervals, genus, limit) == Err(r.error)
      ensures r.Ok? ==> fresh(r.value) && Ok(r.value.State()) == NewOf(intervals, genus, limit)
    {
      var limitIsPrime := CheckPrime(limit);
      if !limitIsPrime {
        return Err(ValueError);
      }
      var t := new JustTetrachord.Init(limit);
      if intervals.Some? {
        var outcome := t.SetIntervals(intervals.value);
        if outcome.Err? {
          return Err(outcome.error);
        }
      } else if genus.Some? {
        var outcome := t.SetGenus(Lower(Strip(genus.value)));
        if outcome.Err? {
          return Err(outcome.error);
        }
      }
      return Ok(t);
    }

    /** The intervals setter: validate, then store the largest prime limit
        and the intervals; on an error nothing changes. */
    method SetIntervals(values: seq<Interval>) returns (r: Result<()>)
      requires AllValid(values)
      modifies this
      ensures r.Ok? <==> SetIntervalsOf(old(State()), values).Ok?
      ensures r.Ok? ==> Ok(State()) == SetIntervalsOf(old(State()), values)
      ensures r.Err? ==> SetIntervalsOf(old(State()), values) == Err(r.error) && State() == old(State())
    {
      var valid := ValidateTetrachord(values);
      if valid.Err? {
        return Err(valid.error);
      }
      match IntervalsLimit(values)
      case Err(e) =>
        return Err(e);
      case Ok(m) =>
        primeLimit := m;
        intervals := values;
        return Ok(());
    }

    /** The genus setter: the characteristic on top of the remainder split
        in two at the tetrachord's limit. */
    method SetGenus(name: string) returns (r: Result<()>)
      modifies this
      ensures r.Ok? <==> SetGenusOf(old(State()), name).Ok?
      ensures r.Ok? ==> Ok(State()) == SetGenusOf(old(State()), name)
      ensures r.Err? ==> SetGenusOf(old(State()), name) == Err(r.error) && State() == old(State())
    {
      var characteristic := Characteristic(name);
      if characteristic.Err? {
        return Err(characteristic.error);
      }
      var c := characteristic.value;
      var remainder := Sub(Fourth, c);
      var ds := Divisions.Divisions(remainder, 2, primeLimit, 30);
      if ds.Err? {
        return Err(ds.error);
      }
      DivisionsValid(remainder, 2, primeLimit, 30);
      r := SetIntervals(ds.value + [c]);
    }

    /** The permutations property: a new tetrachord from each arrangement,
        made in order; the first that fails fails the whole list. */
    method Arrangements() returns (r: Result<seq<JustTetrachord>>)
      requires AllValid(intervals)
      ensures r.Ok? <==> TetrachordPermutations(intervals).Ok?
      ensures r.Err? ==> TetrachordPermutations(intervals) == Err(r.error)
      ensures r.Ok? ==>
                |r.value| == |TetrachordPermutations(intervals).value| &&
                forall k :: 0 <= k < |r.value| ==>
                  fresh(r.value[k]) && r.value[k].State() == TetrachordPermutations(intervals).value[k]
    {
      PermutationsValid(intervals);
      var ps := Permutations(intervals);
      var made: seq<JustTetrachord> := [];
      ghost var states: seq<Tetrachord> := [];
      var i := 0;
      while i < |ps|
        invariant 0 <= i <= |ps| && |made| == i && |states| == i
        invariant forall k :: 0 <= k < i ==> fresh(made[k])
        invariant forall k :: 0 <= k < i ==> made[k].State() == states[k]
        invariant forall k :: 0 <= k < i ==> Attempts(ps)[k] == Ok(states[k])
      {
        var t := New(Some(ps[i]), None, 7);
        if t.Err? {
          CollectFirstError(Attempts(ps), i);
          return Err(t.error);
        }
        AttemptsStep(ps, states, t.value.State());
        made := made + [t.value];
        states := states + [t.value.State()];
        i := i + 1;
      }
      return Ok(made);
    }

    /** __eq__: the same intervals. */
    predicate Equals(other: JustTetrachord)
      reads this, other
    {
      intervals == other.intervals
    }
  }

  /** A JustTetrachordalScale: a lower and an upper tetrachord, which may be
      one and the same object. */
  class JustTetrachordalScale {
    var lower: JustTetrachord
    var upper: JustTetrachord

    /** With no upper tetrachord the lower one serves for both, and the
        scale is equal. */
    constructor (lower: JustTetrachord, upper: Option<JustTetrachord>)
      ensures this.lower == lower
      ensures this.upper == if upper.Some? then upper.value else lower
      ensures upper.None? ==> IsEqual()
      ensures upper.Some? ==> (IsEqual() <==> lower.intervals == upper.value.intervals)
    {
      this.lower := lower;
      this.upper := if upper.Some? then upper.value else lower;
    }

    /** The lower setter: a tetrachord that fails validation is refused and
        nothing changes. */
    method SetLower(value: JustTetrachord) returns (r: Result<()>)
      requires AllValid(value.intervals)
      modifies this
      ensures r == ValidateOf(value.intervals)
      ensures lower == (if r.Ok? then value else old(lower)) && upper == old(upper)
    {
      r := ValidateTetrachord(value.intervals);
      if r.Ok? {
        lower := value;
      }
    }

    /** The upper setter, likewise. */
    method SetUpper(value: JustTetrachord) returns (r: Result<()>)
      requires AllValid(value.intervals)
      modifies this
      ensures r == ValidateOf(value.intervals)
      ensures upper == (if r.Ok? then value else old(upper)) && lower == old(lower)
    {
      r := ValidateTetrachord(value.intervals);
      if r.Ok? {
        upper := value;
      }
    }

    /** is_equal: the two tetrachords have the same intervals. */
    predicate IsEqual()
      reads this, lower, upper
    {
      lower.Equals(upper)
    }
  }
}
