/** Harmonic segments: a list of tones written as whole numbers of one
    harmonic series, and the odd "identities" of harmonic numbers. */
module Harmonics {
  import opened NumberTheory
  import opened Results
  import opened Primes
  import opened Intervals
  import opened Compositions

  // Identities.

  /** harmonic_to_identity: the harmonic divided dy 2 raised to the number
      of 2s among its prime factors. prime_factors of a number below 2 is
      empty, so such a number is its own identity. */
  function Identity(harmonic: int): int
  {
    harmonic / Pow2(multiset(Factorization(harmonic))[2])
  }

  lemma OddHasNoTwos(x: nat)
    requires x >= 1 && x % 2 == 1
    ensures TwoExponent(x) == 0 && Odd(x) == x
  {
  }

  /** Trial division takes the smallest divisor first. */
  lemma FactorizationStep(h: int)
    requires h >= 2
    ensures SmallestDivisor(h, 2) >= 2 && h % SmallestDivisor(h, 2) == 0
    ensures 1 <= h / SmallestDivisor(h, 2) < h
    ensures Factorization(h) == [SmallestDivisor(h, 2)] + Factorization(h / SmallestDivisor(h, 2))
  {
    QuotientBelow(h, SmallestDivisor(h, 2));
  }

  /** An odd number has only odd divisors and odd quotients. */
  lemma OddQuotient(h: int, p: int)
    requires h >= 1 && h % 2 == 1 && p >= 1 && h % p == 0
    ensures p % 2 == 1 && (h / p) % 2 == 1
  {
    var q := h / p;
    assert h == p * q;
    if q % 2 == 0 {
      HalfOfEven(q, p);
      MulComm(p, q);
    }
    if p % 2 == 0 {
      HalfOfEven(p, q);
    }
  }

  lemma TwosOfProduct(p: int, rest: seq<int>)
    ensures multiset([p] + rest)[2] == (if p == 2 then 1 else 0) + multiset(rest)[2]
  {
    assert multiset([p] + rest) == multiset{p} + multiset(rest);
  }

  /** Trial division finds exactly TwoExponent(h) factors 2 in h. */
  lemma {:induction false} TwosInFactorization(h: int)
    requires h >= 1
    ensures multiset(Factorization(h))[2] == TwoExponent(h)
    decreases h
  {
    if h >= 2 {
      var p := SmallestDivisor(h, 2);
      FactorizationStep(h);
      var q := h / p;
      TwosInFactorization(q);
      TwosOfProduct(p, Factorization(q));
      if h % 2 == 0 {
        assert p == 2;
      } else {
        OddQuotient(h, p);
        OddHasNoTwos(q);
      }
    }
  }

  /** The identity of a positive harmonic is its odd part: odd, and the
      harmonic is the identity times a power of two. */
  lemma IdentityIsOddPart(h: int)
    requires h >= 1
    ensures Identity(h) == Odd(h) && Identity(h) % 2 == 1
    ensures h == Identity(h) * Pow2(TwoExponent(h))
  {
    TwosInFactorization(h);
    OddDecomposition(h);
    MulModZero(Pow2(TwoExponent(h)), Odd(h));
    MulComm(Odd(h), Pow2(TwoExponent(h)));
  }

  /** An octave up or down does not change the identity. */
  lemma IdentityOfDouble(h: int)
    requires h >= 1
    ensures Identity(2 * h) == Identity(h)
  {
    IdentityIsOddPart(h);
    IdentityIsOddPart(2 * h);
    OddTwice(h);
  }

  lemma IdentityExamples()
    ensures Identity(6) == 3 && Identity(4) == 1 && Identity(5) == 5
    ensures Identity(1) == 1 && Identity(0) == 0
  {
    IdentityIsOddPart(6);
    IdentityIsOddPart(4);
    IdentityIsOddPart(5);
  }

  /** harmonic_segment_to_identities: the identity of each harmonic. */
  function Identities(segment: seq<int>): (r: seq<int>)
    ensures |r| == |segment| && forall i :: 0 <= i < |r| ==> r[i] == Identity(segment[i])
  {
    seq(|segment|, i requires 0 <= i < |segment| => Identity(segment[i]))
  }

  /** For a segment of positive harmonics, every identity is odd and each
      harmonic is its identity raised dy octaves. */
  lemma IdentitiesOdd(segment: seq<int>)
    requires forall i :: 0 <= i < |segment| ==> segment[i] >= 1
    ensures forall i :: 0 <= i < |segment| ==>
      Identities(segment)[i] % 2 == 1 &&
      segment[i] == Identities(segment)[i] * Pow2(TwoExponent(segment[i]))
  {
    forall i | 0 <= i < |segment|
      ensures Identities(segment)[i] % 2 == 1
      ensures segment[i] == Identities(segment)[i] * Pow2(TwoExponent(segment[i]))
    {
      IdentityIsOddPart(segment[i]);
    }
  }

  lemma IdentityValues()
    ensures Identity(7) == 7 && Identity(9) == 9 && Identity(10) == 5
    ensures Identity(12) == 3 && Identity(15) == 15
  {
    IdentityIsOddPart(7);
    IdentityIsOddPart(9);
    IdentityIsOddPart(10);
    assert Odd(10) == Odd(5) == 5;
    IdentityIsOddPart(12);
    assert Odd(12) == Odd(6) == Odd(3) == 3;
    IdentityIsOddPart(15);
  }

  lemma IdentitiesExamples()
    ensures Identities([4, 5, 6]) == [1, 5, 3]
    ensures Identities([10, 12, 15]) == [5, 3, 15]
    ensures Identities([4, 5, 6, 7, 9]) == [1, 5, 3, 7, 9]
  {
    IdentityExamples();
    IdentityValues();
    IdentitiesOfThree(4, 5, 6);
    IdentitiesOfThree(10, 12, 15);
    IdentitiesOfFive(4, 5, 6, 7, 9);
  }

  lemma IdentitiesOfThree(a: int, b: int, c: int)
    ensures Identities([a, b, c]) == [Identity(a), Identity(b), Identity(c)]
  {
  }

  lemma IdentitiesOfFive(a: int, b: int, c: int, d: int, e: int)
    ensures Identities([a, b, c, d, e]) == [Identity(a), Identity(b), Identity(c), Identity(d), Identity(e)]
  {
  }

  /** Identities commutes with reversal. */
  lemma IdentitiesReverse(segment: seq<int>)
    ensures Identities(Reverse(segment)) == Reverse(Identities(segment))
  {
    var l, r := Identities(Reverse(segment)), Reverse(Identities(segment));
    forall i | 0 <= i < |segment|
      ensures l[i] == r[i]
    {
      assert l[i] == Identity(segment[|segment| - 1 - i]);
    }
  }

  // Segments.

  /** The first element of each pair the segment is built from: the
      numerator, or the denominator for a sub-harmonic segment. */
  function Tops(tones: seq<Interval>, sub: bool): (r: seq<int>)
    requires AllValid(tones)
    ensures |r| == |tones| && forall i :: 0 <= i < |r| ==> r[i] >= 1
    ensures forall i :: 0 <= i < |r| ==> r[i] == if sub then tones[i].den else tones[i].num
  {
    seq(|tones|, i requires 0 <= i < |tones| => if sub then tones[i].den else tones[i].num)
  }

  /** The second element of each pair. */
  function Bottoms(tones: seq<Interval>, sub: bool): (r: seq<int>)
    requires AllValid(tones)
    ensures |r| == |tones| && forall i :: 0 <= i < |r| ==> r[i] >= 1
    ensures forall i :: 0 <= i < |r| ==> r[i] == if sub then tones[i].num else tones[i].den
  {
    seq(|tones|, i requires 0 <= i < |tones| => if sub then tones[i].num else tones[i].den)
  }

  /** reduce(gcd, s) with an accumulator. */
  function GcdFrom(acc: int, rest: seq<int>): int
    decreases |rest|
  {
    if rest == [] then acc else GcdFrom(Gcd(Abs(acc), Abs(rest[0])), rest[1..])
  }

  /** reduce(gcd, s): reducing an empty list raises TypeError. */
  function GcdOf(s: seq<int>): Result<int>
  {
    if s == [] then Err(TypeError) else Ok(GcdFrom(s[0], s[1..]))
  }

  /** The gcd of positive numbers is a positive common divisor that every
      common divisor divides. */
  lemma {:induction false} GcdFromCorrect(acc: int, rest: seq<int>, c: int)
    requires acc >= 1 && forall i :: 0 <= i < |rest| ==> rest[i] >= 1
    ensures GcdFrom(acc, rest) >= 1 && acc % GcdFrom(acc, rest) == 0
    ensures forall i :: 0 <= i < |rest| ==> rest[i] % GcdFrom(acc, rest) == 0
    ensures c >= 1 && acc % c == 0 && (forall i :: 0 <= i < |rest| ==> rest[i] % c == 0) ==>
      GcdFrom(acc, rest) % c == 0
    decreases |rest|
  {
    if rest != [] {
      var g := Gcd(acc, rest[0]);
      GcdDividesBoth(acc, rest[0]);
      assert g >= 1 && acc % g == 0 && rest[0] % g == 0;
      MultipleAtLeast(acc, g);
      var tail := rest[1..];
      assert forall i :: 0 <= i < |tail| ==> tail[i] == rest[i + 1];
      GcdFromCorrect(g, tail, c);
      var h := GcdFrom(g, tail);
      assert h == GcdFrom(acc, rest);
      DividesTransitive(h, g, acc);
      DividesTransitive(h, g, rest[0]);
      forall i | 0 <= i < |rest|
        ensures rest[i] % h == 0
      {
        if i > 0 {
          assert rest[i] == tail[i - 1];
        }
      }
      if c >= 1 && acc % c == 0 && (forall i :: 0 <= i < |rest| ==> rest[i] % c == 0) {
        GcdGreatest(acc, rest[0], c);
        assert forall i :: 0 <= i < |tail| ==> tail[i] % c == 0;
      }
    }
  }

  lemma GcdOfCorrect(s: seq<int>, c: int)
    requires |s| >= 1 && forall i :: 0 <= i < |s| ==> s[i] >= 1
    ensures GcdOf(s).Ok? && GcdOf(s).value >= 1
    ensures forall i :: 0 <= i < |s| ==> s[i] % GcdOf(s).value == 0
    ensures c >= 1 && (forall i :: 0 <= i < |s| ==> s[i] % c == 0) ==> GcdOf(s).value % c == 0
  {
    var tail := s[1..];
    assert forall i :: 0 <= i < |tail| ==> tail[i] == s[i + 1];
    GcdFromCorrect(s[0], tail, c);
    forall i | 0 <= i < |s|
      ensures s[i] % GcdOf(s).value == 0
    {
      if i > 0 {
        assert s[i] == tail[i - 1];
      }
    }
  }

  /** Each top scaled dy the lcm over its bottom: tone[0] * (lcm // tone[1]). */
  function Scaled(tops: seq<int>, bottoms: seq<int>, l: int): (r: seq<int>)
    requires |tops| == |bottoms| && forall i :: 0 <= i < |bottoms| ==> bottoms[i] >= 1
    ensures |r| == |tops|
  {
    seq(|tops|, i requires 0 <= i < |tops| => tops[i] * (l / bottoms[i]))
  }

  /** Each entry floor-divided dy g. */
  function Divided(s: seq<int>, g: int): (r: seq<int>)
    requires g != 0
    ensures |r| == |s|
  {
    seq(|s|, i requires 0 <= i < |s| => s[i] / g)
  }

  /** The segment before the halving pass: the pairs scaled to whole numbers
      over the lcm of the bottoms, then divided dy the gcd of those. */
  function BaseSegment(tones: seq<Interval>, sub: bool): Result<seq<int>>
    requires AllValid(tones)
  {
    var tops, bottoms := Tops(tones, sub), Bottoms(tones, sub);
    match Lcm(bottoms)
    case Err(e) => Err(e)
    case Ok(l) =>
      var scaled := Scaled(tops, bottoms, l);
      match GcdOf(scaled)
      case Err(e) => Err(e)
      case Ok(g) => if g == 0 then Err(ZeroDivisionError) else Ok(Divided(scaled, g))
  }

  /** The halving pass: an entry h whose half is one less than the entry
      after it drops an octave; the last entry has no successor and stays. */
  function Halved(s: seq<int>): (r: seq<int>)
    ensures |r| == |s|
  {
    seq(|s|, i requires 0 <= i < |s| =>
      if i + 1 < |s| && s[i] == 2 * (s[i + 1] - 1) then s[i] / 2 else s[i])
  }

  /** tones_to_harmonic_segment(tones, sub). */
  function SegmentOf(tones: seq<Interval>, sub: bool): Result<seq<int>>
    requires AllValid(tones)
  {
    match BaseSegment(tones, sub)
    case Err(e) => Err(e)
    case Ok(b) => Ok(if sub then Reverse(Halved(Reverse(b))) else Halved(b))
  }

  /** The facts behind the base segment of a non-empty list of tones. */
  lemma BaseSegmentParts(tones: seq<Interval>, sub: bool, c: int)
    requires AllValid(tones) && |tones| >= 1
    ensures var tops, bottoms := Tops(tones, sub), Bottoms(tones, sub);
      Lcm(bottoms).Ok? && Lcm(bottoms).value >= 1 &&
      (forall i :: 0 <= i < |tones| ==> Lcm(bottoms).value % bottoms[i] == 0) &&
      var scaled := Scaled(tops, bottoms, Lcm(bottoms).value);
      (forall i :: 0 <= i < |tones| ==> scaled[i] >= 1) &&
      GcdOf(scaled).Ok? && GcdOf(scaled).value >= 1 &&
      (forall i :: 0 <= i < |tones| ==> scaled[i] % GcdOf(scaled).value == 0) &&
      (c >= 1 && (forall i :: 0 <= i < |tones| ==> scaled[i] % c == 0) ==> GcdOf(scaled).value % c == 0)
  {
    var tops, bottoms := Tops(tones, sub), Bottoms(tones, sub);
    LcmCorrect(bottoms, 0);
    var l := Lcm(bottoms).value;
    var scaled := Scaled(tops, bottoms, l);
    forall i | 0 <= i < |tones|
      ensures scaled[i] >= 1
    {
      MultipleAtLeast(l, bottoms[i]);
      assert l / bottoms[i] >= 1;
      MulMonotone(1, tops[i], 1, l / bottoms[i]);
    }
    GcdOfCorrect(scaled, c);
  }

  /** A non-empty list of tones always gives a segment of the same length;
      an empty one raises TypeError from the lcm. */
  lemma SegmentTotal(tones: seq<Interval>, sub: bool)
    requires AllValid(tones)
    ensures SegmentOf(tones, sub).Ok? <==> |tones| >= 1
    ensures tones == [] ==> SegmentOf(tones, sub) == Err(TypeError)
    ensures SegmentOf(tones, sub).Ok? ==> |SegmentOf(tones, sub).value| == |tones|
  {
    if |tones| >= 1 {
      BaseSegmentParts(tones, sub, 1);
    }
  }

  /** The base segment entries are positive whole numbers in the ratios of
      the tones (of the swapped pairs for a sub-harmonic segment):
      entry i : entry j == (top i / bottom i) : (top j / bottom j). */
  lemma BaseSegmentProportional(tones: seq<Interval>, sub: bool, i: int, j: int)
    requires AllValid(tones) && 0 <= i < |tones| && 0 <= j < |tones|
    ensures BaseSegment(tones, sub).Ok? && |BaseSegment(tones, sub).value| == |tones|
    ensures var b, tops, bottoms := BaseSegment(tones, sub).value, Tops(tones, sub), Bottoms(tones, sub);
      b[i] >= 1 && b[i] * tops[j] * bottoms[i] == b[j] * tops[i] * bottoms[j]
  {
    var tops, bottoms := Tops(tones, sub), Bottoms(tones, sub);
    BaseSegmentParts(tones, sub, 1);
    var l := Lcm(bottoms).value;
    var scaled := Scaled(tops, bottoms, l);
    var g := GcdOf(scaled).value;
    var b := Divided(scaled, g);
    ScaledEntry(tops[i], bottoms[i], l, g, scaled[i]);
    ScaledEntry(tops[j], bottoms[j], l, g, scaled[j]);
    CrossProducts(b[i], b[j], tops[i], tops[j], bottoms[i], bottoms[j], l, g);
  }

  /** scaled == g * (scaled / g), scaled == t * q and b * q == l: the entry
      times g times its bottom is the top times the lcm. */
  lemma ScaledEntry(t: int, bottom: int, l: int, g: int, scaled: int)
    requires bottom >= 1 && g >= 1 && l % bottom == 0 && scaled % g == 0
    requires scaled == t * (l / bottom) && scaled >= 1
    ensures (scaled / g) >= 1 && g * (scaled / g) * bottom == t * l
  {
    var q := l / bottom;
    assert l == bottom * q;
    MultipleAtLeast(scaled, g);
    assert scaled == g * (scaled / g);
    calc {
      g * (scaled / g) * bottom;
      scaled * bottom;
      (t * q) * bottom;
      { MulAssoc(t, q, bottom); MulComm(q, bottom); }
      t * (bottom * q);
      t * l;
    }
  }

  lemma CrossProducts(x: int, y: int, ti: int, tj: int, bi: int, bj: int, l: int, g: int)
    requires g >= 1 && g * x * bi == ti * l && g * y * bj == tj * l
    ensures x * tj * bi == y * ti * bj
  {
    calc {
      g * (x * tj * bi);
      { MulAssoc(g, x, tj); MulAssoc(g * x, tj, bi); MulComm(tj, bi); MulAssoc(g * x, bi, tj); }
      (g * x * bi) * tj;
      (ti * l) * tj;
      { MulAssoc(ti, l, tj); MulComm(l, tj); MulAssoc(ti, tj, l); }
      (ti * tj) * l;
      { MulComm(ti, tj); MulAssoc(tj, ti, l); MulAssoc(tj, l, ti); MulComm(l, ti); }
      (tj * l) * ti;
      (g * y * bj) * ti;
      { MulAssoc(g, y, ti); MulAssoc(g * y, bj, ti); MulComm(bj, ti); MulAssoc(g * y, ti, bj); }
      g * (y * ti * bj);
    }
    MulCancel(g, x * tj * bi, y * ti * bj);
  }

  /** The base segment is in lowest terms: no number above 1 divides every
      entry. */
  lemma BaseSegmentLowest(tones: seq<Interval>, sub: bool, c: int)
    requires AllValid(tones) && |tones| >= 1 && c >= 1
    requires BaseSegment(tones, sub).Ok?
    requires forall i :: 0 <= i < |tones| ==> BaseSegment(tones, sub).value[i] % c == 0
    ensures c == 1
  {
    var tops, bottoms := Tops(tones, sub), Bottoms(tones, sub);
    BaseSegmentParts(tones, sub, 1);
    var l := Lcm(bottoms).value;
    var scaled := Scaled(tops, bottoms, l);
    var g := GcdOf(scaled).value;
    var b := Divided(scaled, g);
    assert b == BaseSegment(tones, sub).value;
    forall i | 0 <= i < |tones|
      ensures scaled[i] % (g * c) == 0
    {
      assert b[i] == scaled[i] / g && b[i] % c == 0;
      ScaledMultiple(g, c, scaled[i]);
    }
    BaseSegmentParts(tones, sub, g * c);
    OnlyUnitCofactor(g, c);
  }

  /** A multiple x of g whose quotient is a multiple of c is a multiple of g * c. */
  lemma ScaledMultiple(g: int, c: int, x: int)
    requires g >= 1 && c >= 1 && x % g == 0 && (x / g) % c == 0
    ensures x % (g * c) == 0
  {
    var k := (x / g) / c;
    assert x == g * (x / g);
    assert x / g == c * k;
    MulAssoc(g, c, k);
    MulMonotone(1, g, 1, c);
    MulModZero(g * c, k);
  }

  lemma OnlyUnitCofactor(g: int, c: int)
    requires g >= 1 && c >= 1 && g % (g * c) == 0
    ensures c == 1
  {
    MulMonotone(1, g, 1, c);
    MultipleAtLeast(g, g * c);
    if c > 1 {
      MulStrict(1, c, g);
    }
  }

  /** Each entry of the halving pass is the entry itself, or, when its half
      is one less than the original next entry, that half; and every entry
      whose half is one less than the next is halved. The last entry never
      changes, and a positive segment stays positive. */
  lemma HalvedShape(s: seq<int>)
    requires forall i :: 0 <= i < |s| ==> s[i] >= 1
    ensures |s| >= 1 ==> Halved(s)[|s| - 1] == s[|s| - 1]
    ensures forall i :: 0 <= i < |s| ==>
      Halved(s)[i] >= 1 &&
      (Halved(s)[i] == s[i] || (2 * Halved(s)[i] == s[i] && Halved(s)[i] == s[i + 1] - 1))
    ensures forall i :: 0 <= i < |s| - 1 ==> (Halved(s)[i] != s[i] <==> s[i] == 2 * (s[i + 1] - 1))
  {
  }

  /** The halving pass moves entries dy octaves only, so the identities of a
      positive segment are unchanged. */
  lemma HalvedIdentities(s: seq<int>)
    requires forall i :: 0 <= i < |s| ==> s[i] >= 1
    ensures Identities(Halved(s)) == Identities(s)
  {
    HalvedShape(s);
    forall i | 0 <= i < |s|
      ensures Identity(Halved(s)[i]) == Identity(s[i])
    {
      if Halved(s)[i] != s[i] {
        IdentityOfDouble(Halved(s)[i]);
      }
    }
  }

  /** The finished segment has the identities of the base segment: the
      halving pass only ever takes an octave off an entry. */
  lemma SegmentIdentities(tones: seq<Interval>, sub: bool)
    requires AllValid(tones) && |tones| >= 1
    ensures BaseSegment(tones, sub).Ok? && SegmentOf(tones, sub).Ok?
    ensures Identities(SegmentOf(tones, sub).value) == Identities(BaseSegment(tones, sub).value)
  {
    var i := 0;
    BaseSegmentProportional(tones, sub, i, i);
    var b := BaseSegment(tones, sub).value;
    assert forall k :: 0 <= k < |b| ==> b[k] >= 1 by {
      forall k | 0 <= k < |b|
        ensures b[k] >= 1
      {
        BaseSegmentProportional(tones, sub, k, k);
      }
    }
    if sub {
      var rb := Reverse(b);
      HalvedIdentities(rb);
      IdentitiesReverse(Halved(rb));
      IdentitiesReverse(b);
      ReverseTwice(Identities(b));
    } else {
      HalvedIdentities(b);
    }
  }

  lemma ReverseTwice(s: seq<int>)
    ensures Reverse(Reverse(s)) == s
  {
  }

  // The method, with the pass and the reversals in place.

  method ReverseInPlace(a: array<int>)
    modifies a
    ensures a[..] == Reverse(old(a[..]))
  {
    var i := 0;
    while i < a.Length / 2
      invariant 0 <= i <= a.Length / 2
      invariant forall k :: 0 <= k < i ==> a[k] == old(a[a.Length - 1 - k]) && a[a.Length - 1 - k] == old(a[k])
      invariant forall k :: i <= k < a.Length - i ==> a[k] == old(a[k])
    {
      a[i], a[a.Length - 1 - i] := a[a.Length - 1 - i], a[i];
      i := i + 1;
    }
  }

  /** The halving loop: segment[i + 1] raises IndexError on the last entry,
      which the source skips. */
  method HalvingPass(a: array<int>)
    modifies a
    ensures a[..] == Halved(old(a[..]))
  {
    var i := 0;
    while i < a.Length
      invariant 0 <= i <= a.Length
      invariant forall k :: 0 <= k < i ==> a[k] == Halved(old(a[..]))[k]
      invariant forall k :: i <= k < a.Length ==> a[k] == old(a[k])
    {
      var harmonic := a[i];
      if i + 1 < a.Length && harmonic == 2 * (a[i + 1] - 1) {
        a[i] := harmonic / 2;
      }
      i := i + 1;
    }
  }

  method TonesToHarmonicSegment(tones: seq<Interval>, sub: bool) returns (r: Result<seq<int>>)
    requires AllValid(tones)
    ensures r == SegmentOf(tones, sub)
  {
    var tops, bottoms := Tops(tones, sub), Bottoms(tones, sub);
    var lcmTones := Lcm(bottoms);
    if lcmTones.Err? {
      return Err(lcmTones.error);
    }
    var scaled := Scaled(tops, bottoms, lcmTones.value);
    var gcdSegment := GcdOf(scaled);
    if gcdSegment.Err? {
      return Err(gcdSegment.error);
    }
    if gcdSegment.value == 0 {
      return Err(ZeroDivisionError);
    }
    var base := Divided(scaled, gcdSegment.value);
    var segment := new int[|base|](i requires 0 <= i < |base| => base[i]);
    assert segment[..] == base;
    if sub {
      ReverseInPlace(segment);
    }
    HalvingPass(segment);
    if sub {
      ReverseInPlace(segment);
    }
    return Ok(segment[..]);
  }

  // The source's examples.

  // Small lists, stated generically so that the examples need not unfold
  // the definitions on literals.

  lemma BaseSegmentFrom(tones: seq<Interval>, sub: bool, l: int, g: int)
    requires AllValid(tones) && Lcm(Bottoms(tones, sub)) == Ok(l) && g != 0
    requires GcdOf(Scaled(Tops(tones, sub), Bottoms(tones, sub), l)) == Ok(g)
    ensures BaseSegment(tones, sub) == Ok(Divided(Scaled(Tops(tones, sub), Bottoms(tones, sub), l), g))
  {
  }

  /** The segment of a base segment b. */
  lemma SegmentFromBase(tones: seq<Interval>, sub: bool, b: seq<int>)
    requires AllValid(tones) && BaseSegment(tones, sub) == Ok(b)
    ensures SegmentOf(tones, sub) == Ok(if sub then Reverse(Halved(Reverse(b))) else Halved(b))
  {
  }

  /** The whole chain from the tones to the segment, with each stage named. */
  lemma SegmentChain(tones: seq<Interval>, sub: bool, tops: seq<int>, bottoms: seq<int>,
                     l: int, scaled: seq<int>, g: int, base: seq<int>)
    requires AllValid(tones) && Tops(tones, sub) == tops && Bottoms(tones, sub) == bottoms
    requires Lcm(bottoms) == Ok(l) && Scaled(tops, bottoms, l) == scaled
    requires GcdOf(scaled) == Ok(g) && g != 0 && Divided(scaled, g) == base
    ensures SegmentOf(tones, sub) == Ok(if sub then Reverse(Halved(Reverse(base))) else Halved(base))
  {
    BaseSegmentFrom(tones, sub, l, g);
    SegmentFromBase(tones, sub, base);
  }

  lemma PairsOfThree(a: Interval, b: Interval, c: Interval)
    requires a.Valid() && b.Valid() && c.Valid()
    ensures AllValid([a, b, c])
    ensures Tops([a, b, c], false) == [a.num, b.num, c.num] && Bottoms([a, b, c], false) == [a.den, b.den, c.den]
    ensures Tops([a, b, c], true) == [a.den, b.den, c.den] && Bottoms([a, b, c], true) == [a.num, b.num, c.num]
  {
  }

  lemma ScaledOfThree(x: int, y: int, z: int, dx: int, dy: int, dz: int, l: int)
    requires dx >= 1 && dy >= 1 && dz >= 1
    ensures Scaled([x, y, z], [dx, dy, dz], l) == [x * (l / dx), y * (l / dy), z * (l / dz)]
  {
  }

  lemma GcdOfThree(x: nat, y: nat, z: nat)
    ensures GcdOf([x, y, z]) == Ok(Gcd(Gcd(x, y), z))
  {
    assert [x, y, z][1..] == [y, z] && [y, z][1..] == [z];
    assert GcdFrom(x, [y, z]) == GcdFrom(Gcd(x, y), [z]);
    assert GcdFrom(Gcd(x, y), [z]) == GcdFrom(Gcd(Gcd(x, y), z), []);
  }

  lemma DividedOfThree(x: int, y: int, z: int, g: int)
    requires g != 0
    ensures Divided([x, y, z], g) == [x / g, y / g, z / g]
  {
  }

  lemma HalvedOfThree(x: int, y: int, z: int)
    ensures Halved([x, y, z]) ==
      [if x == 2 * (y - 1) then x / 2 else x, if y == 2 * (z - 1) then y / 2 else y, z]
    ensures Reverse([x, y, z]) == [z, y, x]
  {
  }

  lemma ScaledOfFour(x: int, y: int, z: int, w: int, dx: int, dy: int, dz: int, dw: int, l: int)
    requires dx >= 1 && dy >= 1 && dz >= 1 && dw >= 1
    ensures Scaled([x, y, z, w], [dx, dy, dz, dw], l) == [x * (l / dx), y * (l / dy), z * (l / dz), w * (l / dw)]
  {
  }

  lemma GcdOfFour(x: nat, y: nat, z: nat, w: nat)
    ensures GcdOf([x, y, z, w]) == Ok(Gcd(Gcd(Gcd(x, y), z), w))
  {
    assert [x, y, z, w][1..] == [y, z, w] && [y, z, w][1..] == [z, w] && [z, w][1..] == [w];
    assert GcdFrom(x, [y, z, w]) == GcdFrom(Gcd(x, y), [z, w]);
    assert GcdFrom(Gcd(x, y), [z, w]) == GcdFrom(Gcd(Gcd(x, y), z), [w]);
    assert GcdFrom(Gcd(Gcd(x, y), z), [w]) == GcdFrom(Gcd(Gcd(Gcd(x, y), z), w), []);
  }

  lemma DividedOfFour(x: int, y: int, z: int, w: int, g: int)
    requires g != 0
    ensures Divided([x, y, z, w], g) == [x / g, y / g, z / g, w / g]
  {
  }

  lemma HalvedOfFour(x: int, y: int, z: int, w: int)
    ensures Halved([x, y, z, w]) ==
      [if x == 2 * (y - 1) then x / 2 else x, if y == 2 * (z - 1) then y / 2 else y,
       if z == 2 * (w - 1) then z / 2 else z, w]
  {
  }

  lemma LcmOfThree(a: int, b: int, c: int)
    ensures Lcm([a, b, c]) == LcmFrom(a, [b, c])
    ensures LcmFrom(a, [b, c]) ==
      match LcmStep(a, b)
      case Err(e) => Err(e)
      case Ok(v) => LcmFrom(v, [c])
  {
    assert [a, b, c][1..] == [b, c] && [b, c][1..] == [c];
  }

  lemma LcmOfFour(a: int, b: int, c: int, d: int)
    ensures Lcm([a, b, c, d]) == LcmFrom(a, [b, c, d])
    ensures LcmFrom(a, [b, c, d]) ==
      match LcmStep(a, b)
      case Err(e) => Err(e)
      case Ok(v) => LcmFrom(v, [c, d])
  {
    assert [a, b, c, d][1..] == [b, c, d] && [b, c, d][1..] == [c, d];
  }

  /** 16/15, 4/3, 8/5 are the segment 4, 5, 6. */
  lemma SegmentExampleTriad()
    ensures SegmentOf([Interval(16, 15), Interval(4, 3), Interval(8, 5)], false) == Ok([4, 5, 6])
  {
    var tones := [Interval(16, 15), Interval(4, 3), Interval(8, 5)];
    assert Interval(16, 15).Valid() && Interval(4, 3).Valid() && Interval(8, 5).Valid();
    PairsOfThree(Interval(16, 15), Interval(4, 3), Interval(8, 5));
    LcmExamples();
    TriadGcd();
    TriadHalved();
    SegmentChain(tones, false, [16, 4, 8], [15, 3, 5], 15, [16, 20, 24], 4, [4, 5, 6]);
  }

  /** The minor triad 1/1, 6/5, 3/2 is the segment 10, 12, 15. */
  lemma SegmentExampleMinor()
    ensures SegmentOf([Unison, Interval(6, 5), Interval(3, 2)], false) == Ok([10, 12, 15])
  {
    var tones := [Unison, Interval(6, 5), Interval(3, 2)];
    assert Interval(6, 5).Valid() && Interval(3, 2).Valid();
    PairsOfThree(Unison, Interval(6, 5), Interval(3, 2));
    MinorLcm();
    MinorGcd();
    MinorHalved();
    SegmentChain(tones, false, [1, 6, 3], [1, 5, 2], 10, [10, 12, 15], 1, [10, 12, 15]);
  }

  lemma MinorLcm()
    ensures Lcm([1, 5, 2]) == Ok(10)
  {
    assert [1, 5, 2][1..] == [5, 2];
    assert Gcd(1, 5) == 1 && Gcd(5, 2) == 1;
    assert LcmStep(1, 5) == Ok(5);
    assert LcmStep(5, 2) == Ok(10);
  }

  lemma MinorGcd()
    ensures Scaled([1, 6, 3], [1, 5, 2], 10) == [10, 12, 15]
    ensures GcdOf([10, 12, 15]) == Ok(1)
  {
    ScaledOfThree(1, 6, 3, 1, 5, 2, 10);
    GcdOfThree(10, 12, 15);
    assert Gcd(10, 12) == 2 by {
      assert 10 % 12 == 10 && 12 % 10 == 2 && 10 % 2 == 0;
      assert Gcd(10, 12) == Gcd(12, 10) == Gcd(10, 2) == Gcd(2, 0);
    }
    assert Gcd(2, 15) == 1 by {
      assert 2 % 15 == 2 && 15 % 2 == 1 && 2 % 1 == 0;
      assert Gcd(2, 15) == Gcd(15, 2) == Gcd(2, 1) == Gcd(1, 0);
    }
  }

  lemma MinorHalved()
    ensures Divided([10, 12, 15], 1) == [10, 12, 15]
    ensures Halved([10, 12, 15]) == [10, 12, 15]
  {
    DividedOfThree(10, 12, 15, 1);
    HalvedOfThree(10, 12, 15);
  }

  lemma TriadGcd()
    ensures Scaled([16, 4, 8], [15, 3, 5], 15) == [16, 20, 24]
    ensures GcdOf([16, 20, 24]) == Ok(4)
  {
    ScaledOfThree(16, 4, 8, 15, 3, 5, 15);
    assert 15 / 15 == 1 && 15 / 3 == 5 && 15 / 5 == 3;
    GcdOfThree(16, 20, 24);
    assert Gcd(16, 20) == 4 && Gcd(4, 24) == 4;
  }

  lemma TriadHalved()
    ensures Divided([16, 20, 24], 4) == [4, 5, 6]
    ensures Halved([4, 5, 6]) == [4, 5, 6]
  {
    DividedOfThree(16, 20, 24, 4);
    HalvedOfThree(4, 5, 6);
  }

  lemma TetradLcm()
    ensures Lcm([5, 8, 20, 40]) == Ok(40)
  {
    assert [5, 8, 20, 40][1..] == [8, 20, 40];
    assert Gcd(5, 8) == 1 && Gcd(40, 20) == 20 && Gcd(40, 40) == 40;
    assert LcmStep(5, 8) == Ok(40);
    assert LcmStep(40, 20) == Ok(40);
    assert LcmStep(40, 40) == Ok(40);
  }

  lemma TetradGcd()
    ensures Scaled([9, 9, 27, 63], [5, 8, 20, 40], 40) == [72, 45, 54, 63]
    ensures GcdOf([72, 45, 54, 63]) == Ok(9)
  {
    ScaledOfFour(9, 9, 27, 63, 5, 8, 20, 40, 40);
    GcdOfFour(72, 45, 54, 63);
    assert Gcd(72, 45) == 9 by {
      assert 72 % 45 == 27 && 45 % 27 == 18 && 27 % 18 == 9 && 18 % 9 == 0;
      assert Gcd(72, 45) == Gcd(45, 27) == Gcd(27, 18) == Gcd(18, 9) == Gcd(9, 0);
    }
    assert Gcd(9, 54) == 9 by {
      assert 9 % 54 == 9 && 54 % 9 == 0;
      assert Gcd(9, 54) == Gcd(54, 9) == Gcd(9, 0);
    }
    assert Gcd(9, 63) == 9 by {
      assert 9 % 63 == 9 && 63 % 9 == 0;
      assert Gcd(9, 63) == Gcd(63, 9) == Gcd(9, 0);
    }
  }

  lemma TetradHalved()
    ensures Divided([72, 45, 54, 63], 9) == [8, 5, 6, 7]
    ensures Halved([8, 5, 6, 7]) == [4, 5, 6, 7]
  {
    DividedOfFour(72, 45, 54, 63, 9);
    HalvedOfFour(8, 5, 6, 7);
  }

  /** The dominant seventh 9/5, 9/8, 27/20, 63/40 of the examples, stated
      for any four tones with those numerators and denominators (stating it on
      the literal tones makes the verifier unfold the whole computation): the
      segment is 4, 5, 6, 7. */
  lemma TetradSegment(tones: seq<Interval>)
    requires AllValid(tones) && Tops(tones, false) == [9, 9, 27, 63] && Bottoms(tones, false) == [5, 8, 20, 40]
    ensures SegmentOf(tones, false) == Ok([4, 5, 6, 7])
  {
    TetradLcm();
    TetradGcd();
    TetradHalved();
    SegmentChain(tones, false, [9, 9, 27, 63], [5, 8, 20, 40], 40, [72, 45, 54, 63], 9, [8, 5, 6, 7]);
  }

  /** The sub-harmonic example the source's documentation doubts: the code
      gives [40, 35, 36] for 21/20, 6/5, 7/6, not [8, 7, 6]. */
  lemma SegmentExampleSub()
    ensures SegmentOf([Interval(21, 20), Interval(6, 5), Interval(7, 6)], true) == Ok([40, 35, 36])
  {
    var tones := [Interval(21, 20), Interval(6, 5), Interval(7, 6)];
    assert Interval(21, 20).Valid() && Interval(6, 5).Valid() && Interval(7, 6).Valid();
    PairsOfThree(Interval(21, 20), Interval(6, 5), Interval(7, 6));
    SubLcm();
    SubGcd();
    SubHalved();
    SegmentChain(tones, true, [20, 5, 6], [21, 6, 7], 42, [40, 35, 36], 1, [40, 35, 36]);
  }

  lemma SubLcm()
    ensures Lcm([21, 6, 7]) == Ok(42)
  {
    assert [21, 6, 7][1..] == [6, 7];
    assert Gcd(21, 6) == 3 && Gcd(42, 7) == 7;
    assert LcmStep(21, 6) == Ok(42);
    assert LcmStep(42, 7) == Ok(42);
  }

  lemma SubGcd()
    ensures Scaled([20, 5, 6], [21, 6, 7], 42) == [40, 35, 36]
    ensures GcdOf([40, 35, 36]) == Ok(1)
  {
    ScaledOfThree(20, 5, 6, 21, 6, 7, 42);
    GcdOfThree(40, 35, 36);
    assert Gcd(40, 35) == 5 by {
      assert 40 % 35 == 5 && 35 % 5 == 0;
      assert Gcd(40, 35) == Gcd(35, 5) == Gcd(5, 0);
    }
    assert Gcd(5, 36) == 1 by {
      assert 5 % 36 == 5 && 36 % 5 == 1 && 5 % 1 == 0;
      assert Gcd(5, 36) == Gcd(36, 5) == Gcd(5, 1) == Gcd(1, 0);
    }
  }

  lemma SubHalved()
    ensures Divided([40, 35, 36], 1) == [40, 35, 36]
    ensures Reverse(Halved(Reverse([40, 35, 36]))) == [40, 35, 36]
  {
    DividedOfThree(40, 35, 36, 1);
    HalvedOfThree(40, 35, 36);
    HalvedOfThree(36, 35, 40);
  }
}
