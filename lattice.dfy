/** The just intonation lattice: a current tone that moves along one axis per
    odd prime up to the prime limit, with the history of the moves. */
module Lattice {
  import opened NumberTheory
  import opened Results
  import opened Primes
  import opened Intervals
  import opened Compositions

  // The axes.

  /** generate_primes(limit)[1:]: the primes above 2 up to the limit. */
  function OddPrimesUpTo(limit: int): (r: seq<int>)
    ensures forall x :: x in r <==> 3 <= x <= limit && IsPrime(x)
    ensures StrictlyIncreasing(r)
  {
    var ps := GeneratePrimes(limit);
    GeneratePrimesCorrect(limit);
    if ps == [] then []
    else
      FirstPrimeIsTwo(limit);
      assert forall i :: 1 <= i < |ps| ==> ps[i] in ps && ps[0] < ps[i];
      ps[1..]
  }

  lemma FirstPrimeIsTwo(limit: int)
    requires GeneratePrimes(limit) != []
    ensures GeneratePrimes(limit)[0] == 2
  {
    var ps := GeneratePrimes(limit);
    GeneratePrimesCorrect(limit);
    assert ps[0] in ps;
    assert 2 in ps by {
      assert IsPrime(2);
    }
    var i :| 0 <= i < |ps| && ps[i] == 2;
  }

  /** [primary_interval(p) for p in ps], for primes p >= 2. */
  function PrimaryList(ps: seq<int>): (r: seq<Interval>)
    requires forall i :: 0 <= i < |ps| ==> ps[i] >= 2
    ensures |r| == |ps| && AllValid(r)
  {
    if ps == [] then []
    else
      PrimaryCorrect(ps[0], false);
      [Generator(ps[0])] + PrimaryList(ps[1..])
  }

  /** Each axis is the primary interval of its prime. */
  lemma {:induction false} PrimaryListCorrect(ps: seq<int>)
    requires forall i :: 0 <= i < |ps| ==> ps[i] >= 2
    ensures forall i :: 0 <= i < |ps| ==> PrimaryOf(ps[i], false, 500) == Ok(Some(PrimaryList(ps)[i]))
  {
    if ps != [] {
      PrimaryCorrect(ps[0], false);
      PrimaryListCorrect(ps[1..]);
      assert forall i :: 1 <= i < |ps| ==> ps[1..][i - 1] == ps[i];
    }
  }

  /** The primary interval of each axis, for a lattice of the given limit. */
  function Primaries(limit: int): (r: seq<Interval>)
    ensures AllValid(r) && |r| == |OddPrimesUpTo(limit)|
  {
    var ps := OddPrimesUpTo(limit);
    assert forall i :: 0 <= i < |ps| ==> ps[i] in ps;
    PrimaryList(ps)
  }

  // Walking the axes.

  /** One axis of a traversal: steps > 0 composes the primary interval raised
      to steps, steps < 0 decomposes it raised to -steps. */
  function WalkStep(t: Interval, g: Interval, steps: int): (r: Interval)
    requires t.Valid() && g.Valid()
    ensures r.Valid()
  {
    if steps > 0 then Add(t, PowerOf(g, steps))
    else if steps < 0 then Sub(t, PowerOf(g, -steps))
    else t
  }

  /** The tone after the axis loop of traverse, before the octave reduction. */
  function Walk(t: Interval, prims: seq<Interval>, v: seq<int>): (r: Interval)
    requires t.Valid() && AllValid(prims) && |v| <= |prims|
    ensures r.Valid()
    decreases |v|
  {
    if v == [] then t
    else WalkStep(Walk(t, prims, v[..|v| - 1]), prims[|v| - 1], v[|v| - 1])
  }

  /** [-1 * distance for distance in v]. */
  function Negate(v: seq<int>): (r: seq<int>)
    ensures |r| == |v| && forall i :: 0 <= i < |v| ==> r[i] == -v[i]
  {
    seq(|v|, i requires 0 <= i < |v| => -v[i])
  }

  function Zeros(n: nat): (r: seq<int>)
    ensures |r| == n && forall i :: 0 <= i < n ==> r[i] == 0
  {
    seq(n, _ => 0)
  }

  // Octave classes of walks. A step multiplies the class of the tone by
  // StepNum : StepDen; a walk by the products of its steps.

  function StepNum(g: Interval, steps: int): nat
  {
    if steps > 0 then IntPow(g.num, steps) else if steps < 0 then IntPow(g.den, -steps) else 1
  }

  function StepDen(g: Interval, steps: int): nat
  {
    if steps > 0 then IntPow(g.den, steps) else if steps < 0 then IntPow(g.num, -steps) else 1
  }

  function WalkNum(prims: seq<Interval>, v: seq<int>): nat
    requires |v| <= |prims|
    decreases |v|
  {
    if v == [] then 1 else WalkNum(prims, v[..|v| - 1]) * StepNum(prims[|v| - 1], v[|v| - 1])
  }

  function WalkDen(prims: seq<Interval>, v: seq<int>): nat
    requires |v| <= |prims|
    decreases |v|
  {
    if v == [] then 1 else WalkDen(prims, v[..|v| - 1]) * StepDen(prims[|v| - 1], v[|v| - 1])
  }

  lemma StepFactorsPositive(g: Interval, steps: int)
    requires g.Valid()
    ensures StepNum(g, steps) >= 1 && StepDen(g, steps) >= 1
    ensures StepNum(g, -steps) == StepDen(g, steps) && StepDen(g, -steps) == StepNum(g, steps)
  {
    if steps > 0 {
      IntPowPositive(g.num, steps);
      IntPowPositive(g.den, steps);
    } else if steps < 0 {
      IntPowPositive(g.num, -steps);
      IntPowPositive(g.den, -steps);
    }
  }

  /** Walking the negated vector swaps the factors of the walk. */
  lemma {:induction false} WalkFactorsNegate(prims: seq<Interval>, v: seq<int>)
    requires AllValid(prims) && |v| <= |prims|
    ensures WalkNum(prims, v) >= 1 && WalkDen(prims, v) >= 1
    ensures WalkNum(prims, Negate(v)) == WalkDen(prims, v)
    ensures WalkDen(prims, Negate(v)) == WalkNum(prims, v)
    decreases |v|
  {
    if v != [] {
      var n := |v|;
      var v' := v[..n - 1];
      assert Negate(v)[..n - 1] == Negate(v');
      WalkFactorsNegate(prims, v');
      StepFactorsPositive(prims[n - 1], v[n - 1]);
      MulPositive(WalkNum(prims, v'), StepNum(prims[n - 1], v[n - 1]));
      MulPositive(WalkDen(prims, v'), StepDen(prims[n - 1], v[n - 1]));
    }
  }

  /** Scaling both sides of a class equation by the same factors. */
  lemma ClassScale(n1: nat, d1: nat, n2: nat, d2: nat, x: nat, y: nat)
    requires n1 >= 1 && d1 >= 1 && n2 >= 1 && d2 >= 1 && x >= 1 && y >= 1
    requires SameClass(n1, d1, n2, d2)
    ensures SameClass(n1 * x, d1 * y, n2 * x, d2 * y)
  {
    OddMul(n1, x);
    OddMul(d1, y);
    OddMul(n2, x);
    OddMul(d2, y);
    RatioMul(Odd(n1), Odd(d1), Odd(n2), Odd(d2), Odd(x), Odd(y), Odd(x), Odd(y));
  }

  lemma StepUpClass(t: Interval, g: Interval, steps: nat)
    requires t.Valid() && g.Valid() && steps > 0
    ensures SameClass(Add(t, PowerOf(g, steps)).num, Add(t, PowerOf(g, steps)).den,
      t.num * IntPow(g.num, steps), t.den * IntPow(g.den, steps))
  {
    var p := PowerOf(g, steps);
    var c := Add(t, p);
    var pn, pd := IntPow(g.num, steps), IntPow(g.den, steps);
    AddClass(t, p);
    PowerValue(g, steps);
    IntPowPositive(g.num, steps);
    IntPowPositive(g.den, steps);
    RatioMul(t.num, t.den, t.num, t.den, p.num, p.den, pn, pd);
    MulPositive(t.num, p.num);
    MulPositive(t.den, p.den);
    MulPositive(t.num, pn);
    MulPositive(t.den, pd);
    SameRatioSameClass(t.num * p.num, t.den * p.den, t.num * pn, t.den * pd);
    ClassTrans(c.num, c.den, t.num * p.num, t.den * p.den, t.num * pn, t.den * pd);
  }

  lemma StepDownClass(t: Interval, g: Interval, steps: nat)
    requires t.Valid() && g.Valid() && steps > 0
    ensures SameClass(Sub(t, PowerOf(g, steps)).num, Sub(t, PowerOf(g, steps)).den,
      t.num * IntPow(g.den, steps), t.den * IntPow(g.num, steps))
  {
    var p := PowerOf(g, steps);
    var c := Sub(t, p);
    var pn, pd := IntPow(g.num, steps), IntPow(g.den, steps);
    SubClass(t, p);
    PowerValue(g, steps);
    IntPowPositive(g.num, steps);
    IntPowPositive(g.den, steps);
    MulComm(p.num, pd);
    MulComm(pn, p.den);
    assert SameRatio(p.den, p.num, pd, pn);
    RatioMul(t.num, t.den, t.num, t.den, p.den, p.num, pd, pn);
    MulPositive(t.num, p.den);
    MulPositive(t.den, p.num);
    MulPositive(t.num, pd);
    MulPositive(t.den, pn);
    SameRatioSameClass(t.num * p.den, t.den * p.num, t.num * pd, t.den * pn);
    ClassTrans(c.num, c.den, t.num * p.den, t.den * p.num, t.num * pd, t.den * pn);
  }

  /** One axis multiplies the class of the tone by StepNum : StepDen. */
  lemma WalkStepClass(t: Interval, g: Interval, steps: int)
    requires t.Valid() && g.Valid()
    ensures SameClass(WalkStep(t, g, steps).num, WalkStep(t, g, steps).den,
      t.num * StepNum(g, steps), t.den * StepDen(g, steps))
  {
    if steps > 0 {
      StepUpClass(t, g, steps);
    } else if steps < 0 {
      StepDownClass(t, g, -steps);
    }
  }

  /** A whole walk multiplies the class of the tone by its factors. */
  lemma {:induction false} WalkClass(t: Interval, prims: seq<Interval>, v: seq<int>)
    requires t.Valid() && AllValid(prims) && |v| <= |prims|
    ensures SameClass(Walk(t, prims, v).num, Walk(t, prims, v).den,
      t.num * WalkNum(prims, v), t.den * WalkDen(prims, v))
    decreases |v|
  {
    if v != [] {
      var n := |v|;
      var v', g, s := v[..n - 1], prims[n - 1], v[n - 1];
      var w' := Walk(t, prims, v');
      WalkClass(t, prims, v');
      WalkStepClass(w', g, s);
      WalkFactorsNegate(prims, v');
      StepFactorsPositive(g, s);
      var a, b := WalkNum(prims, v'), WalkDen(prims, v');
      var x, y := StepNum(g, s), StepDen(g, s);
      MulPositive(t.num, a);
      MulPositive(t.den, b);
      ClassScale(w'.num, w'.den, t.num * a, t.den * b, x, y);
      MulAssoc(t.num, a, x);
      MulAssoc(t.den, b, y);
      MulPositive(w'.den, y);
      MulPositive(a, x);
      MulPositive(b, y);
      MulPositive(t.num, a * x);
      MulPositive(t.den, b * y);
      MulPositive(w'.num, x);
      ClassTrans(Walk(t, prims, v).num, Walk(t, prims, v).den, w'.num * x, w'.den * y,
        t.num * (a * x), t.den * (b * y));
    }
  }

  /** The class of the reduced tone after a walk. */
  lemma TraversedClass(t: Interval, prims: seq<Interval>, v: seq<int>)
    requires t.Valid() && AllValid(prims) && |v| <= |prims|
    ensures WalkNum(prims, v) >= 1 && WalkDen(prims, v) >= 1
    ensures var t1 := BaseOctaveOf(Walk(t, prims, v));
      SameClass(t1.num, t1.den, t.num * WalkNum(prims, v), t.den * WalkDen(prims, v))
  {
    var w1 := Walk(t, prims, v);
    var t1 := BaseOctaveOf(w1);
    WalkFactorsNegate(prims, v);
    WalkClass(t, prims, v);
    BaseOctaveClass(w1);
    ClassTrans(t1.num, t1.den, w1.num, w1.den, t.num * WalkNum(prims, v), t.den * WalkDen(prims, v));
  }

  /** Cancelling a common factor p * q from a class. */
  lemma ClassCancel(n: nat, d: nat, p: nat, q: nat)
    requires n >= 1 && d >= 1 && p >= 1 && q >= 1
    ensures SameClass((n * p) * q, (d * q) * p, n, d)
  {
    MulAssoc(n, p, q);
    MulAssoc(d, q, p);
    MulComm(q, p);
    RatioScale(n, d, p * q);
    MulPositive(p, q);
    MulPositive(n, p * q);
    MulPositive(d, p * q);
    SameRatioSameClass(n * (p * q), d * (p * q), n, d);
  }

  /** Walking back along the negated vector and reducing into the octave
      returns to a tone that was already in the octave. */
  lemma WalkBack(t: Interval, prims: seq<Interval>, v: seq<int>)
    requires t.Valid() && Less(t, Octave) && AllValid(prims) && |v| <= |prims|
    ensures BaseOctaveOf(Walk(BaseOctaveOf(Walk(t, prims, v)), prims, Negate(v))) == t
  {
    var t1 := BaseOctaveOf(Walk(t, prims, v));
    var w2 := Walk(t1, prims, Negate(v));
    var p, q := WalkNum(prims, v), WalkDen(prims, v);
    TraversedClass(t, prims, v);
    WalkFactorsNegate(prims, v);
    WalkClass(t1, prims, Negate(v));
    MulPositive(t.num, p);
    MulPositive(t.den, q);
    ClassScale(t1.num, t1.den, t.num * p, t.den * q, q, p);
    ClassCancel(t.num, t.den, p, q);
    MulPositive(t1.den, p);
    MulPositive(t.den * q, p);
    ClassTrans(w2.num, w2.den, t1.num * q, t1.den * p, (t.num * p) * q, (t.den * q) * p);
    ClassTrans(w2.num, w2.den, (t.num * p) * q, (t.den * q) * p, t.num, t.den);
    BaseOctaveUnique(w2, t);
  }

  /** The walk over one more axis. */
  lemma WalkExtend(t: Interval, prims: seq<Interval>, v: seq<int>, axis: int)
    requires t.Valid() && AllValid(prims) && |v| <= |prims| && 0 <= axis < |v|
    ensures Walk(t, prims, v[..axis + 1]) == WalkStep(Walk(t, prims, v[..axis]), prims[axis], v[axis])
  {
    assert v[..axis + 1][..axis] == v[..axis];
  }

  // The lattice state and its operations.

  /** A tone in [1/1, 2/1): what traverse leaves behind. */
  predicate InOctave(t: Interval)
  {
    t.Valid() && Less(t, Octave)
  }

  /** The fields of a JustLattice, as a value. The fundamental in Hertz is a
      float and is not part of the model. */
  datatype LatticeState = LatticeState(primeLimit: int, tone: Interval, node: seq<int>, path: seq<seq<int>>)

  /** JustLattice(fundamental, prime_limit): at 1/1 on node [0, 0, 0], whose
      path holds that node alone. */
  function Initial(limit: int): (s: LatticeState)
    ensures InOctave(s.tone)
  {
    LatticeState(limit, Unison, [0, 0, 0], [[0, 0, 0]])
  }

  /** traverse(vector): NotImplemented (false, state untouched) when the
      vector has more axes than the limit has odd primes; otherwise the
      walked, octave-reduced tone, the vector as node, and the vector added
      to the path. */
  function TraverseOf(s: LatticeState, v: seq<int>): (r: (LatticeState, bool))
    requires s.tone.Valid()
    ensures r.0.tone.Valid() && r.0.primeLimit == s.primeLimit
    ensures r.1 <==> |v| <= |OddPrimesUpTo(s.primeLimit)|
    ensures r.1 ==> InOctave(r.0.tone) && r.0.node == v && r.0.path == s.path + [v]
    ensures !r.1 ==> r.0 == s
  {
    var prims := Primaries(s.primeLimit);
    if |v| > |prims| then (s, false)
    else
      var t := BaseOctaveOf(Walk(s.tone, prims, v));
      BaseOctaveCorrect(Walk(s.tone, prims, v));
      (s.(tone := t, node := v, path := s.path + [v]), true)
  }

  lemma TraverseFits(s: LatticeState, v: seq<int>)
    requires s.tone.Valid() && |v| <= |Primaries(s.primeLimit)|
    ensures TraverseOf(s, v) ==
      (s.(tone := BaseOctaveOf(Walk(s.tone, Primaries(s.primeLimit), v)), node := v, path := s.path + [v]), true)
  {
  }

  /** undo(steps): each step pops the last vector of the path and traverses
      its negation, which pushes the negation back onto the path. Popping an
      empty path raises IndexError, leaving the steps done so far. */
  function UndoOf(s: LatticeState, steps: int): (r: (LatticeState, Option<Error>))
    requires s.tone.Valid()
    ensures r.0.tone.Valid() && r.0.primeLimit == s.primeLimit
    ensures InOctave(s.tone) ==> InOctave(r.0.tone)
    ensures r.1.Some? ==> r.1 == Some(IndexError) && r.0.path == []
    decreases steps
  {
    if steps <= 0 then (s, None)
    else if s.path == [] then (s, Some(IndexError))
    else
      var v := s.path[|s.path| - 1];
      UndoOf(TraverseOf(s.(path := s.path[..|s.path| - 1]), Negate(v)).0, steps - 1)
  }

  /** One undo step: the last vector is popped and traversed negated. */
  lemma UndoStep(s: LatticeState, t: LatticeState, steps: int)
    requires s.tone.Valid() && steps >= 1 && s.path != []
    requires t == TraverseOf(s.(path := s.path[..|s.path| - 1]), Negate(s.path[|s.path| - 1])).0
    ensures t.tone.Valid() && UndoOf(t, steps - 1) == UndoOf(s, steps)
  {
  }

  /** to_fundamental: back to 1/1 on the zero node of the same length, which
      is added to the path. */
  function ToFundamentalOf(s: LatticeState): (r: LatticeState)
    ensures InOctave(r.tone)
  {
    s.(tone := Unison, node := Zeros(|s.node|), path := s.path + [Zeros(|s.node|)])
  }

  /** reset_path: to_fundamental, then a path holding only the zero node. */
  function ResetPathOf(s: LatticeState): (r: LatticeState)
    ensures InOctave(r.tone)
  {
    var f := ToFundamentalOf(s);
    f.(path := [Zeros(|f.node|)])
  }

  /** to_node(node): to_fundamental, then traverse(node). */
  function ToNodeOf(s: LatticeState, v: seq<int>): (r: LatticeState)
    ensures InOctave(r.tone)
  {
    TraverseOf(ToFundamentalOf(s), v).0
  }

  /** The prime_limit setter as written: it builds an error message for a
      value that is not prime but never raises it. */
  function SetPrimeLimitOf(s: LatticeState, value: int): (r: LatticeState)
  {
    s.(primeLimit := value)
  }

  // What traverse and undo promise.

  /** The node is the last vector of the path: true of the initial lattice
      and kept by every operation except undo. */
  predicate NodeIsLast(s: LatticeState)
  {
    s.path != [] && s.node == s.path[|s.path| - 1]
  }

  lemma InitialNodeIsLast(limit: int)
    ensures NodeIsLast(Initial(limit)) && Initial(limit).path == [Initial(limit).node]
  {
  }

  lemma NodeIsLastKept(s: LatticeState, v: seq<int>, value: int)
    requires s.tone.Valid() && NodeIsLast(s)
    ensures NodeIsLast(TraverseOf(s, v).0) && NodeIsLast(ToNodeOf(s, v))
    ensures NodeIsLast(ToFundamentalOf(s)) && NodeIsLast(ResetPathOf(s))
    ensures NodeIsLast(SetPrimeLimitOf(s, value))
  {
  }

  /** Where the lattice stands after traverse depends on the prime limit and
      the tone, not on the node. */
  lemma TraverseIgnoresNode(s: LatticeState, v: seq<int>, n: seq<int>)
    requires s.tone.Valid()
    ensures TraverseOf(s.(node := n), v).0.tone == TraverseOf(s, v).0.tone
    ensures TraverseOf(s.(node := n), v).1 ==> TraverseOf(s.(node := n), v) == TraverseOf(s, v)
  {
  }

  lemma NegateTwice(v: seq<int>)
    ensures Negate(Negate(v)) == v
  {
  }

  /** undo(1) straight after traverse(v) returns to the tone and the prime
      limit before it; the path, as written, ends with the negated vector. */
  lemma UndoAfterTraverse(s: LatticeState, v: seq<int>)
    requires InOctave(s.tone) && |v| <= |OddPrimesUpTo(s.primeLimit)|
    ensures UndoOf(TraverseOf(s, v).0, 1) == (s.(node := Negate(v), path := s.path + [Negate(v)]), None)
  {
    var prims := Primaries(s.primeLimit);
    var s1 := TraverseOf(s, v).0;
    TraverseFits(s, v);
    var popped := s1.(path := s1.path[..|s1.path| - 1]);
    assert popped == s.(tone := s1.tone, node := v);
    TraverseFits(popped, Negate(v));
    WalkBack(s.tone, prims, v);
    assert UndoOf(s1, 1) == UndoOf(TraverseOf(popped, Negate(v)).0, 0);
  }

  /** As written, undo(2) straight after traverse(v) leaves the lattice as
      the traversal left it: the second step pops the negated vector the
      first step pushed and walks the traversal again. */
  lemma UndoTwiceRedoes(s: LatticeState, v: seq<int>)
    requires InOctave(s.tone) && |v| <= |OddPrimesUpTo(s.primeLimit)|
    ensures UndoOf(TraverseOf(s, v).0, 2) == (TraverseOf(s, v).0, None)
  {
    var s1 := TraverseOf(s, v).0;
    var s2 := s.(node := Negate(v), path := s.path + [Negate(v)]);
    UndoAfterTraverse(s, v);
    var popped := s1.(path := s1.path[..|s1.path| - 1]);
    assert UndoOf(s1, 2) == UndoOf(TraverseOf(popped, Negate(v)).0, 1);
    assert UndoOf(s1, 1) == UndoOf(TraverseOf(popped, Negate(v)).0, 0);
    assert UndoOf(s2, 1) == UndoOf(TraverseOf(s.(node := Negate(v)), Negate(Negate(v))).0, 0);
    NegateTwice(v);
    TraverseIgnoresNode(s, v, Negate(v));
  }

  /** undo as intended: each step pops the last vector and walks back along
      its negation without recording that walk, so the node is again the
      end of the path. */
  function UndoFixedOf(s: LatticeState, steps: int): (r: (LatticeState, Option<Error>))
    requires s.tone.Valid()
    ensures r.0.tone.Valid() && r.0.primeLimit == s.primeLimit
    ensures InOctave(s.tone) ==> InOctave(r.0.tone)
    ensures r.1.Some? ==> r.1 == Some(IndexError) && r.0.path == []
    decreases steps
  {
    if steps <= 0 then (s, None)
    else if s.path == [] then (s, Some(IndexError))
    else
      var popped := s.path[..|s.path| - 1];
      var back := TraverseOf(s.(path := popped), Negate(s.path[|s.path| - 1])).0;
      var n := if popped == [] then back.node else popped[|popped| - 1];
      UndoFixedOf(back.(node := n, path := popped), steps - 1)
  }

  /** The traversals vs, one after the other. */
  function TraverseAll(s: LatticeState, vs: seq<seq<int>>): (r: LatticeState)
    requires s.tone.Valid()
    ensures r.tone.Valid() && r.primeLimit == s.primeLimit
    ensures InOctave(s.tone) ==> InOctave(r.tone)
    decreases |vs|
  {
    if vs == [] then s else TraverseOf(TraverseAll(s, vs[..|vs| - 1]), vs[|vs| - 1]).0
  }

  predicate AllFit(limit: int, vs: seq<seq<int>>)
  {
    forall i :: 0 <= i < |vs| ==> |vs[i]| <= |OddPrimesUpTo(limit)|
  }

  /** Traversals that fit the axes end on the last vector and record every
      vector on the path. */
  lemma {:induction false} TraverseAllPath(s: LatticeState, vs: seq<seq<int>>)
    requires s.tone.Valid() && NodeIsLast(s) && AllFit(s.primeLimit, vs)
    ensures TraverseAll(s, vs).path == s.path + vs && NodeIsLast(TraverseAll(s, vs))
    decreases |vs|
  {
    if vs != [] {
      var vs' := vs[..|vs| - 1];
      var v := vs[|vs| - 1];
      assert AllFit(s.primeLimit, vs');
      TraverseAllPath(s, vs');
      var prev := TraverseAll(s, vs');
      assert TraverseAll(s, vs) == TraverseOf(prev, v).0;
      assert |v| <= |OddPrimesUpTo(prev.primeLimit)|;
      assert TraverseOf(prev, v).0.path == prev.path + [v];
      assert vs == vs' + [v];
    }
  }

  /** One intended undo step takes back the traversal before it. */
  lemma UndoFixedStep(s: LatticeState, v: seq<int>, k: nat)
    requires InOctave(s.tone) && NodeIsLast(s) && |v| <= |OddPrimesUpTo(s.primeLimit)|
    ensures UndoFixedOf(TraverseOf(s, v).0, k + 1) == UndoFixedOf(s, k)
  {
    var prims := Primaries(s.primeLimit);
    var s1 := TraverseOf(s, v).0;
    TraverseFits(s, v);
    var popped := s1.path[..|s1.path| - 1];
    assert popped == s.path;
    var back := TraverseOf(s1.(path := popped), Negate(v)).0;
    TraverseFits(s1.(path := popped), Negate(v));
    WalkBack(s.tone, prims, v);
    assert back.(node := s.node, path := popped) == s;
  }

  /** Undoing as intended as many steps as there were traversals restores
      the lattice entirely: tone, node and path. */
  lemma {:induction false} UndoFixedRestores(s: LatticeState, vs: seq<seq<int>>)
    requires InOctave(s.tone) && NodeIsLast(s) && AllFit(s.primeLimit, vs)
    ensures UndoFixedOf(TraverseAll(s, vs), |vs|) == (s, None)
    decreases |vs|
  {
    if vs != [] {
      var vs' := vs[..|vs| - 1];
      assert AllFit(s.primeLimit, vs');
      TraverseAllPath(s, vs');
      UndoFixedStep(TraverseAll(s, vs'), vs[|vs| - 1], |vs'|);
      UndoFixedRestores(s, vs');
    }
  }

  /** The prime_limit setter as intended: a value that is not prime (by
      is_prime) raises ValueError and leaves the lattice alone. */
  function SetPrimeLimitChecked(s: LatticeState, value: int): (r: Result<LatticeState>)
    ensures r.Ok? <==> IsPrime(value)
    ensures r.Ok? ==> r.value == s.(primeLimit := value)
    ensures r.Err? ==> r.error == ValueError
  {
    if !IsPrime(value) then Err(ValueError) else Ok(s.(primeLimit := value))
  }

  /** As written, the setter accepts 9 although the error message for a
      value that is not prime is built. */
  lemma SetPrimeLimitAcceptsNine(s: LatticeState)
    ensures SetPrimeLimitOf(s, 9).primeLimit == 9 && !IsPrime(9)
    ensures SetPrimeLimitChecked(s, 9) == Err(ValueError)
  {
    assert 9 % 3 == 0;
  }

  /** Walking zero steps on every axis stays put. */
  lemma {:induction false} WalkZeros(t: Interval, prims: seq<Interval>, n: nat)
    requires t.Valid() && AllValid(prims) && n <= |prims|
    ensures Walk(t, prims, Zeros(n)) == t
  {
    if n > 0 {
      assert Zeros(n)[..n - 1] == Zeros(n - 1);
      WalkZeros(t, prims, n - 1);
    }
  }

  /** to_node of the zero node is to_fundamental followed by recording that
      node once more: the tone is 1/1 whatever it was. */
  lemma ToNodeZeros(s: LatticeState, n: nat)
    requires s.tone.Valid() && n <= |OddPrimesUpTo(s.primeLimit)|
    ensures ToNodeOf(s, Zeros(n)).tone == Unison
    ensures ToNodeOf(s, Zeros(n)).path == s.path + [Zeros(|s.node|), Zeros(n)]
  {
    var f := ToFundamentalOf(s);
    TraverseFits(f, Zeros(n));
    WalkZeros(Unison, Primaries(s.primeLimit), n);
    LessInOctave(Unison);
  }

  // The lattice of limit 7.

  lemma OddPrimesUpToSeven()
    ensures OddPrimesUpTo(7) == [3, 5, 7]
  {
    GeneratePrimesUpTo10();
  }

  lemma OddPrimesUpToFive()
    ensures OddPrimesUpTo(5) == [3, 5]
  {
    GeneratePrimesUpTo10();
  }

  /** The axes of the 7-limit lattice: 3/2, 5/4 and 7/4. */
  lemma PrimariesSeven()
    ensures Primaries(7) == [Interval(3, 2), Interval(5, 4), Interval(7, 4)]
  {
    OddPrimesUpToSeven();
    PrimaryOdd(3);
    assert ExpFrom(3, 2) == 2;
    PrimaryOdd(5);
    assert ExpFrom(5, 2) == 3;
    PrimaryOdd(7);
    assert ExpFrom(7, 2) == 3;
    var ps := [3, 5, 7];
    assert ps[1..] == [5, 7] && ps[1..][1..] == [7];
    assert PrimaryList(ps) == [Generator(3), Generator(5), Generator(7)];
  }

  lemma WalkThree(t: Interval, prims: seq<Interval>, a: int, b: int, c: int)
    requires t.Valid() && AllValid(prims) && |prims| == 3
    ensures Walk(t, prims, [a, b, c]) ==
      WalkStep(WalkStep(WalkStep(t, prims[0], a), prims[1], b), prims[2], c)
  {
    var v := [a, b, c];
    assert v[..2] == [a, b] && v[..2][..1] == [a] && v[..2][..1][..0] == [];
    assert Walk(t, prims, [a]) == WalkStep(t, prims[0], a);
    assert Walk(t, prims, [a, b]) == WalkStep(Walk(t, prims, [a]), prims[1], b);
    assert Walk(t, prims, v) == WalkStep(Walk(t, prims, [a, b]), prims[2], c);
  }

  /** One step up the 3-axis from a tone in the octave. */
  lemma FifthAbove(t: Interval)
    requires t.Valid()
    ensures WalkStep(t, Interval(3, 2), 1) == Add(t, Interval(3, 2))
  {
    ComposeSingle(Interval(3, 2));
    assert seq(1, _ => Interval(3, 2)) == [Interval(3, 2)];
  }

  /** From 1/1, traverse([1, 0, 0]) reaches 3/2. */
  lemma TraverseFifth(s: LatticeState)
    requires s.primeLimit == 7 && s.tone == Unison
    ensures TraverseOf(s, [1, 0, 0]) == (s.(tone := Interval(3, 2), node := [1, 0, 0], path := s.path + [[1, 0, 0]]), true)
  {
    PrimariesSeven();
    OddPrimesUpToSeven();
    var prims := Primaries(7);
    WalkThree(Unison, prims, 1, 0, 0);
    FifthAbove(Unison);
    AddUnison(Interval(3, 2));
    TraverseFits(s, [1, 0, 0]);
    LessInOctave(Interval(3, 2));
  }

  /** From 3/2, traverse([1, 0, 0]) reaches 9/8. */
  lemma TraverseTone(s: LatticeState)
    requires s.primeLimit == 7 && s.tone == Interval(3, 2)
    ensures TraverseOf(s, [1, 0, 0]).0.tone == Interval(9, 8)
  {
    PrimariesSeven();
    OddPrimesUpToSeven();
    var prims := Primaries(7);
    WalkThree(Interval(3, 2), prims, 1, 0, 0);
    FifthAbove(Interval(3, 2));
    ReduceCanonical(9, 4, Interval(9, 4));
    BaseOctaveExamples();
    TraverseFits(s, [1, 0, 0]);
  }

  /** The factors of a walk over three axes. */
  lemma WalkFactorsThree(prims: seq<Interval>, a: int, b: int, c: int)
    requires |prims| == 3
    ensures WalkNum(prims, [a, b, c]) == StepNum(prims[0], a) * StepNum(prims[1], b) * StepNum(prims[2], c)
    ensures WalkDen(prims, [a, b, c]) == StepDen(prims[0], a) * StepDen(prims[1], b) * StepDen(prims[2], c)
  {
    var v := [a, b, c];
    assert v[..2] == [a, b] && v[..2][..1] == [a] && v[..2][..1][..0] == [];
    assert WalkNum(prims, [a]) == StepNum(prims[0], a) && WalkDen(prims, [a]) == StepDen(prims[0], a);
    assert WalkNum(prims, [a, b]) == StepNum(prims[0], a) * StepNum(prims[1], b);
    assert WalkDen(prims, [a, b]) == StepDen(prims[0], a) * StepDen(prims[1], b);
  }

  /** The numerator and denominator factors of a walk along the 7-limit
      axes 3/2, 5/4 and 7/4. */
  function SevenNum(a: int, b: int, c: int): nat
  {
    StepNum(Interval(3, 2), a) * StepNum(Interval(5, 4), b) * StepNum(Interval(7, 4), c)
  }

  function SevenDen(a: int, b: int, c: int): nat
  {
    StepDen(Interval(3, 2), a) * StepDen(Interval(5, 4), b) * StepDen(Interval(7, 4), c)
  }

  /** A walk on the 7-limit lattice, brought into the octave, is the one
      tone in the octave whose class is the start times the walk's factors
      n : d. */
  lemma WalkSeven(t: Interval, a: int, b: int, c: int, n: nat, d: nat, next: Interval)
    requires t.Valid() && next.Valid() && Less(next, Octave)
    requires n == t.num * SevenNum(a, b, c) && d == t.den * SevenDen(a, b, c)
    requires SameClass(n, d, next.num, next.den)
    ensures BaseOctaveOf(Walk(t, Primaries(7), [a, b, c])) == next
  {
    PrimariesSeven();
    var prims := Primaries(7);
    var v := [a, b, c];
    WalkFactorsThree(prims, a, b, c);
    var w := Walk(t, prims, v);
    WalkClass(t, prims, v);
    WalkFactorsNegate(prims, v);
    MulPositive(t.den, WalkDen(prims, v));
    ClassTrans(w.num, w.den, n, d, next.num, next.den);
    BaseOctaveUnique(w, next);
  }

  /** A traversal of the 7-limit lattice lands on the one tone in the
      octave whose class is the current tone times the walk's factors. */
  lemma TraverseSeven(s: LatticeState, a: int, b: int, c: int, n: nat, d: nat, next: Interval)
    requires s.primeLimit == 7 && s.tone.Valid() && next.Valid() && Less(next, Octave)
    requires n == s.tone.num * SevenNum(a, b, c) && d == s.tone.den * SevenDen(a, b, c)
    requires SameClass(n, d, next.num, next.den)
    ensures TraverseOf(s, [a, b, c]) == (s.(tone := next, node := [a, b, c], path := s.path + [[a, b, c]]), true)
  {
    PrimariesSeven();
    TraverseFits(s, [a, b, c]);
    WalkSeven(s.tone, a, b, c, n, d, next);
  }

  /** The traversal session of the lattice's documentation, from 1/1 on the
      7-limit lattice (the freshly built lattice, or any state back at 1/1):
      each vector is walked from the tone the last one left, and the path
      gains the eight vectors in order. */
  lemma TraverseSession(s0: LatticeState)
    requires s0.primeLimit == 7 && s0.tone == Unison
    ensures var s1 := TraverseOf(s0, [1, 0, 0]).0;
      var s2 := TraverseOf(s1, [-2, 0, 0]).0;
      var s3 := TraverseOf(s2, [1, 1, 0]).0;
      var s4 := TraverseOf(s3, [0, -2, 0]).0;
      s1.tone == Interval(3, 2) && s2.tone == Interval(4, 3) &&
      s3.tone == Interval(5, 4) && s4.tone == Interval(8, 5) &&
      var s5 := TraverseOf(s4, [0, 1, 1]).0;
      var s6 := TraverseOf(s5, [0, 0, -2]).0;
      var s7 := TraverseOf(s6, [2, 0, 1]).0;
      var s8 := TraverseOf(s7, [-4, 0, 0]).0;
      s5.tone == Interval(7, 4) && s6.tone == Interval(8, 7) &&
      s7.tone == Interval(9, 8) && s8.tone == Interval(16, 9) &&
      s8.path == s0.path + [[1, 0, 0], [-2, 0, 0], [1, 1, 0], [0, -2, 0],
        [0, 1, 1], [0, 0, -2], [2, 0, 1], [-4, 0, 0]]
  {
    SessionFirstHalf(s0);
    var s4 := TraverseOf(TraverseOf(TraverseOf(TraverseOf(s0, [1, 0, 0]).0, [-2, 0, 0]).0, [1, 1, 0]).0, [0, -2, 0]).0;
    SessionSecondHalf(s4);
    JoinFour(s0.path, [1, 0, 0], [-2, 0, 0], [1, 1, 0], [0, -2, 0], [0, 1, 1], [0, 0, -2], [2, 0, 1], [-4, 0, 0]);
  }

  lemma JoinFour<T>(p: seq<T>, a: T, b: T, c: T, d: T, e: T, f: T, g: T, h: T)
    ensures p + [a, b, c, d] + [e, f, g, h] == p + [a, b, c, d, e, f, g, h]
  {
    assert [a, b, c, d] + [e, f, g, h] == [a, b, c, d, e, f, g, h];
  }

  /** The first four steps of the session, from 1/1: 3/2, 4/3, 5/4, 8/5. */
  lemma SessionFirstHalf(s0: LatticeState)
    requires s0.primeLimit == 7 && s0.tone == Unison
    ensures var s1 := TraverseOf(s0, [1, 0, 0]).0;
      var s2 := TraverseOf(s1, [-2, 0, 0]).0;
      var s3 := TraverseOf(s2, [1, 1, 0]).0;
      var s4 := TraverseOf(s3, [0, -2, 0]).0;
      s1.tone == Interval(3, 2) && s2.tone == Interval(4, 3) &&
      s3.tone == Interval(5, 4) && s4.tone == Interval(8, 5) &&
      s4.primeLimit == 7 && s4.path == s0.path + [[1, 0, 0], [-2, 0, 0], [1, 1, 0], [0, -2, 0]]
  {
    var s1 := TraverseOf(s0, [1, 0, 0]).0;
    TraverseFifth(s0);
    var s2 := TraverseOf(s1, [-2, 0, 0]).0;
    SessionFourth(s1);
    var s3 := TraverseOf(s2, [1, 1, 0]).0;
    SessionThird(s2);
    SessionSixth(s3);
  }

  /** The last four steps of the session, from 8/5: 7/4, 8/7, 9/8, 16/9. */
  lemma SessionSecondHalf(s4: LatticeState)
    requires s4.primeLimit == 7 && s4.tone == Interval(8, 5)
    ensures var s5 := TraverseOf(s4, [0, 1, 1]).0;
      var s6 := TraverseOf(s5, [0, 0, -2]).0;
      var s7 := TraverseOf(s6, [2, 0, 1]).0;
      var s8 := TraverseOf(s7, [-4, 0, 0]).0;
      s5.tone == Interval(7, 4) && s6.tone == Interval(8, 7) &&
      s7.tone == Interval(9, 8) && s8.tone == Interval(16, 9) &&
      s8.path == s4.path + [[0, 1, 1], [0, 0, -2], [2, 0, 1], [-4, 0, 0]]
  {
    var s5 := TraverseOf(s4, [0, 1, 1]).0;
    SessionSeventh(s4);
    var s6 := TraverseOf(s5, [0, 0, -2]).0;
    SessionSeptimalTone(s5);
    var s7 := TraverseOf(s6, [2, 0, 1]).0;
    SessionTone(s6);
    SessionMinorSeventh(s7);
  }

  /** From 3/2, two fifths down: 4/3. */
  lemma SessionFourth(s: LatticeState)
    requires s.primeLimit == 7 && s.tone == Interval(3, 2)
    ensures TraverseOf(s, [-2, 0, 0]) == (s.(tone := Interval(4, 3), node := [-2, 0, 0], path := s.path + [[-2, 0, 0]]), true)
  {
    SessionFourthFactors();
    TraverseSeven(s, -2, 0, 0, 12, 18, Interval(4, 3));
  }

  lemma SessionFourthFactors()
    ensures Interval(4, 3).Valid()
    ensures SevenNum(-2, 0, 0) == 4 && SevenDen(-2, 0, 0) == 9
    ensures SameClass(12, 18, 4, 3)
  {
    assert Gcd(1, 0) == 1;
    assert Gcd(3, 1) == 1;
    assert Gcd(4, 3) == 1;
    assert IntPow(2, 1) == 2;
    assert IntPow(2, 2) == 4;
    assert IntPow(3, 1) == 3;
    assert IntPow(3, 2) == 9;
    assert Odd(3) == 3;
    assert Odd(1) == 1;
    assert Odd(2) == 1;
    assert Odd(4) == 1;
    assert Odd(6) == 3;
    assert Odd(12) == 3;
    assert Odd(9) == 9;
    assert Odd(18) == 9;
  }

  /** From 4/3, a fifth and a major third up: 5/4. */
  lemma SessionThird(s: LatticeState)
    requires s.primeLimit == 7 && s.tone == Interval(4, 3)
    ensures TraverseOf(s, [1, 1, 0]) == (s.(tone := Interval(5, 4), node := [1, 1, 0], path := s.path + [[1, 1, 0]]), true)
  {
    SessionThirdFactors();
    TraverseSeven(s, 1, 1, 0, 60, 24, Interval(5, 4));
  }

  lemma SessionThirdFactors()
    ensures Interval(5, 4).Valid()
    ensures SevenNum(1, 1, 0) == 15 && SevenDen(1, 1, 0) == 8
    ensures SameClass(60, 24, 5, 4)
  {
    assert Gcd(1, 0) == 1;
    assert Gcd(4, 1) == 1;
    assert Gcd(5, 4) == 1;
    assert IntPow(3, 1) == 3;
    assert IntPow(2, 1) == 2;
    assert IntPow(5, 1) == 5;
    assert IntPow(4, 1) == 4;
    assert Odd(1) == 1;
    assert Odd(2) == 1;
    assert Odd(4) == 1;
    assert Odd(5) == 5;
    assert Odd(3) == 3;
    assert Odd(6) == 3;
    assert Odd(12) == 3;
    assert Odd(24) == 3;
    assert Odd(15) == 15;
    assert Odd(30) == 15;
    assert Odd(60) == 15;
  }

  /** From 5/4, two major thirds down: 8/5. */
  lemma SessionSixth(s: LatticeState)
    requires s.primeLimit == 7 && s.tone == Interval(5, 4)
    ensures TraverseOf(s, [0, -2, 0]) == (s.(tone := Interval(8, 5), node := [0, -2, 0], path := s.path + [[0, -2, 0]]), true)
  {
    SessionSixthFactors();
    TraverseSeven(s, 0, -2, 0, 80, 100, Interval(8, 5));
  }

  lemma SessionSixthFactors()
    ensures Interval(8, 5).Valid()
    ensures SevenNum(0, -2, 0) == 16 && SevenDen(0, -2, 0) == 25
    ensures SameClass(80, 100, 8, 5)
  {
    assert Gcd(1, 0) == 1;
    assert Gcd(2, 1) == 1;
    assert Gcd(3, 2) == 1;
    assert Gcd(5, 3) == 1;
    assert Gcd(8, 5) == 1;
    assert IntPow(4, 1) == 4;
    assert IntPow(4, 2) == 16;
    assert IntPow(5, 1) == 5;
    assert IntPow(5, 2) == 25;
    assert Odd(5) == 5;
    assert Odd(1) == 1;
    assert Odd(2) == 1;
    assert Odd(4) == 1;
    assert Odd(8) == 1;
    assert Odd(10) == 5;
    assert Odd(20) == 5;
    assert Odd(40) == 5;
    assert Odd(80) == 5;
    assert Odd(25) == 25;
    assert Odd(50) == 25;
    assert Odd(100) == 25;
  }

  /** From 8/5, a major third and a septimal seventh up: 7/4. */
  lemma SessionSeventh(s: LatticeState)
    requires s.primeLimit == 7 && s.tone == Interval(8, 5)
    ensures TraverseOf(s, [0, 1, 1]) == (s.(tone := Interval(7, 4), node := [0, 1, 1], path := s.path + [[0, 1, 1]]), true)
  {
    SessionSeventhFactors();
    TraverseSeven(s, 0, 1, 1, 280, 80, Interval(7, 4));
  }

  lemma SessionSeventhFactors()
    ensures Interval(7, 4).Valid()
    ensures SevenNum(0, 1, 1) == 35 && SevenDen(0, 1, 1) == 16
    ensures SameClass(280, 80, 7, 4)
  {
    assert Gcd(1, 0) == 1;
    assert Gcd(3, 1) == 1;
    assert Gcd(4, 3) == 1;
    assert Gcd(7, 4) == 1;
    assert IntPow(5, 1) == 5;
    assert IntPow(4, 1) == 4;
    assert IntPow(7, 1) == 7;
    assert Odd(1) == 1;
    assert Odd(2) == 1;
    assert Odd(4) == 1;
    assert Odd(7) == 7;
    assert Odd(5) == 5;
    assert Odd(10) == 5;
    assert Odd(20) == 5;
    assert Odd(40) == 5;
    assert Odd(80) == 5;
    assert Odd(35) == 35;
    assert Odd(70) == 35;
    assert Odd(140) == 35;
    assert Odd(280) == 35;
  }

  /** From 7/4, two septimal sevenths down: 8/7. */
  lemma SessionSeptimalTone(s: LatticeState)
    requires s.primeLimit == 7 && s.tone == Interval(7, 4)
    ensures TraverseOf(s, [0, 0, -2]) == (s.(tone := Interval(8, 7), node := [0, 0, -2], path := s.path + [[0, 0, -2]]), true)
  {
    SessionSeptimalToneFactors();
    TraverseSeven(s, 0, 0, -2, 112, 196, Interval(8, 7));
  }

  lemma SessionSeptimalToneFactors()
    ensures Interval(8, 7).Valid()
    ensures SevenNum(0, 0, -2) == 16 && SevenDen(0, 0, -2) == 49
    ensures SameClass(112, 196, 8, 7)
  {
    assert Gcd(1, 0) == 1;
    assert Gcd(7, 1) == 1;
    assert Gcd(8, 7) == 1;
    assert IntPow(4, 1) == 4;
    assert IntPow(4, 2) == 16;
    assert IntPow(7, 1) == 7;
    assert IntPow(7, 2) == 49;
    assert Odd(7) == 7;
    assert Odd(1) == 1;
    assert Odd(2) == 1;
    assert Odd(4) == 1;
    assert Odd(8) == 1;
    assert Odd(14) == 7;
    assert Odd(28) == 7;
    assert Odd(56) == 7;
    assert Odd(112) == 7;
    assert Odd(49) == 49;
    assert Odd(98) == 49;
    assert Odd(196) == 49;
  }

  /** From 8/7, two fifths and a septimal seventh up: 9/8. */
  lemma SessionTone(s: LatticeState)
    requires s.primeLimit == 7 && s.tone == Interval(8, 7)
    ensures TraverseOf(s, [2, 0, 1]) == (s.(tone := Interval(9, 8), node := [2, 0, 1], path := s.path + [[2, 0, 1]]), true)
  {
    SessionToneFactors();
    TraverseSeven(s, 2, 0, 1, 504, 112, Interval(9, 8));
  }

  lemma SessionToneFactors()
    ensures Interval(9, 8).Valid()
    ensures SevenNum(2, 0, 1) == 63 && SevenDen(2, 0, 1) == 16
    ensures SameClass(504, 112, 9, 8)
  {
    assert Gcd(1, 0) == 1;
    assert Gcd(8, 1) == 1;
    assert Gcd(9, 8) == 1;
    assert IntPow(3, 1) == 3;
    assert IntPow(3, 2) == 9;
    assert IntPow(2, 1) == 2;
    assert IntPow(2, 2) == 4;
    assert IntPow(7, 1) == 7;
    assert IntPow(4, 1) == 4;
    assert Odd(1) == 1;
    assert Odd(2) == 1;
    assert Odd(4) == 1;
    assert Odd(8) == 1;
    assert Odd(9) == 9;
    assert Odd(7) == 7;
    assert Odd(14) == 7;
    assert Odd(28) == 7;
    assert Odd(56) == 7;
    assert Odd(112) == 7;
    assert Odd(63) == 63;
    assert Odd(126) == 63;
    assert Odd(252) == 63;
    assert Odd(504) == 63;
  }

  /** From 9/8, four fifths down: 16/9. */
  lemma SessionMinorSeventh(s: LatticeState)
    requires s.primeLimit == 7 && s.tone == Interval(9, 8)
    ensures TraverseOf(s, [-4, 0, 0]) == (s.(tone := Interval(16, 9), node := [-4, 0, 0], path := s.path + [[-4, 0, 0]]), true)
  {
    SessionMinorSeventhFactors();
    TraverseSeven(s, -4, 0, 0, 144, 648, Interval(16, 9));
  }

  lemma SessionMinorSeventhFactors()
    ensures Interval(16, 9).Valid()
    ensures SevenNum(-4, 0, 0) == 16 && SevenDen(-4, 0, 0) == 81
    ensures SameClass(144, 648, 16, 9)
  {
    assert Gcd(1, 0) == 1;
    assert Gcd(2, 1) == 1;
    assert Gcd(7, 2) == 1;
    assert Gcd(9, 7) == 1;
    assert Gcd(16, 9) == 1;
    assert IntPow(2, 1) == 2;
    assert IntPow(2, 2) == 4;
    assert IntPow(2, 3) == 8;
    assert IntPow(2, 4) == 16;
    assert IntPow(3, 1) == 3;
    assert IntPow(3, 2) == 9;
    assert IntPow(3, 3) == 27;
    assert IntPow(3, 4) == 81;
    assert Odd(9) == 9;
    assert Odd(1) == 1;
    assert Odd(2) == 1;
    assert Odd(4) == 1;
    assert Odd(8) == 1;
    assert Odd(16) == 1;
    assert Odd(18) == 9;
    assert Odd(36) == 9;
    assert Odd(72) == 9;
    assert Odd(144) == 9;
    assert Odd(81) == 81;
    assert Odd(162) == 81;
    assert Odd(324) == 81;
    assert Odd(648) == 81;
  }

  lemma LessInOctave(t: Interval)
    requires t.Valid() && t.num < 2 * t.den
    ensures InOctave(t) && BaseOctaveOf(t) == t
  {
  }

  /** The session of the source's examples: from 1/1, traverse([1, 0, 0])
      gives 3/2 and undo(1) gives 1/1 again. */
  lemma UndoExample()
    ensures TraverseOf(Initial(7), [1, 0, 0]).0.tone == Interval(3, 2)
    ensures UndoOf(TraverseOf(Initial(7), [1, 0, 0]).0, 1).0.tone == Unison
  {
    TraverseFifth(Initial(7));
    OddPrimesUpToSeven();
    UndoAfterTraverse(Initial(7), [1, 0, 0]);
  }

  /** As written: two fifths up give 9/8, and undo(2) keeps 9/8, where
      undoing both traversals should give 1/1, as the intended undo does. */
  lemma UndoTwiceExample()
    ensures var s2 := TraverseOf(TraverseOf(Initial(7), [1, 0, 0]).0, [1, 0, 0]).0;
      s2.tone == Interval(9, 8) && UndoOf(s2, 2).0.tone == Interval(9, 8) &&
      UndoFixedOf(s2, 2).0 == Initial(7)
  {
    var s0 := Initial(7);
    var s1 := TraverseOf(s0, [1, 0, 0]).0;
    TraverseFifth(s0);
    TraverseTone(s1);
    OddPrimesUpToSeven();
    UndoTwiceRedoes(s1, [1, 0, 0]);
    InitialNodeIsLast(7);
    var vs := [[1, 0, 0], [1, 0, 0]];
    assert AllFit(7, vs);
    assert vs[..1] == [[1, 0, 0]] && vs[..1][..0] == [] <= vs;
    assert TraverseAll(s0, vs) == TraverseOf(s1, [1, 0, 0]).0;
    UndoFixedRestores(s0, vs);
  }

  /** A JustLattice. */
  class JustLattice {
    var primeLimit: int
    var tone: Interval
    var node: seq<int>
    var path: seq<seq<int>>

    function State(): LatticeState
      reads this
    {
      LatticeState(primeLimit, tone, node, path)
    }

    /** The tone is always a valid interval within the octave. */
    predicate Valid()
      reads this
    {
      InOctave(tone)
    }

    constructor (limit: int)
      ensures State() == Initial(limit) && Valid()
    {
      primeLimit := limit;
      tone := Unison;
      node := [0, 0, 0];
      path := [[0, 0, 0]];
    }

    /** The axis loop of traverse: the tone moves along each axis in turn. */
    method WalkAxes(prims: seq<Interval>, vector: seq<int>)
      requires tone.Valid() && AllValid(prims) && |vector| <= |prims|
      modifies this
      ensures tone == Walk(old(tone), prims, vector)
      ensures primeLimit == old(primeLimit) && node == old(node) && path == old(path)
    {
      var axis := 0;
      while axis < |vector|
        invariant 0 <= axis <= |vector|
        invariant tone == Walk(old(tone), prims, vector[..axis])
        invariant primeLimit == old(primeLimit) && node == old(node) && path == old(path)
      {
        var steps := vector[axis];
        var interval := PowerOf(prims[axis], Abs(steps));
        WalkExtend(old(tone), prims, vector, axis);
        if steps > 0 {
          tone := Add(tone, interval);
        } else if steps < 0 {
          tone := Sub(tone, interval);
        }
        axis := axis + 1;
      }
      assert vector[..axis] == vector;
    }

    /** traverse: NotImplemented for a vector longer than the axes; otherwise
        the axis loop, the octave reduction, and the new node and path. */
    method Traverse(vector: seq<int>) returns (implemented: bool)
      requires Valid()
      modifies this
      ensures Valid()
      ensures (State(), implemented) == TraverseOf(old(State()), vector)
    {
      var prims := Primaries(primeLimit);
      if |vector| > |prims| {
        return false;
      }
      WalkAxes(prims, vector);
      BaseOctaveCorrect(tone);
      tone := BaseOctave(tone);
      node := vector;
      path := path + [vector];
      TraverseFits(old(State()), vector);
      return true;
    }

    /** undo: pop a vector, traverse its negation, steps times. */
    method Undo(steps: int) returns (error: Option<Error>)
      requires Valid()
      modifies this
      ensures Valid()
      ensures (State(), error) == UndoOf(old(State()), steps)
    {
      var left := steps;
      while left > 0
        invariant Valid()
        invariant UndoOf(State(), left) == UndoOf(old(State()), steps)
      {
        if path == [] {
          return Some(IndexError);
        }
        UndoLast(left);
        left := left - 1;
      }
      return None;
    }

    /** One pass of the undo loop: pop the last vector and traverse its
        negation, leaving steps - 1 undos to do. */
    method UndoLast(ghost steps: int)
      requires Valid() && path != [] && steps >= 1
      modifies this
      ensures Valid()
      ensures UndoOf(State(), steps - 1) == UndoOf(old(State()), steps)
    {
      ghost var s0 := State();
      var vector := path[|path| - 1];
      path := path[..|path| - 1];
      var _ := Traverse(Negate(vector));
      UndoStep(s0, State(), steps);
    }

    method ToFundamental()
      requires Valid()
      modifies this
      ensures Valid()
      ensures State() == ToFundamentalOf(old(State()))
    {
      var axes := |node|;
      var rootNode := Zeros(axes);
      node := rootNode;
      tone := Unison;
      path := path + [rootNode];
    }

    method ResetPath()
      requires Valid()
      modifies this
      ensures Valid()
      ensures State() == ResetPathOf(old(State()))
    {
      ToFundamental();
      var axes := |node|;
      path := [Zeros(axes)];
    }

    method ToNode(vector: seq<int>)
      requires Valid()
      modifies this
      ensures Valid()
      ensures State() == ToNodeOf(old(State()), vector)
    {
      ToFundamental();
      var _ := Traverse(vector);
    }

    /** The prime_limit setter, as written: the primality test decides
        nothing. */
    method SetPrimeLimit(value: int)
      requires Valid()
      modifies this
      ensures Valid()
      ensures State() == SetPrimeLimitOf(old(State()), value)
    {
      var _ := CheckPrime(value);
      primeLimit := value;
    }
  }
}
