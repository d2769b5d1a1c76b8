/** Chords on the lattice: a root node, the nodes of the other tones
    (vectors relative to the root), and a lattice the tones are read
    from. */
module Chords {
  import opened NumberTheory
  import opened Results
  import opened Primes
  import opened Intervals
  import opened Compositions
  import opened Lattice
  import opened Text
  import Scales
  import opened Harmonics
  import Series = Harmonics

  // The chord names.

  /** The table of from_name: the nodes of each named chord. */
  function ChordNodes(name: string): (r: Option<seq<seq<int>>>)
    ensures r.Some? ==> 2 <= |r.value| <= 4 && forall i :: 0 <= i < |r.value| ==> |r.value[i]| == 3
  {
    if name == "sub-minor triad" then Some([[1, 0, 0], [-1, 0, 1]])
    else if name == "minor triad" then Some([[1, -1, 0], [1, 0, 0]])
    else if name == "diminished triad" then Some([[1, -1, 0], [0, -1, 1]])
    else if name == "major triad" then Some([[0, 1, 0], [1, 0, 0]])
    else if name == "sub-minor seventh" then Some([[-1, 0, 1], [1, 0, 0], [0, 0, 1]])
    else if name == "minor seventh" then Some([[1, -1, 0], [1, 0, 0], [2, -1, 0]])
    else if name == "half-diminished seventh" then Some([[1, -1, 0], [0, -1, 1], [2, -1, 0]])
    else if name == "major seventh" then Some([[0, 1, 0], [1, 0, 0], [1, 1, 0]])
    else if name == "super-major seventh" then Some([[2, 0, -1], [1, 0, 0], [3, 0, -1]])
    else if name == "dominant seventh" then Some([[0, 1, 0], [1, 0, 0], [1, 1, 0], [0, 0, 1]])
    else if name == "added second" then Some([[0, 1, 0], [1, 0, 0], [2, -1, 0]])
    else if name == "minor ninth" then Some([[1, -1, 0], [1, 0, 0], [2, -1, 0], [2, 0, 0]])
    else if name == "major ninth" then Some([[0, 1, 0], [1, 0, 0], [1, 1, 0], [2, 0, 0]])
    else if name == "dominant ninth" then Some([[0, 1, 0], [1, 0, 0], [0, 0, 1], [2, 0, 0]])
    else if name == "4-6-7" then Some([[1, 0, 0], [0, 0, 1]])
    else if name == "5-7-9" then Some([[0, -1, 1], [2, -1, 0]])
    else None
  }

  /** The sixteen names of the table. */
  const ChordNames: set<string> := {
    "sub-minor triad", "minor triad", "diminished triad", "major triad",
    "sub-minor seventh", "minor seventh", "half-diminished seventh", "major seventh",
    "super-major seventh", "dominant seventh", "added second", "minor ninth",
    "major ninth", "dominant ninth", "4-6-7", "5-7-9"
  }

  /** from_name finds a chord exactly for the sixteen names, in any mix of
      upper and lower case, and gives NotImplemented for any other. */
  lemma FromNameKnown(name: string)
    ensures ChordNodes(Lower(name)).Some? <==> Lower(name) in ChordNames
    ensures ChordNodes(Lower(Lower(name))) == ChordNodes(Lower(name))
  {
    LowerIdempotent(name);
  }

  lemma FromNameExamples()
    ensures ChordNodes(Lower("Major triad")) == Some([[0, 1, 0], [1, 0, 0]])
    ensures ChordNodes(Lower("minor triad")) == Some([[1, -1, 0], [1, 0, 0]])
    ensures ChordNodes(Lower("major")) == None
  {
    LowerMajorTriad();
    LowerUnchanged("minor triad");
    LowerUnchanged("major");
  }

  lemma LowerMajorTriad()
    ensures Lower("Major triad") == "major triad"
  {
    var m := "Major triad";
    assert Lower(m)[0] == 'm';
    assert Lower(m)[1..] == m[1..] by {
      LowerUnchanged(m[1..]);
      assert Lower(m)[1..] == Lower(m[1..]);
    }
  }

  // Padding.

  /** value + (n - len(value)) * [0]: zeros up to length n; a longer value
      is left as it is, since a negative repeat count gives []. */
  function Padded(v: seq<int>, n: int): (r: seq<int>)
    ensures |r| == Max(|v|, n) && r[..|v|] == v
    ensures forall i :: |v| <= i < |r| ==> r[i] == 0
  {
    v + Zeros(if n > |v| then n - |v| else 0)
  }

  /** max(len(node) for node in nodes): a ValueError for no nodes. */
  function MaxLen(nodes: seq<seq<int>>): (r: Result<int>)
    ensures r.Ok? <==> nodes != []
    ensures r.Err? ==> r.error == ValueError
    ensures r.Ok? ==> (forall i :: 0 <= i < |nodes| ==> |nodes[i]| <= r.value) &&
                      exists i :: 0 <= i < |nodes| && |nodes[i]| == r.value
  {
    if nodes == [] then Err(ValueError)
    else
      var lens := seq(|nodes|, i requires 0 <= i < |nodes| => |nodes[i]|);
      var m := MaxOf(lens);
      assert forall i :: 0 <= i < |nodes| ==> |nodes[i]| == lens[i];
      assert exists i :: 0 <= i < |nodes| && lens[i] == m;
      Ok(m)
  }

  /** Every node padded to length n. */
  function PadAll(nodes: seq<seq<int>>, n: int): (r: seq<seq<int>>)
    ensures |r| == |nodes| && forall i :: 0 <= i < |nodes| ==> r[i] == Padded(nodes[i], n)
  {
    seq(|nodes|, i requires 0 <= i < |nodes| => Padded(nodes[i], n))
  }

  /** After the nodes setter every node has the same length, and each is
      its value followed by zeros. */
  lemma PadAllCorrect(nodes: seq<seq<int>>)
    requires nodes != []
    ensures var m := MaxLen(nodes).value;
            var r := PadAll(nodes, m);
            forall i :: 0 <= i < |r| ==>
              |r[i]| == m && r[i][..|nodes[i]|] == nodes[i] &&
              forall k :: |nodes[i]| <= k < m ==> r[i][k] == 0
  {
  }

  // Complement.

  /** map(lambda x, y: y - x, node, root): root less node, component by
      component, as long as the shorter of the two. */
  function ComplementNode(root: seq<int>, node: seq<int>): (r: seq<int>)
    ensures |r| == Min(|node|, |root|)
    ensures forall k :: 0 <= k < |r| ==> r[k] == root[k] - node[k]
  {
    seq(Min(|node|, |root|), k requires 0 <= k < Min(|node|, |root|) => root[k] - node[k])
  }

  function ComplementNodes(root: seq<int>, nodes: seq<seq<int>>): (r: seq<seq<int>>)
    ensures |r| == |nodes| && forall i :: 0 <= i < |nodes| ==> r[i] == ComplementNode(root, nodes[i])
  {
    seq(|nodes|, i requires 0 <= i < |nodes| => ComplementNode(root, nodes[i]))
  }

  /** When every node is as long as the root, the complement of the
      complement is the chord again. */
  lemma ComplementInvolutive(root: seq<int>, nodes: seq<seq<int>>)
    requires forall i :: 0 <= i < |nodes| ==> |nodes[i]| == |root|
    ensures ComplementNodes(root, ComplementNodes(root, nodes)) == nodes
  {
    var c := ComplementNodes(root, nodes);
    forall i | 0 <= i < |nodes|
      ensures ComplementNode(root, c[i]) == nodes[i]
    {
    }
  }

  /** The example chord: nodes [2, 0], [0, 1], [-1, 0], [1, 0] around the
      root [0, 0, 0]. */
  lemma ComplementExample()
    ensures ComplementNodes([0, 0, 0], [[2, 0], [0, 1], [-1, 0], [1, 0]]) ==
            [[-2, 0], [0, -1], [1, 0], [-1, 0]]
  {
    var c := ComplementNodes([0, 0, 0], [[2, 0], [0, 1], [-1, 0], [1, 0]]);
    assert c[0] == [-2, 0] && c[1] == [0, -1] && c[2] == [1, 0] && c[3] == [-1, 0];
  }

  // Pivot.

  /** list.index: the first position of x, or None (a ValueError). */
  function IndexOf(xs: seq<int>, x: int): (r: Option<nat>)
    ensures r.Some? ==> r.value < |xs| && xs[r.value] == x && forall j :: 0 <= j < r.value ==> xs[j] != x
    ensures r.None? <==> x !in xs
  {
    if xs == [] then None
    else if xs[0] == x then Some(0)
    else
      match IndexOf(xs[1..], x)
      case None => None
      case Some(i) => Some(i + 1)
  }

  /** Component ix of every node negated (base - node[ix] with base 0). */
  function PivotNodes(nodes: seq<seq<int>>, ix: nat): (r: seq<seq<int>>)
    requires forall i :: 0 <= i < |nodes| ==> ix < |nodes[i]|
    ensures |r| == |nodes|
    ensures forall i :: 0 <= i < |nodes| ==>
              |r[i]| == |nodes[i]| && r[i][ix] == -nodes[i][ix] &&
              forall k :: 0 <= k < |nodes[i]| && k != ix ==> r[i][k] == nodes[i][k]
  {
    seq(|nodes|, i requires 0 <= i < |nodes| => nodes[i][ix := -nodes[i][ix]])
  }

  /** Pivoting twice on the same axis gives the nodes back. */
  lemma PivotInvolutive(nodes: seq<seq<int>>, ix: nat)
    requires forall i :: 0 <= i < |nodes| ==> ix < |nodes[i]|
    ensures PivotNodes(PivotNodes(nodes, ix), ix) == nodes
  {
    var p := PivotNodes(PivotNodes(nodes, ix), ix);
    forall i | 0 <= i < |nodes|
      ensures p[i] == nodes[i]
    {
    }
  }

  /** pivot(axis), given the chord's prime limit: an axis above the limit
      is refused; the axis is looked up among the odd primes up to the
      limit; min() over no nodes raises ValueError and a node without that
      component raises IndexError; then the component is negated. */
  function PivotOf(limit: int, nodes: seq<seq<int>>, axis: int): (r: Result<seq<seq<int>>>)
  {
    if axis > limit then Err(ValueError)
    else
      match IndexOf(OddPrimesUpTo(limit), axis)
      case None => Err(ValueError)
      case Some(ix) =>
        if nodes == [] then Err(ValueError)
        else if exists i :: 0 <= i < |nodes| && |nodes[i]| <= ix then Err(IndexError)
        else Ok(PivotNodes(nodes, ix))
  }

  /** pivot succeeds exactly for an odd prime axis up to the limit when
      every node has that axis; the component of that axis, and only it,
      changes sign. */
  lemma PivotCorrect(limit: int, nodes: seq<seq<int>>, axis: int)
    ensures PivotOf(limit, nodes, axis).Ok? <==>
              3 <= axis <= limit && IsPrime(axis) && nodes != [] &&
              forall i :: 0 <= i < |nodes| ==> IndexOf(OddPrimesUpTo(limit), axis).value < |nodes[i]|
    ensures PivotOf(limit, nodes, axis).Err? ==> PivotOf(limit, nodes, axis).error in {ValueError, IndexError}
    ensures PivotOf(limit, nodes, axis).Ok? ==>
              var ix := IndexOf(OddPrimesUpTo(limit), axis).value;
              OddPrimesUpTo(limit)[ix] == axis &&
              PivotOf(limit, nodes, axis).value == PivotNodes(nodes, ix)
  {
  }

  // Octave raising (the rational part of hertz).

  /** tone + 2/1, k times. */
  function RaiseBy(t: Interval, k: nat): (r: Interval)
    requires t.Valid()
    ensures r.Valid()
  {
    if k == 0 then t else Add(RaiseBy(t, k - 1), Octave)
  }

  lemma {:induction false} RaiseShift(t: Interval, k: nat)
    requires t.Valid()
    ensures RaiseBy(Add(t, Octave), k) == RaiseBy(t, k + 1)
  {
    if k > 0 {
      RaiseShift(t, k - 1);
    }
  }

  /** The number of octaves the while loop of hertz adds to t: the fewest
      that bring it up to floor. */
  function LiftCount(t: Interval, floor: Interval): (k: nat)
    requires t.Valid() && floor.Valid()
    ensures LessEq(floor, RaiseBy(t, k))
    ensures forall j :: 0 <= j < k ==> Less(RaiseBy(t, j), floor)
    decreases Shortfall(t, floor)
  {
    if Less(t, floor) then
      AddOctaveCloser(t, floor);
      var k := LiftCount(Add(t, Octave), floor);
      RaiseShift(t, k);
      assert forall j :: 0 <= j < k ==> RaiseBy(Add(t, Octave), j) == RaiseBy(t, j + 1) by {
        forall j | 0 <= j < k
          ensures RaiseBy(Add(t, Octave), j) == RaiseBy(t, j + 1)
        {
          RaiseShift(t, j);
        }
      }
      assert forall j :: 1 <= j < k + 1 ==> Less(RaiseBy(t, j), floor) by {
        forall j | 1 <= j < k + 1
          ensures Less(RaiseBy(t, j), floor)
        {
          assert Less(RaiseBy(Add(t, Octave), j - 1), floor);
        }
      }
      k + 1
    else 0
  }

  /** The fewest octaves are unique. */
  lemma LiftCountUnique(t: Interval, floor: Interval, k: nat)
    requires t.Valid() && floor.Valid()
    requires LessEq(floor, RaiseBy(t, k))
    requires forall j :: 0 <= j < k ==> Less(RaiseBy(t, j), floor)
    ensures k == LiftCount(t, floor)
  {
    var n := LiftCount(t, floor);
    if k < n {
      assert false;
    } else if k > n {
      assert false;
    }
  }

  /** The tones of hertz before the multiply: the first as it is, each
      later one raised by octaves until it is not below the one before. */
  function Raised(tones: seq<Interval>): (r: seq<Interval>)
    requires AllValid(tones) && |tones| >= 1
    ensures |r| == |tones| && AllValid(r) && r[0] == tones[0]
    decreases |tones|
  {
    if |tones| == 1 then tones
    else
      var r := Raised(tones[..|tones| - 1]);
      var t := tones[|tones| - 1];
      r + [RaiseBy(t, LiftCount(t, r[|r| - 1]))]
  }

  /** The raised tones never fall, and each is its tone raised by the
      fewest octaves that keep it at or above the one before. */
  lemma {:induction false} RaisedCorrect(tones: seq<Interval>)
    requires AllValid(tones) && |tones| >= 1
    ensures Sorted(Raised(tones))
    ensures forall i :: 1 <= i < |tones| ==>
              Raised(tones)[i] == RaiseBy(tones[i], LiftCount(tones[i], Raised(tones)[i - 1]))
    decreases |tones|
  {
    if |tones| > 1 {
      var init := tones[..|tones| - 1];
      RaisedCorrect(init);
      var r := Raised(tones);
      var q := Raised(init);
      assert r[..|q|] == q;
      var last := r[|r| - 1];
      assert LessEq(q[|q| - 1], last);
      forall i, j | 0 <= i < j < |r|
        ensures LessEq(r[i], r[j])
      {
        if j == |r| - 1 {
          LessEqTransitive(r[i], q[|q| - 1], last);
        } else {
          assert r[i] == q[i] && r[j] == q[j];
        }
      }
      forall i | 1 <= i < |tones|
        ensures r[i] == RaiseBy(tones[i], LiftCount(tones[i], r[i - 1]))
      {
        if i < |tones| - 1 {
          assert init[i] == tones[i] && r[i] == q[i] && r[i - 1] == q[i - 1];
        }
      }
    }
  }

  /** The loops of hertz: each tone after the first goes up an octave at a
      time while it lies below the previous raised tone. */
  method RaiseOctaves(tones: seq<Interval>) returns (r: seq<Interval>)
    requires AllValid(tones) && |tones| >= 1
    ensures r == Raised(tones)
  {
    r := [tones[0]];
    var i := 1;
    while i < |tones|
      invariant 1 <= i <= |tones|
      invariant r == Raised(tones[..i])
    {
      var floor := r[|r| - 1];
      var tone := tones[i];
      ghost var k := 0;
      while Less(tone, floor)
        invariant tone == RaiseBy(tones[i], k)
        invariant forall j :: 0 <= j < k ==> Less(RaiseBy(tones[i], j), floor)
        decreases Shortfall(tone, floor)
      {
        AddOctaveCloser(tone, floor);
        tone := Add(tone, Octave);
        k := k + 1;
      }
      LiftCountUnique(tones[i], floor, k);
      assert tones[..i + 1][..i] == tones[..i];
      r := r + [tone];
      i := i + 1;
    }
    assert tones[..i] == tones;
  }

  // Tones.

  /** One step along an axis adds the axis interval once. */
  lemma StepOnce(t: Interval, g: Interval)
    requires t.Valid() && g.Valid()
    ensures WalkStep(t, g, 1) == Add(t, g)
  {
    ComposeSingle(g);
    assert seq(1, _ => g) == [g];
  }

  /** The tone of the root: the walk from 1/1 along the root's axes, in the
      octave; 1/1 when the root has more axes than the limit has odd primes,
      because traverse then does nothing. */
  function RootTone(limit: int, root: seq<int>): (r: Interval)
    ensures InOctave(r)
  {
    var prims := Primaries(limit);
    if |root| <= |prims| then
      BaseOctaveCorrect(Walk(Unison, prims, root));
      BaseOctaveOf(Walk(Unison, prims, root))
    else Unison
  }

  /** The tone of a node: the walk from the root tone along the node's
      axes, in the octave. */
  function NodeTone(limit: int, root: seq<int>, node: seq<int>): (r: Interval)
    requires |node| <= |OddPrimesUpTo(limit)|
    ensures InOctave(r)
  {
    BaseOctaveCorrect(Walk(RootTone(limit, root), Primaries(limit), node));
    BaseOctaveOf(Walk(RootTone(limit, root), Primaries(limit), node))
  }

  /** to_node(root) from any state of the lattice reaches the root tone,
      on the root node when it fits. */
  lemma ToNodeTone(s: LatticeState, root: seq<int>)
    ensures ToNodeOf(s, root).tone == RootTone(s.primeLimit, root)
    ensures ToNodeOf(s, root).primeLimit == s.primeLimit
    ensures |root| <= |OddPrimesUpTo(s.primeLimit)| ==> ToNodeOf(s, root).node == root
  {
    if |root| <= |OddPrimesUpTo(s.primeLimit)| {
      TraverseFits(ToFundamentalOf(s), root);
    }
  }

  /** ts in front of the tones of a result; an error stays the error. */
  function Prefix(ts: seq<Interval>, r: Result<seq<Interval>>): Result<seq<Interval>>
  {
    match r
    case Err(e) => Err(e)
    case Ok(vs) => Ok(ts + vs)
  }

  /** traverse(node) after to_node(root) reaches the tone of the node. */
  lemma NodeStep(s: LatticeState, root: seq<int>, node: seq<int>)
    requires |node| <= |OddPrimesUpTo(s.primeLimit)|
    ensures TraverseOf(ToNodeOf(s, root), node).0.tone == NodeTone(s.primeLimit, root, node)
  {
    ToNodeTone(s, root);
    TraverseFits(ToNodeOf(s, root), node);
  }

  /** The tone of the first node in front of the tones of the others. */
  lemma WalkPrefix(limit: int, root: seq<int>, nodes: seq<seq<int>>, t: Interval, rest: Result<seq<Interval>>)
    requires nodes != [] && |nodes[0]| <= |OddPrimesUpTo(limit)| && t == NodeTone(limit, root, nodes[0])
    requires rest.Ok? ==> forall i :: 1 <= i < |nodes| ==> |nodes[i]| <= |OddPrimesUpTo(limit)|
    requires rest.Ok? ==> |rest.value| == |nodes| - 1
    requires rest.Ok? ==> forall i :: 1 <= i < |nodes| ==> rest.value[i - 1] == NodeTone(limit, root, nodes[i])
    ensures Prefix([t], rest).Ok? ==> |Prefix([t], rest).value| == |nodes|
    ensures Prefix([t], rest).Ok? ==>
              forall i :: 0 <= i < |nodes| ==> Prefix([t], rest).value[i] == NodeTone(limit, root, nodes[i])
  {
  }

  /** The loop of tones: for each node, to_node(root) and traverse(node);
      a traverse that gives NotImplemented has no tone attribute, so the
      first node with too many axes raises AttributeError, leaving the
      lattice where that traverse left it. */
  function ChordWalk(s: LatticeState, root: seq<int>, nodes: seq<seq<int>>): (LatticeState, Result<seq<Interval>>)
    decreases |nodes|
  {
    if nodes == [] then (s, Ok([]))
    else
      var step := TraverseOf(ToNodeOf(s, root), nodes[0]);
      if !step.1 then (step.0, Err(AttributeError))
      else
        var rest := ChordWalk(step.0, root, nodes[1..]);
        (rest.0, Prefix([step.0.tone], rest.1))
  }

  /** The walk fails exactly at a node with too many axes, and otherwise
      gives the tone of every node read from the root. */
  lemma {:induction false} ChordWalkCorrect(s: LatticeState, root: seq<int>, nodes: seq<seq<int>>)
    ensures ChordWalk(s, root, nodes).0.primeLimit == s.primeLimit
    ensures nodes != [] || InOctave(s.tone) ==> InOctave(ChordWalk(s, root, nodes).0.tone)
    ensures ChordWalk(s, root, nodes).1.Ok? <==> forall i :: 0 <= i < |nodes| ==> |nodes[i]| <= |OddPrimesUpTo(s.primeLimit)|
    ensures ChordWalk(s, root, nodes).1.Err? ==> ChordWalk(s, root, nodes).1.error == AttributeError
    ensures ChordWalk(s, root, nodes).1.Ok? ==> |ChordWalk(s, root, nodes).1.value| == |nodes|
    ensures ChordWalk(s, root, nodes).1.Ok? ==>
              forall i :: 0 <= i < |nodes| ==> ChordWalk(s, root, nodes).1.value[i] == NodeTone(s.primeLimit, root, nodes[i])
    decreases |nodes|
  {
    if nodes != [] {
      var s1 := ToNodeOf(s, root);
      ToNodeTone(s, root);
      FitSplit(nodes, |OddPrimesUpTo(s.primeLimit)|);
      var step := TraverseOf(s1, nodes[0]);
      if step.1 {
        NodeStep(s, root, nodes[0]);
        ChordWalkCorrect(step.0, root, nodes[1..]);
        var rest := ChordWalk(step.0, root, nodes[1..]);
        assert forall i :: 1 <= i < |nodes| ==> nodes[1..][i - 1] == nodes[i];
        WalkPrefix(s.primeLimit, root, nodes, step.0.tone, rest.1);
      }
    }
  }

  /** Every node fits exactly when the first does and the others do. */
  lemma FitSplit(nodes: seq<seq<int>>, n: int)
    requires nodes != []
    ensures (forall i :: 0 <= i < |nodes| ==> |nodes[i]| <= n) <==>
            |nodes[0]| <= n && forall i :: 0 <= i < |nodes[1..]| ==> |nodes[1..][i]| <= n
  {
    if |nodes[0]| <= n && forall i :: 0 <= i < |nodes[1..]| ==> |nodes[1..][i]| <= n {
      forall i | 1 <= i < |nodes|
        ensures |nodes[i]| <= n
      {
        assert nodes[i] == nodes[1..][i - 1];
      }
    }
  }

  lemma PrefixTwice(ts: seq<Interval>, t: Interval, r: Result<seq<Interval>>)
    ensures Prefix(ts, Prefix([t], r)) == Prefix(ts + [t], r)
  {
    if r.Ok? {
      assert ts + ([t] + r.value) == (ts + [t]) + r.value;
    }
  }

  /** One turn of the loop of tones, as the walk takes it: the walk of
      all nodes is the tones found so far in front of the walk of the nodes
      from i on. */
  lemma ChordWalkStep(s1: LatticeState, root: seq<int>, nodes: seq<seq<int>>, i: nat, found: seq<Interval>,
                      before: LatticeState, after: LatticeState)
    requires i < |nodes| && (after, true) == TraverseOf(ToNodeOf(before, root), nodes[i])
    requires ChordWalk(s1, root, nodes) ==
               (ChordWalk(before, root, nodes[i..]).0, Prefix(found, ChordWalk(before, root, nodes[i..]).1))
    ensures ChordWalk(s1, root, nodes) ==
              (ChordWalk(after, root, nodes[i + 1..]).0, Prefix(found + [after.tone], ChordWalk(after, root, nodes[i + 1..]).1))
  {
    var rest := nodes[i..];
    var w := ChordWalk(after, root, nodes[i + 1..]);
    assert ChordWalk(before, root, rest) == (w.0, Prefix([after.tone], w.1)) by {
      assert rest[0] == nodes[i] && rest[1..] == nodes[i + 1..];
    }
    PrefixTwice(found, after.tone, w.1);
  }

  /** The turn of the loop of tones at a node with too many axes. */
  lemma ChordWalkFails(s1: LatticeState, root: seq<int>, nodes: seq<seq<int>>, i: nat, found: seq<Interval>,
                       before: LatticeState, after: LatticeState)
    requires i < |nodes| && (after, false) == TraverseOf(ToNodeOf(before, root), nodes[i])
    requires ChordWalk(s1, root, nodes) ==
               (ChordWalk(before, root, nodes[i..]).0, Prefix(found, ChordWalk(before, root, nodes[i..]).1))
    ensures ChordWalk(s1, root, nodes) == (after, Err(AttributeError))
  {
    var rest := nodes[i..];
    assert rest[0] == nodes[i];
    assert ChordWalk(before, root, rest) == (after, Err(AttributeError));
  }

  /** The start of the loop of tones. */
  lemma ChordWalkStart(s1: LatticeState, root: seq<int>, nodes: seq<seq<int>>, tones: seq<Interval>)
    requires |tones| == 1
    ensures ChordWalk(s1, root, nodes) ==
              (ChordWalk(s1, root, nodes[0..]).0, Prefix(tones[1..], ChordWalk(s1, root, nodes[0..]).1))
  {
    assert nodes[0..] == nodes && tones[1..] == [];
    var r := ChordWalk(s1, root, nodes).1;
    if r.Ok? {
      assert [] + r.value == r.value;
    }
  }

  /** The end of the loop of tones. */
  lemma ChordWalkDone(s0: LatticeState, s1: LatticeState, root: seq<int>, nodes: seq<seq<int>>,
                      w: LatticeState, tones: seq<Interval>)
    requires s1 == ToNodeOf(s0, root) && |tones| >= 1 && tones[0] == s1.tone
    requires ChordWalk(s1, root, nodes) == (ChordWalk(w, root, nodes[|nodes|..]).0, Prefix(tones[1..], ChordWalk(w, root, nodes[|nodes|..]).1))
    ensures ChordTonesOf(s0, root, nodes) == (ToNodeOf(w, root), Ok(tones))
  {
    WalkEnd(s1, root, nodes, w, tones[1..]);
    TonesFromWalk(s0, root, nodes, w, tones[1..]);
    assert tones == [s1.tone] + tones[1..];
  }

  /** With no nodes left, the walk is the tones found so far. */
  lemma WalkEnd(s1: LatticeState, root: seq<int>, nodes: seq<seq<int>>, w: LatticeState, ts: seq<Interval>)
    requires ChordWalk(s1, root, nodes) == (ChordWalk(w, root, nodes[|nodes|..]).0, Prefix(ts, ChordWalk(w, root, nodes[|nodes|..]).1))
    ensures ChordWalk(s1, root, nodes) == (w, Ok(ts))
  {
    assert nodes[|nodes|..] == [];
    assert ChordWalk(w, root, []) == (w, Ok([]));
    assert ts + [] == ts;
  }

  /** The tones property from a walk that succeeded. */
  lemma TonesFromWalk(s0: LatticeState, root: seq<int>, nodes: seq<seq<int>>, w: LatticeState, ts: seq<Interval>)
    requires ChordWalk(ToNodeOf(s0, root), root, nodes) == (w, Ok(ts))
    ensures ChordTonesOf(s0, root, nodes) == (ToNodeOf(w, root), Ok([ToNodeOf(s0, root).tone] + ts))
  {
  }

  lemma TailAppend(ts: seq<Interval>, t: Interval)
    requires |ts| >= 1
    ensures (ts + [t])[1..] == ts[1..] + [t]
  {
  }

  /** The tones property: the root tone, then for each node to_node(root)
      and traverse(node), then to_node(root) once more. */
  function ChordTonesOf(s: LatticeState, root: seq<int>, nodes: seq<seq<int>>): (LatticeState, Result<seq<Interval>>)
  {
    var s1 := ToNodeOf(s, root);
    var w := ChordWalk(s1, root, nodes);
    match w.1
    case Err(e) => (w.0, Err(e))
    case Ok(ts) => (ToNodeOf(w.0, root), Ok([s1.tone] + ts))
  }

  /** The tones are the root tone, then the tone of each node read from the
      root, all in the octave, with the lattice left on the root. They raise
      AttributeError exactly when some node has more axes than the limit of
      the lattice has odd primes. */
  lemma ChordTonesCorrect(s: LatticeState, root: seq<int>, nodes: seq<seq<int>>)
    ensures var r := ChordTonesOf(s, root, nodes);
            r.0.primeLimit == s.primeLimit && InOctave(r.0.tone)
    ensures var r := ChordTonesOf(s, root, nodes);
            r.1.Ok? <==> forall i :: 0 <= i < |nodes| ==> |nodes[i]| <= |OddPrimesUpTo(s.primeLimit)|
    ensures var r := ChordTonesOf(s, root, nodes);
            r.1.Err? ==> r.1.error == AttributeError
    ensures var r := ChordTonesOf(s, root, nodes);
            r.1.Ok? ==> |r.1.value| == |nodes| + 1 && r.1.value[0] == RootTone(s.primeLimit, root)
    ensures var r := ChordTonesOf(s, root, nodes);
            r.1.Ok? ==> forall i :: 1 <= i <= |nodes| ==> r.1.value[i] == NodeTone(s.primeLimit, root, nodes[i - 1])
    ensures var r := ChordTonesOf(s, root, nodes);
            r.1.Ok? ==> AllValid(r.1.value) && forall i :: 0 <= i < |r.1.value| ==> InOctave(r.1.value[i])
    ensures var r := ChordTonesOf(s, root, nodes);
            r.1.Ok? ==> r.0.tone == RootTone(s.primeLimit, root)
    ensures var r := ChordTonesOf(s, root, nodes);
            r.1.Ok? && |root| <= |OddPrimesUpTo(s.primeLimit)| ==> r.0.node == root
  {
    var s1 := ToNodeOf(s, root);
    ToNodeTone(s, root);
    ChordWalkCorrect(s1, root, nodes);
    var w := ChordWalk(s1, root, nodes);
    if w.1.Ok? {
      ToNodeTone(w.0, root);
      TonesFromWalk(s, root, nodes, w.0, w.1.value);
      TonesOfWalk(s.primeLimit, root, nodes, s1.tone, w.1.value);
    }
  }

  /** The root tone in front of the tones of the nodes. */
  lemma TonesOfWalk(limit: int, root: seq<int>, nodes: seq<seq<int>>, t: Interval, ts: seq<Interval>)
    requires t == RootTone(limit, root) && |ts| == |nodes|
    requires forall i :: 0 <= i < |nodes| ==> |nodes[i]| <= |OddPrimesUpTo(limit)|
    requires forall i :: 0 <= i < |nodes| ==> ts[i] == NodeTone(limit, root, nodes[i])
    ensures var tones := [t] + ts;
      |tones| == |nodes| + 1 && tones[0] == t &&
      (forall i :: 1 <= i <= |nodes| ==> tones[i] == NodeTone(limit, root, nodes[i - 1])) &&
      AllValid(tones) && forall i :: 0 <= i < |tones| ==> InOctave(tones[i])
  {
    var tones := [t] + ts;
    forall i | 0 <= i < |tones|
      ensures InOctave(tones[i]) && tones[i].Valid()
      ensures i >= 1 ==> tones[i] == NodeTone(limit, root, nodes[i - 1])
    {
      if i >= 1 {
        assert tones[i] == ts[i - 1];
      }
    }
  }

  /** The tones depend on the root only through its tone: two roots with
      the same root tone, under the same prime limit, give the same tones. */
  lemma ChordTonesRootTone(s: LatticeState, s': LatticeState, root: seq<int>, root': seq<int>, nodes: seq<seq<int>>)
    requires s.primeLimit == s'.primeLimit && RootTone(s.primeLimit, root) == RootTone(s.primeLimit, root')
    ensures ChordTonesOf(s, root, nodes).1 == ChordTonesOf(s', root', nodes).1
  {
    ChordTonesCorrect(s, root, nodes);
    ChordTonesCorrect(s', root', nodes);
    var a, b := ChordTonesOf(s, root, nodes).1, ChordTonesOf(s', root', nodes).1;
    if a.Ok? {
      forall k | 1 <= k <= |nodes|
        ensures a.value[k] == b.value[k]
      {
        assert a.value[k] == NodeTone(s.primeLimit, root, nodes[k - 1]);
        assert b.value[k] == NodeTone(s.primeLimit, root', nodes[k - 1]);
      }
      assert a.value == b.value;
    }
  }

  /** The tones depend on the prime limit of the lattice and not on where
      the lattice stands, so reading them again gives the same tones. */
  lemma ChordTonesStateless(s: LatticeState, s': LatticeState, root: seq<int>, nodes: seq<seq<int>>)
    requires s.primeLimit == s'.primeLimit
    ensures ChordTonesOf(s, root, nodes).1 == ChordTonesOf(s', root, nodes).1
  {
    ChordTonesRootTone(s, s', root, root, nodes);
  }

  /** The major triad on [0, 0, 0], from any state of a 7-limit lattice:
      1/1, 5/4, 3/2. */
  lemma MajorTriadTones(s: LatticeState)
    requires s.primeLimit == 7
    ensures ChordTonesOf(s, [0, 0, 0], [[0, 1, 0], [1, 0, 0]]).1 == Ok([Unison, Interval(5, 4), Interval(3, 2)])
  {
    MajorTriadParts();
    TriadTones(s, [0, 0, 0], [[0, 1, 0], [1, 0, 0]]);
  }

  /** The tones of a chord of two nodes that fit the lattice: the root tone
      and the tone of each node. */
  lemma TriadTones(s: LatticeState, root: seq<int>, nodes: seq<seq<int>>)
    requires |nodes| == 2
    requires |nodes[0]| <= |OddPrimesUpTo(s.primeLimit)| && |nodes[1]| <= |OddPrimesUpTo(s.primeLimit)|
    ensures ChordTonesOf(s, root, nodes).1 ==
              Ok([RootTone(s.primeLimit, root), NodeTone(s.primeLimit, root, nodes[0]), NodeTone(s.primeLimit, root, nodes[1])])
  {
    var limit := s.primeLimit;
    assert forall i :: 0 <= i < |nodes| ==> |nodes[i]| <= |OddPrimesUpTo(limit)| by {
      forall i | 0 <= i < |nodes|
        ensures |nodes[i]| <= |OddPrimesUpTo(limit)|
      {
        assert i == 0 || i == 1;
      }
    }
    ChordTonesCorrect(s, root, nodes);
    var r := ChordTonesOf(s, root, nodes).1;
    assert |r.value| == 3 && r.value[0] == RootTone(limit, root);
    assert r.value[1] == NodeTone(s.primeLimit, root, nodes[0]);
    assert r.value[2] == NodeTone(s.primeLimit, root, nodes[1]);
    var tones := [RootTone(limit, root), NodeTone(limit, root, nodes[0]), NodeTone(limit, root, nodes[1])];
    assert r.value == tones;
    assert r == Ok(tones);
  }

  lemma MajorTriadParts()
    ensures |OddPrimesUpTo(7)| == 3
    ensures RootTone(7, [0, 0, 0]) == Unison
    ensures NodeTone(7, [0, 0, 0], [0, 1, 0]) == Interval(5, 4)
    ensures NodeTone(7, [0, 0, 0], [1, 0, 0]) == Interval(3, 2)
  {
    OddPrimesUpToSeven();
    PrimariesSeven();
    var prims := Primaries(7);
    assert RootTone(7, [0, 0, 0]) == Unison by {
      assert Zeros(3) == [0, 0, 0];
      WalkZeros(Unison, prims, 3);
      LessInOctave(Unison);
    }
    assert NodeTone(7, [0, 0, 0], [0, 1, 0]) == Interval(5, 4) by {
      WalkThree(Unison, prims, 0, 1, 0);
      StepOnce(Unison, Interval(5, 4));
      AddUnison(Interval(5, 4));
      LessInOctave(Interval(5, 4));
    }
    assert NodeTone(7, [0, 0, 0], [1, 0, 0]) == Interval(3, 2) by {
      WalkThree(Unison, prims, 1, 0, 0);
      StepOnce(Unison, Interval(3, 2));
      AddUnison(Interval(3, 2));
      LessInOctave(Interval(3, 2));
    }
  }

  /** The tones of a chord of four nodes that fit the lattice: the root
      tone and the tone of each node. */
  lemma TetradTones(s: LatticeState, root: seq<int>, nodes: seq<seq<int>>)
    requires |nodes| == 4
    requires forall i :: 0 <= i < 4 ==> |nodes[i]| <= |OddPrimesUpTo(s.primeLimit)|
    ensures ChordTonesOf(s, root, nodes).1 ==
              Ok([RootTone(s.primeLimit, root), NodeTone(s.primeLimit, root, nodes[0]), NodeTone(s.primeLimit, root, nodes[1]),
                  NodeTone(s.primeLimit, root, nodes[2]), NodeTone(s.primeLimit, root, nodes[3])])
  {
    var limit := s.primeLimit;
    ChordTonesCorrect(s, root, nodes);
    var r := ChordTonesOf(s, root, nodes).1;
    assert r.Ok? && |r.value| == 5;
    var v := r.value;
    assert forall i :: 1 <= i <= 4 ==> v[i] == NodeTone(limit, root, nodes[i - 1]);
    var tones := [RootTone(limit, root), v[1], v[2], v[3], v[4]];
    assert v == tones;
  }

  /** The tone of a node of three axes on the 7-limit lattice: the walk
      from the root tone along the axes 3/2, 5/4 and 7/4. */
  lemma NodeToneSeven(root: seq<int>, node: seq<int>)
    requires |node| == 3
    ensures |OddPrimesUpTo(7)| == 3 && |Primaries(7)| == 3
    ensures NodeTone(7, root, node) == BaseOctaveOf(Walk(RootTone(7, root), Primaries(7), node))
  {
    OddPrimesUpToSeven();
    PrimariesSeven();
  }

  /** A node of two axes takes the steps of the same node with a third
      axis of 0. */
  lemma NodeTonePadded(root: seq<int>, a: int, b: int)
    ensures |OddPrimesUpTo(7)| == 3 && NodeTone(7, root, [a, b]) == NodeTone(7, root, [a, b, 0])
  {
    OddPrimesUpToSeven();
    PrimariesSeven();
    assert Padded([a, b], 3) == [a, b, 0];
    WalkPadded(RootTone(7, root), Primaries(7), [a, b], 3);
  }

  /** The root [0, 0, 0] has the tone 1/1. */
  lemma UnisonRoot()
    ensures RootTone(7, [0, 0, 0]) == Unison
  {
    MajorTriadParts();
  }

  lemma MinorThirdWalk()
    ensures BaseOctaveOf(Walk(Unison, Primaries(7), [1, -1, 0])) == Interval(6, 5)
  {
    PrimariesSeven();
    MinorThirdWalkFactors();
    WalkSeven(Unison, 1, -1, 0, 12, 10, Interval(6, 5));
  }

  lemma MinorThirdWalkFactors()
    ensures Interval(6, 5).Valid()
    ensures SevenNum(1, -1, 0) == 12 && SevenDen(1, -1, 0) == 10
    ensures SameClass(12, 10, 6, 5)
  {
    assert Gcd(1, 0) == 1;
    assert Gcd(5, 1) == 1;
    assert Gcd(6, 5) == 1;
    assert IntPow(3, 1) == 3;
    assert IntPow(2, 1) == 2;
    assert IntPow(4, 1) == 4;
    assert IntPow(5, 1) == 5;
    assert Odd(5) == 5;
    assert Odd(3) == 3;
    assert Odd(6) == 3;
    assert Odd(10) == 5;
    assert Odd(12) == 3;
  }

  /** 3/2 less 5/4 above 1/1: the minor third 6/5. */
  lemma MinorThird()
    ensures |OddPrimesUpTo(7)| == 3 && NodeTone(7, [0, 0, 0], [1, -1, 0]) == Interval(6, 5)
  {
    UnisonRoot();
    MinorThirdWalk();
    NodeToneSeven([0, 0, 0], [1, -1, 0]);
  }

  /** The root [1, 0, 0] has the tone 3/2. */
  lemma FifthRoot()
    ensures RootTone(7, [1, 0, 0]) == Interval(3, 2)
  {
    OddPrimesUpToSeven();
    PrimariesSeven();
    FifthRootFactors();
    WalkSeven(Unison, 1, 0, 0, 3, 2, Interval(3, 2));
  }

  lemma FifthRootFactors()
    ensures Interval(3, 2).Valid()
    ensures SevenNum(1, 0, 0) == 3 && SevenDen(1, 0, 0) == 2
    ensures SameClass(3, 2, 3, 2)
  {
    assert Gcd(1, 0) == 1;
    assert Gcd(2, 1) == 1;
    assert Gcd(3, 2) == 1;
    assert IntPow(3, 1) == 3;
    assert IntPow(2, 1) == 2;
    assert Odd(1) == 1;
    assert Odd(2) == 1;
    assert Odd(3) == 3;
  }

  /** From the root 3/2, [1, -1, 0] is 9/5. */
  lemma FifthRootSeventh()
    ensures |OddPrimesUpTo(7)| == 3 && NodeTone(7, [1, 0, 0], [1, -1, 0]) == Interval(9, 5)
  {
    FifthRoot();
    NodeToneSeven([1, 0, 0], [1, -1, 0]);
    FifthRootSeventhFactors();
    WalkSeven(Interval(3, 2), 1, -1, 0, 36, 20, Interval(9, 5));
  }

  lemma FifthRootSeventhFactors()
    ensures Interval(9, 5).Valid()
    ensures SevenNum(1, -1, 0) == 12 && SevenDen(1, -1, 0) == 10
    ensures SameClass(36, 20, 9, 5)
  {
    assert Gcd(1, 0) == 1;
    assert Gcd(4, 1) == 1;
    assert Gcd(5, 4) == 1;
    assert Gcd(9, 5) == 1;
    assert IntPow(3, 1) == 3;
    assert IntPow(2, 1) == 2;
    assert IntPow(4, 1) == 4;
    assert IntPow(5, 1) == 5;
    assert Odd(5) == 5;
    assert Odd(9) == 9;
    assert Odd(10) == 5;
    assert Odd(20) == 5;
    assert Odd(18) == 9;
    assert Odd(36) == 9;
  }

  /** From the root 3/2, [1, 0, 0] is 9/8. */
  lemma FifthRootTone()
    ensures |OddPrimesUpTo(7)| == 3 && NodeTone(7, [1, 0, 0], [1, 0, 0]) == Interval(9, 8)
  {
    FifthRoot();
    NodeToneSeven([1, 0, 0], [1, 0, 0]);
    FifthRootToneFactors();
    WalkSeven(Interval(3, 2), 1, 0, 0, 9, 4, Interval(9, 8));
  }

  lemma FifthRootToneFactors()
    ensures Interval(9, 8).Valid()
    ensures SevenNum(1, 0, 0) == 3 && SevenDen(1, 0, 0) == 2
    ensures SameClass(9, 4, 9, 8)
  {
    assert Gcd(1, 0) == 1;
    assert Gcd(8, 1) == 1;
    assert Gcd(9, 8) == 1;
    assert IntPow(3, 1) == 3;
    assert IntPow(2, 1) == 2;
    assert Odd(1) == 1;
    assert Odd(2) == 1;
    assert Odd(4) == 1;
    assert Odd(8) == 1;
    assert Odd(9) == 9;
  }

  /** The minor triad on [0, 0, 0], from any state of a 7-limit lattice:
      1/1, 6/5, 3/2. */
  lemma MinorTriadTones(s: LatticeState)
    requires s.primeLimit == 7
    ensures ChordTonesOf(s, [0, 0, 0], [[1, -1, 0], [1, 0, 0]]).1 == Ok([Unison, Interval(6, 5), Interval(3, 2)])
  {
    MajorTriadParts();
    MinorThird();
    TriadTones(s, [0, 0, 0], [[1, -1, 0], [1, 0, 0]]);
  }

  /** The minor triad made by name, transposed to [1, 0, 0]: the same
      nodes on the new root, with the tones 3/2, 9/5, 9/8. */
  lemma TransposeExample()
    ensures ChordNodes("minor triad") == Some([[1, -1, 0], [1, 0, 0]])
    ensures var c := ChordState([0, 0, 0], [[1, -1, 0], [1, 0, 0]], Initial(7));
      var t := TransposeOf(c, [1, 0, 0]);
      t.Ok? && t.value.root == [1, 0, 0] && t.value.nodes == c.nodes &&
      ChordTonesOf(t.value.lattice, t.value.root, t.value.nodes).1 == Ok([Interval(3, 2), Interval(9, 5), Interval(9, 8)])
  {
    var c := ChordState([0, 0, 0], [[1, -1, 0], [1, 0, 0]], Initial(7));
    var t := TransposeOf(c, [1, 0, 0]);
    assert MaxLen(c.nodes) == Ok(3);
    assert Padded([1, 0, 0], 3) == [1, 0, 0];
    TransposeTones(c, [1, 0, 0]);
    FifthRoot();
    FifthRootSeventh();
    FifthRootTone();
    TriadTones(Initial(7), [1, 0, 0], c.nodes);
  }

  /** A fifth below 1/1: 4/3. */
  lemma FourthWalk()
    ensures BaseOctaveOf(Walk(Unison, Primaries(7), [-1, 0, 0])) == Interval(4, 3)
  {
    PrimariesSeven();
    FourthWalkFactors();
    WalkSeven(Unison, -1, 0, 0, 2, 3, Interval(4, 3));
  }

  lemma FourthWalkFactors()
    ensures Interval(4, 3).Valid()
    ensures SevenNum(-1, 0, 0) == 2 && SevenDen(-1, 0, 0) == 3
    ensures SameClass(2, 3, 4, 3)
  {
    assert Gcd(1, 0) == 1;
    assert Gcd(3, 1) == 1;
    assert Gcd(4, 3) == 1;
    assert IntPow(2, 1) == 2;
    assert IntPow(3, 1) == 3;
    assert Odd(1) == 1;
    assert Odd(2) == 1;
    assert Odd(3) == 3;
    assert Odd(4) == 1;
  }

  /** Two fifths below 1/1: 16/9. */
  lemma MinorSeventhWalk()
    ensures BaseOctaveOf(Walk(Unison, Primaries(7), [-2, 0, 0])) == Interval(16, 9)
  {
    PrimariesSeven();
    MinorSeventhWalkFactors();
    WalkSeven(Unison, -2, 0, 0, 4, 9, Interval(16, 9));
  }

  lemma MinorSeventhWalkFactors()
    ensures Interval(16, 9).Valid()
    ensures SevenNum(-2, 0, 0) == 4 && SevenDen(-2, 0, 0) == 9
    ensures SameClass(4, 9, 16, 9)
  {
    assert Gcd(1, 0) == 1;
    assert Gcd(2, 1) == 1;
    assert Gcd(7, 2) == 1;
    assert Gcd(9, 7) == 1;
    assert Gcd(16, 9) == 1;
    assert IntPow(2, 1) == 2;
    assert IntPow(2, 2) == 4;
    assert IntPow(3, 1) == 3;
    assert IntPow(3, 2) == 9;
    assert Odd(1) == 1;
    assert Odd(2) == 1;
    assert Odd(4) == 1;
    assert Odd(9) == 9;
    assert Odd(8) == 1;
    assert Odd(16) == 1;
  }

  /** A major third below 1/1: 8/5. */
  lemma MinorSixthWalk()
    ensures BaseOctaveOf(Walk(Unison, Primaries(7), [0, -1, 0])) == Interval(8, 5)
  {
    PrimariesSeven();
    MinorSixthWalkFactors();
    WalkSeven(Unison, 0, -1, 0, 4, 5, Interval(8, 5));
  }

  lemma MinorSixthWalkFactors()
    ensures Interval(8, 5).Valid()
    ensures SevenNum(0, -1, 0) == 4 && SevenDen(0, -1, 0) == 5
    ensures SameClass(4, 5, 8, 5)
  {
    assert Gcd(1, 0) == 1;
    assert Gcd(2, 1) == 1;
    assert Gcd(3, 2) == 1;
    assert Gcd(5, 3) == 1;
    assert Gcd(8, 5) == 1;
    assert IntPow(4, 1) == 4;
    assert IntPow(5, 1) == 5;
    assert Odd(1) == 1;
    assert Odd(2) == 1;
    assert Odd(4) == 1;
    assert Odd(5) == 5;
    assert Odd(8) == 1;
  }

  /** The node [-1, 0, 0] from the root [0, 0, 0] is 4/3. */
  lemma FourthBelow()
    ensures |OddPrimesUpTo(7)| == 3 && NodeTone(7, [0, 0, 0], [-1, 0, 0]) == Interval(4, 3)
  {
    UnisonRoot();
    FourthWalk();
    NodeToneSeven([0, 0, 0], [-1, 0, 0]);
  }

  /** The limits of a list: the limit of its head before those of its tail. */
  lemma LimitsCons(t: seq<Interval>, p: int, ps: seq<int>)
    requires AllValid(t) && t != [] && PrimeLimitOf(t[0]) == Ok(p)
    requires AllValid(t[1..]) && Scales.Limits(t[1..]) == Ok(ps)
    ensures Scales.Limits(t) == Ok([p] + ps)
  {
  }

  lemma LimitsOfThree(a: Interval, b: Interval, c: Interval, la: int, lb: int, lc: int)
    requires a.Valid() && b.Valid() && c.Valid()
    requires PrimeLimitOf(a) == Ok(la) && PrimeLimitOf(b) == Ok(lb) && PrimeLimitOf(c) == Ok(lc)
    ensures AllValid([a, b, c]) && Scales.Limits([a, b, c]) == Ok([la, lb, lc])
  {
    assert [a, b, c][1..] == [b, c] && [b, c][1..] == [c] && [c][1..] == [];
    LimitsCons([c], lc, []);
    assert [lc] + [] == [lc];
    LimitsCons([b, c], lb, [lc]);
    assert [lb] + [lc] == [lb, lc] && [la] + [lb, lc] == [la, lb, lc];
    LimitsCons([a, b, c], la, [lb, lc]);
  }

  /** The tones 1/1, 5/4, 3/2 have the prime limits 1, 5 and 3. */
  lemma MajorTriadToneLimits()
    ensures AllValid([Unison, Interval(5, 4), Interval(3, 2)])
    ensures Scales.Limits([Unison, Interval(5, 4), Interval(3, 2)]) == Ok([1, 5, 3])
  {
    LessInOctave(Unison);
    Scales.LimitOfFiveFourths();
    Scales.SmallFactorizations();
    Scales.LimitOf(Interval(3, 2), [3], [2], 3);
    assert PrimeLimitOf(Unison) == Ok(1);
    LimitsOfThree(Unison, Interval(5, 4), Interval(3, 2), 1, 5, 3);
  }

  /** The prime limit of the major triad is 5. */
  lemma MajorTriadLimit(s: LatticeState)
    requires s.primeLimit == 7
    ensures ChordLimitOf(s, [0, 0, 0], [[0, 1, 0], [1, 0, 0]]) == Ok(5)
  {
    var tones := [Unison, Interval(5, 4), Interval(3, 2)];
    MajorTriadTones(s);
    ChordLimitValue(s, [0, 0, 0], [[0, 1, 0], [1, 0, 0]], tones);
    MajorTriadToneLimits();
    assert MaxOf([1, 5, 3]) == 5 by {
      assert [1, 5, 3][1..] == [5, 3] && [5, 3][1..] == [3];
    }
    assert ChordPrimeLimitOf(tones) == Ok(5);
  }

  /** Under the limit 5 the 3-axis is the first: pivoting the major
      triad on it negates the first component of each node. */
  lemma MajorTriadPivotNodes()
    ensures PivotOf(5, [[0, 1, 0], [1, 0, 0]], 3) == Ok([[0, 1, 0], [-1, 0, 0]])
  {
    OddPrimesUpToFive();
    assert IndexOf([3, 5], 3) == Some(0);
    var r := PivotNodes([[0, 1, 0], [1, 0, 0]], 0);
    assert r[0] == [0, 1, 0][0 := 0] == [0, 1, 0];
    assert r[1] == [1, 0, 0][0 := -1] == [-1, 0, 0];
    assert r == [[0, 1, 0], [-1, 0, 0]];
  }

  /** The pivoted major triad, read from any state of a 7-limit lattice:
      1/1, 5/4, 4/3. */
  lemma PivotedTones(s: LatticeState)
    requires s.primeLimit == 7
    ensures ChordTonesOf(s, [0, 0, 0], [[0, 1, 0], [-1, 0, 0]]).1 == Ok([Unison, Interval(5, 4), Interval(4, 3)])
  {
    MajorTriadParts();
    FourthBelow();
    TriadTones(s, [0, 0, 0], [[0, 1, 0], [-1, 0, 0]]);
  }

  /** The major triad pivoted on the 3-axis: its prime limit is 5, the
      3-component of each node changes sign, and the tones become 1/1, 5/4,
      4/3. */
  lemma PivotExample(s: LatticeState)
    requires s.primeLimit == 7
    ensures var c := ChordState([0, 0, 0], [[0, 1, 0], [1, 0, 0]], s);
      var p := PivotChordOf(c, 3).1;
      p.Ok? && p.value.root == [0, 0, 0] && p.value.nodes == [[0, 1, 0], [-1, 0, 0]] &&
      ChordTonesOf(p.value.lattice, p.value.root, p.value.nodes).1 == Ok([Unison, Interval(5, 4), Interval(4, 3)])
  {
    var c := ChordState([0, 0, 0], [[0, 1, 0], [1, 0, 0]], s);
    MajorTriadLimit(s);
    MajorTriadPivotNodes();
    PivotChordUnfold(c, 3, 5);
    var first := ChordTonesOf(s, c.root, c.nodes).0;
    ChordTonesCorrect(s, c.root, c.nodes);
    ChordTonesCorrect(first, c.root, c.nodes);
    var l := ChordTonesOf(first, c.root, c.nodes).0;
    assert PivotChordOf(c, 3).1 == Ok(ChordState([0, 0, 0], [[0, 1, 0], [-1, 0, 0]], l));
    PivotedTones(l);
  }

  /** The harmonics of the minor triad on [0, 0, 0]: 10, 12, 15. */
  lemma MinorHarmonics(s: LatticeState)
    requires s.primeLimit == 7
    ensures ChordSegmentOf(s, [0, 0, 0], [[1, -1, 0], [1, 0, 0]]) == Ok([10, 12, 15])
  {
    MinorTriadTones(s);
    SegmentExampleMinor();
  }

  /** The complement of the chord [2, 0], [0, 1], [-1, 0], [1, 0] on
      [0, 0, 0]: the nodes [-2, 0], [0, -1], [1, 0], [-1, 0] on a new
      lattice, with the tones 1/1, 16/9, 8/5, 3/2, 4/3. */
  lemma ComplementChordExample(s: LatticeState)
    ensures var c := ComplementChordOf(ChordState([0, 0, 0], [[2, 0], [0, 1], [-1, 0], [1, 0]], s));
      c.root == [0, 0, 0] && c.nodes == [[-2, 0], [0, -1], [1, 0], [-1, 0]] &&
      ChordTonesOf(c.lattice, c.root, c.nodes).1 ==
        Ok([Unison, Interval(16, 9), Interval(8, 5), Interval(3, 2), Interval(4, 3)])
  {
    var c := ComplementChordOf(ChordState([0, 0, 0], [[2, 0], [0, 1], [-1, 0], [1, 0]], s));
    ComplementExample();
    ComplementTones();
    TetradTones(Initial(7), [0, 0, 0], [[-2, 0], [0, -1], [1, 0], [-1, 0]]);
  }

  /** The tones of the nodes of the complement. */
  lemma ComplementTones()
    ensures |OddPrimesUpTo(7)| == 3 && RootTone(7, [0, 0, 0]) == Unison
    ensures NodeTone(7, [0, 0, 0], [-2, 0]) == Interval(16, 9) && NodeTone(7, [0, 0, 0], [0, -1]) == Interval(8, 5)
    ensures NodeTone(7, [0, 0, 0], [1, 0]) == Interval(3, 2) && NodeTone(7, [0, 0, 0], [-1, 0]) == Interval(4, 3)
  {
    UnisonRoot();
    NodeTonePadded([0, 0, 0], -2, 0);
    NodeTonePadded([0, 0, 0], 0, -1);
    NodeTonePadded([0, 0, 0], 1, 0);
    NodeTonePadded([0, 0, 0], -1, 0);
    MinorSeventhWalk();
    NodeToneSeven([0, 0, 0], [-2, 0, 0]);
    MinorSixthWalk();
    NodeToneSeven([0, 0, 0], [0, -1, 0]);
    MajorTriadParts();
    FourthBelow();
  }

  // The prime limit.

  /** A ratio is a product of primes, so a whole number from 2 up has at
      least one prime factor. */
  lemma FactorsOf(n: int)
    requires n >= 2
    ensures Factorization(n) != [] && MaxOf(Factorization(n)) >= 2
  {
    FactorizationCorrect(n);
  }

  /** Every tone in the octave has a prime limit, at least 1. */
  lemma InOctaveLimit(t: Interval)
    requires InOctave(t)
    ensures PrimeLimitOf(t).Ok? && PrimeLimitOf(t).value >= 1
  {
    if BaseOctaveOf(t) != Unison {
      LessInOctave(t);
      assert t.den >= 2;
      FactorsOf(t.num);
      FactorsOf(t.den);
    }
  }

  /** max([tone.prime_limit for tone in tones]): the first tone without a
      prime limit fails the list; max() of no tones raises ValueError. */
  function ChordPrimeLimitOf(tones: seq<Interval>): (r: Result<int>)
    requires AllValid(tones)
    ensures tones == [] ==> r == Err(ValueError)
    ensures r.Err? && tones != [] ==> exists i :: 0 <= i < |tones| && PrimeLimitOf(tones[i]) == Err(r.error)
    ensures r.Ok? ==> exists i :: 0 <= i < |tones| && PrimeLimitOf(tones[i]) == Ok(r.value)
    ensures r.Ok? ==> forall i :: 0 <= i < |tones| ==> PrimeLimitOf(tones[i]).Ok? && PrimeLimitOf(tones[i]).value <= r.value
  {
    match Scales.Limits(tones)
    case Err(e) => Err(e)
    case Ok(ls) =>
      if ls == [] then Err(ValueError)
      else
        assert forall i :: 0 <= i < |tones| ==> PrimeLimitOf(tones[i]) == Ok(ls[i]);
        Ok(MaxOf(ls))
  }

  /** Tones in the octave always have a greatest prime limit. */
  lemma {:induction false} InOctaveLimits(tones: seq<Interval>)
    requires AllValid(tones) && tones != [] && forall i :: 0 <= i < |tones| ==> InOctave(tones[i])
    ensures ChordPrimeLimitOf(tones).Ok? && ChordPrimeLimitOf(tones).value >= 1
  {
    forall i | 0 <= i < |tones|
      ensures PrimeLimitOf(tones[i]).Ok? && PrimeLimitOf(tones[i]).value >= 1
    {
      InOctaveLimit(tones[i]);
    }
  }

  /** The prime_limit property: it fails exactly when tones does, with its
      AttributeError, and is otherwise the greatest limit of the tones. */
  function ChordLimitOf(s: LatticeState, root: seq<int>, nodes: seq<seq<int>>): Result<int>
  {
    ChordTonesCorrect(s, root, nodes);
    match ChordTonesOf(s, root, nodes).1
    case Err(e) => Err(e)
    case Ok(ts) => ChordPrimeLimitOf(ts)
  }

  /** The prime limit is found exactly when the tones are, and is then at
      least 1; otherwise the error is that of the tones. */
  lemma ChordLimitCorrect(s: LatticeState, root: seq<int>, nodes: seq<seq<int>>)
    ensures ChordLimitOf(s, root, nodes).Ok? <==> ChordTonesOf(s, root, nodes).1.Ok?
    ensures ChordLimitOf(s, root, nodes).Err? ==> ChordLimitOf(s, root, nodes).error == AttributeError
    ensures ChordLimitOf(s, root, nodes).Ok? ==> ChordLimitOf(s, root, nodes).value >= 1
  {
    ChordTonesCorrect(s, root, nodes);
    match ChordTonesOf(s, root, nodes).1
    case Err(e) =>
    case Ok(ts) => InOctaveLimits(ts);
  }

  /** The prime limit of the chord is the greatest prime limit of its
      tones. */
  lemma ChordLimitValue(s: LatticeState, root: seq<int>, nodes: seq<seq<int>>, tones: seq<Interval>)
    requires ChordTonesOf(s, root, nodes).1 == Ok(tones)
    ensures AllValid(tones) && ChordLimitOf(s, root, nodes) == ChordPrimeLimitOf(tones) && ChordLimitOf(s, root, nodes).Ok?
    ensures exists i :: 0 <= i < |tones| && PrimeLimitOf(tones[i]) == ChordLimitOf(s, root, nodes)
    ensures forall i :: 0 <= i < |tones| ==> PrimeLimitOf(tones[i]).value <= ChordLimitOf(s, root, nodes).value
  {
    ChordTonesCorrect(s, root, nodes);
    ChordLimitCorrect(s, root, nodes);
  }

  lemma ChordLimitStateless(s: LatticeState, s': LatticeState, root: seq<int>, nodes: seq<seq<int>>)
    requires s.primeLimit == s'.primeLimit
    ensures ChordLimitOf(s, root, nodes) == ChordLimitOf(s', root, nodes)
  {
    ChordTonesStateless(s, s', root, nodes);
  }

  // Harmonics, identities and the ratios of hertz.

  /** The harmonics property: the harmonic segment of the tones. */
  function ChordSegmentOf(s: LatticeState, root: seq<int>, nodes: seq<seq<int>>): (r: Result<seq<int>>)
    ensures r.Ok? <==> ChordTonesOf(s, root, nodes).1.Ok?
    ensures r.Err? ==> r.error == AttributeError
    ensures r.Ok? ==> |r.value| == |nodes| + 1
  {
    ChordTonesCorrect(s, root, nodes);
    match ChordTonesOf(s, root, nodes).1
    case Err(e) => Err(e)
    case Ok(ts) =>
      SegmentTotal(ts, false);
      SegmentOf(ts, false)
  }

  /** The tones of hertz before they are multiplied by the fundamental. */
  function ChordRaisedOf(s: LatticeState, root: seq<int>, nodes: seq<seq<int>>): (r: Result<seq<Interval>>)
    ensures r.Ok? <==> ChordTonesOf(s, root, nodes).1.Ok?
    ensures r.Err? ==> r.error == AttributeError
    ensures r.Ok? ==> |r.value| == |nodes| + 1 && Sorted(r.value) && r.value[0] == RootTone(s.primeLimit, root)
  {
    ChordTonesCorrect(s, root, nodes);
    match ChordTonesOf(s, root, nodes).1
    case Err(e) => Err(e)
    case Ok(ts) =>
      RaisedCorrect(ts);
      Ok(Raised(ts))
  }

  // Chords as values.

  /** The fields of a JustLatticeChord, as a value. */
  datatype ChordState = ChordState(root: seq<int>, nodes: seq<seq<int>>, lattice: LatticeState)

  /** transpose(node), on a copy: the root setter pads node with zeros to
      the longest node (max() of no nodes raises ValueError), then the
      lattice goes to node itself, unpadded. */
  function TransposeOf(c: ChordState, node: seq<int>): (r: Result<ChordState>)
    ensures r.Ok? <==> c.nodes != []
    ensures r.Err? ==> r.error == ValueError
    ensures r.Ok? ==> r.value.nodes == c.nodes && r.value.lattice == ToNodeOf(c.lattice, node)
    ensures r.Ok? ==> r.value.root == Padded(node, MaxLen(c.nodes).value)
  {
    match MaxLen(c.nodes)
    case Err(e) => Err(e)
    case Ok(m) => Ok(ChordState(Padded(node, m), c.nodes, ToNodeOf(c.lattice, node)))
  }

  /** Trailing zeros take no steps. */
  lemma {:induction false} WalkPadded(t: Interval, prims: seq<Interval>, v: seq<int>, n: int)
    requires t.Valid() && AllValid(prims) && |Padded(v, n)| <= |prims|
    ensures Walk(t, prims, Padded(v, n)) == Walk(t, prims, v)
    decreases n
  {
    if n > |v| {
      var p := Padded(v, n);
      var q := Padded(v, n - 1);
      assert p[..|p| - 1] == q;
      assert p[|p| - 1] == 0;
      WalkPadded(t, prims, v, n - 1);
    } else {
      assert Padded(v, n) == v;
    }
  }

  /** A root padded with zeros up to a length the lattice has has the same
      root tone. */
  lemma RootTonePadded(limit: int, node: seq<int>, m: int)
    requires m <= |OddPrimesUpTo(limit)|
    ensures RootTone(limit, Padded(node, m)) == RootTone(limit, node)
  {
    if |node| <= |Primaries(limit)| {
      WalkPadded(Unison, Primaries(limit), node, m);
    }
  }

  /** The transposed chord has the tones of the same nodes read from the
      new root. */
  lemma TransposeTones(c: ChordState, node: seq<int>)
    requires c.nodes != []
    ensures ChordTonesOf(TransposeOf(c, node).value.lattice, TransposeOf(c, node).value.root, c.nodes).1 ==
            ChordTonesOf(c.lattice, node, c.nodes).1
  {
    var t := TransposeOf(c, node).value;
    var limit := c.lattice.primeLimit;
    ToNodeTone(c.lattice, node);
    ChordTonesCorrect(t.lattice, t.root, c.nodes);
    ChordTonesCorrect(c.lattice, node, c.nodes);
    if forall i :: 0 <= i < |c.nodes| ==> |c.nodes[i]| <= |OddPrimesUpTo(limit)| {
      var m := MaxLen(c.nodes).value;
      var i :| 0 <= i < |c.nodes| && |c.nodes[i]| == m;
      RootTonePadded(limit, node, m);
      ChordTonesRootTone(t.lattice, c.lattice, t.root, node, c.nodes);
    }
  }

  /** pivot(axis): self.prime_limit (which reads the tones of the chord,
      moving its lattice), the check of the axis against it, then on a copy
      the prime limit once more and the negation of the axis in every node.
      The first component is the chord afterwards, the second the copy. */
  function PivotChordOf(c: ChordState, axis: int): (r: (ChordState, Result<ChordState>))
    ensures r.0 == c.(lattice := ChordTonesOf(c.lattice, c.root, c.nodes).0)
    ensures ChordLimitOf(c.lattice, c.root, c.nodes).Err? ==> r.1 == Err(AttributeError)
  {
    ChordLimitCorrect(c.lattice, c.root, c.nodes);
    var first := ChordTonesOf(c.lattice, c.root, c.nodes).0;
    match ChordLimitOf(c.lattice, c.root, c.nodes)
    case Err(e) => (c.(lattice := first), Err(e))
    case Ok(l) =>
      match PivotOf(l, c.nodes, axis)
      case Err(e) => (c.(lattice := first), Err(e))
      case Ok(ns) => (c.(lattice := first), Ok(ChordState(c.root, ns, ChordTonesOf(first, c.root, c.nodes).0)))
  }

  /** With the prime limit l of the chord, the pivot succeeds exactly when
      pivoting its nodes under l does (PivotCorrect says when that is); the
      pivoted chord has the same root and the nodes negated on the axis. */
  lemma PivotChordCorrect(c: ChordState, axis: int, l: int)
    requires ChordLimitOf(c.lattice, c.root, c.nodes) == Ok(l)
    ensures PivotChordOf(c, axis).1.Ok? <==> PivotOf(l, c.nodes, axis).Ok?
    ensures PivotChordOf(c, axis).1.Err? ==> PivotChordOf(c, axis).1.error == PivotOf(l, c.nodes, axis).error
    ensures PivotChordOf(c, axis).1.Ok? ==>
              PivotChordOf(c, axis).1.value.root == c.root &&
              PivotChordOf(c, axis).1.value.nodes == PivotOf(l, c.nodes, axis).value
  {
    PivotChordUnfold(c, axis, l);
  }

  lemma PivotChordUnfold(c: ChordState, axis: int, l: int)
    requires ChordLimitOf(c.lattice, c.root, c.nodes) == Ok(l)
    ensures PivotChordOf(c, axis).1 ==
      match PivotOf(l, c.nodes, axis)
      case Err(e) => Err(e)
      case Ok(ns) => Ok(ChordState(c.root, ns, ChordTonesOf(ChordTonesOf(c.lattice, c.root, c.nodes).0, c.root, c.nodes).0))
  {
  }

  /** The complement property: a new chord on the same root whose nodes
      are the root less each node, on a new lattice. */
  function ComplementChordOf(c: ChordState): (r: ChordState)
    ensures r.root == c.root && r.lattice == Initial(7) && |r.nodes| == |c.nodes|
    ensures forall i :: 0 <= i < |c.nodes| ==> r.nodes[i] == ComplementNode(c.root, c.nodes[i])
  {
    ChordState(c.root, ComplementNodes(c.root, c.nodes), Initial(7))
  }

  /** The complement of the complement is the chord again, on a new
      lattice, when every node is as long as the root. */
  lemma ComplementChordInvolutive(c: ChordState)
    requires forall i :: 0 <= i < |c.nodes| ==> |c.nodes[i]| == |c.root|
    ensures ComplementChordOf(ComplementChordOf(c)) == c.(lattice := Initial(7))
  {
    ComplementInvolutive(c.root, c.nodes);
  }

  /** A JustLatticeChord: a root node, the nodes of the other tones, and
      the lattice the tones are read from. The fundamental in Hertz is a
      float and is not part of the model. */
  class JustLatticeChord {
    var root: seq<int>
    var nodes: seq<seq<int>>
    const lattice: JustLattice

    function State(): ChordState
      reads this, lattice
    {
      ChordState(root, nodes, lattice.State())
    }

    predicate Valid()
      reads this, lattice
    {
      lattice.Valid()
    }

    /** JustLatticeChord(fundamental, root, nodes): the nodes as given, on a
        new lattice of the default prime limit 7. */
    constructor (root: seq<int>, nodes: seq<seq<int>>)
      ensures fresh(lattice) && Valid()
      ensures State() == ChordState(root, nodes, Initial(7))
    {
      this.root := root;
      this.nodes := nodes;
      lattice := new JustLattice(7);
    }

    /** from_name: the nodes of the name in lower case, or NotImplemented
        (None) for a name not in the table. */
    static method FromName(root: seq<int>, name: string) returns (r: Option<JustLatticeChord>)
      ensures r.Some? <==> ChordNodes(Lower(name)).Some?
      ensures r.Some? ==> fresh(r.value) && fresh(r.value.lattice) && r.value.Valid()
      ensures r.Some? ==> r.value.State() == ChordState(root, ChordNodes(Lower(name)).value, Initial(7))
    {
      var key := Lower(name);
      match ChordNodes(key)
      case None =>
        return None;
      case Some(ns) =>
        var chord := new JustLatticeChord(root, ns);
        return Some(chord);
    }

    /** deepcopy: a new chord and a new lattice with the same fields. */
    method Copy() returns (c: JustLatticeChord)
      ensures fresh(c) && fresh(c.lattice)
      ensures c.State() == State() && (Valid() ==> c.Valid())
    {
      c := new JustLatticeChord(root, nodes);
      c.lattice.primeLimit := lattice.primeLimit;
      c.lattice.tone := lattice.tone;
      c.lattice.node := lattice.node;
      c.lattice.path := lattice.path;
    }

    /** The tones property; it moves the lattice. */
    method Tones() returns (r: Result<seq<Interval>>)
      requires Valid()
      modifies lattice
      ensures Valid()
      ensures (lattice.State(), r) == ChordTonesOf(old(lattice.State()), root, nodes)
    {
      ghost var s0 := lattice.State();
      lattice.ToNode(root);
      ghost var s1 := lattice.State();
      var tones := [lattice.tone];
      var i := 0;
      ChordWalkStart(s1, root, nodes, tones);
      while i < |nodes|
        invariant 0 <= i <= |nodes| && Valid()
        invariant |tones| >= 1 && tones[0] == s1.tone
        invariant ChordWalk(s1, root, nodes) ==
                    (ChordWalk(lattice.State(), root, nodes[i..]).0,
                     Prefix(tones[1..], ChordWalk(lattice.State(), root, nodes[i..]).1))
      {
        ghost var before := lattice.State();
        lattice.ToNode(root);
        var implemented := lattice.Traverse(nodes[i]);
        if !implemented {
          ChordWalkFails(s1, root, nodes, i, tones[1..], before, lattice.State());
          return Err(AttributeError);
        }
        ChordWalkStep(s1, root, nodes, i, tones[1..], before, lattice.State());
        TailAppend(tones, lattice.tone);
        tones := tones + [lattice.tone];
        i := i + 1;
      }
      ChordWalkDone(s0, s1, root, nodes, lattice.State(), tones);
      lattice.ToNode(root);
      return Ok(tones);
    }

    /** The prime_limit property: the greatest prime limit of the tones. */
    method PrimeLimit() returns (r: Result<int>)
      requires Valid()
      modifies lattice
      ensures Valid()
      ensures lattice.State() == ChordTonesOf(old(lattice.State()), root, nodes).0
      ensures r == ChordLimitOf(old(lattice.State()), root, nodes)
    {
      var tones := Tones();
      match tones
      case Err(e) =>
        return Err(e);
      case Ok(ts) =>
        ChordLimitValue(old(lattice.State()), root, nodes, ts);
        return ChordPrimeLimitOf(ts);
    }

    /** The harmonics property: the harmonic segment of the tones. */
    method Harmonics() returns (r: Result<seq<int>>)
      requires Valid()
      modifies lattice
      ensures Valid()
      ensures lattice.State() == ChordTonesOf(old(lattice.State()), root, nodes).0
      ensures r == ChordSegmentOf(old(lattice.State()), root, nodes)
    {
      var tones := Tones();
      match tones
      case Err(e) =>
        return Err(e);
      case Ok(ts) =>
        ChordTonesCorrect(old(lattice.State()), root, nodes);
        r := TonesToHarmonicSegment(ts, false);
    }

    /** The identities property: the identity of each harmonic. */
    method Identities() returns (r: Result<seq<int>>)
      requires Valid()
      modifies lattice
      ensures Valid()
      ensures lattice.State() == ChordTonesOf(old(lattice.State()), root, nodes).0
      ensures r.Ok? <==> ChordSegmentOf(old(lattice.State()), root, nodes).Ok?
      ensures r.Ok? ==> r.value == Series.Identities(ChordSegmentOf(old(lattice.State()), root, nodes).value)
    {
      var segment := Harmonics();
      match segment
      case Err(e) =>
        return Err(e);
      case Ok(h) =>
        return Ok(Series.Identities(h));
    }

    /** The hertz property without the fundamental: tones is read twice (for
        the first tone and for the rest), then each later tone goes up by
        octaves until it is not below the one before. */
    method Hertz() returns (r: Result<seq<Interval>>)
      requires Valid()
      modifies lattice
      ensures Valid()
      ensures r == ChordRaisedOf(old(lattice.State()), root, nodes)
      ensures var first := ChordTonesOf(old(lattice.State()), root, nodes);
        lattice.State() == if first.1.Ok? then ChordTonesOf(first.0, root, nodes).0 else first.0
    {
      ghost var s0 := lattice.State();
      var first := Tones();
      if first.Err? {
        return Err(first.error);
      }
      var again := Tones();
      ChordTonesCorrect(s0, root, nodes);
      ChordTonesStateless(s0, ChordTonesOf(s0, root, nodes).0, root, nodes);
      var tones := [first.value[0]] + again.value[1..];
      assert tones == first.value;
      var raised := RaiseOctaves(tones);
      r := Ok(raised);
    }
  
    /** The root setter: value padded with zeros to the longest node; max()
        of no nodes raises ValueError and the root stays. */
    method SetRoot(value: seq<int>) returns (r: Result<()>)
      modifies this
      ensures nodes == old(nodes)
      ensures r.Ok? <==> nodes != []
      ensures r.Err? ==> r.error == ValueError && root == old(root)
      ensures r.Ok? ==> root == Padded(value, MaxLen(nodes).value)
    {
      var maxLen := MaxLen(nodes);
      if maxLen.Err? {
        return Err(maxLen.error);
      }
      root := value + Zeros(if maxLen.value > |value| then maxLen.value - |value| else 0);
      return Ok(());
    }

    /** The nodes setter: every value padded with zeros to the longest;
        max() of no values raises ValueError and the nodes stay. */
    method SetNodes(values: seq<seq<int>>) returns (r: Result<()>)
      modifies this
      ensures root == old(root)
      ensures r.Ok? <==> values != []
      ensures r.Err? ==> r.error == ValueError && nodes == old(nodes)
      ensures r.Ok? ==> nodes == PadAll(values, MaxLen(values).value)
    {
      var maxLen := MaxLen(values);
      if maxLen.Err? {
        return Err(maxLen.error);
      }
      var m := maxLen.value;
      nodes := [];
      var i := 0;
      while i < |values|
        invariant 0 <= i <= |values| && root == old(root)
        invariant nodes == PadAll(values[..i], m)
      {
        assert values[..i + 1][..i] == values[..i];
        nodes := nodes + [values[i] + Zeros(if m > |values[i]| then m - |values[i]| else 0)];
        i := i + 1;
      }
      assert values[..i] == values;
      return Ok(());
    }

    /** transpose(node): a copy with its root set to node and its lattice
        moved to node; the chord itself does not change. */
    method Transpose(node: seq<int>) returns (r: Result<JustLatticeChord>)
      requires Valid()
      ensures r.Ok? <==> TransposeOf(State(), node).Ok?
      ensures r.Err? ==> r.error == TransposeOf(State(), node).error
      ensures r.Ok? ==> fresh(r.value) && fresh(r.value.lattice) && r.value.Valid()
      ensures r.Ok? ==> r.value.State() == TransposeOf(State(), node).value
    {
      var chord := Copy();
      var setRoot := chord.SetRoot(node);
      if setRoot.Err? {
        return Err(setRoot.error);
      }
      chord.lattice.ToNode(node);
      return Ok(chord);
    }

    /** The loop of pivot: component ix of every node negated, one node
        after the other. */
    method NegateAxis(ix: nat)
      requires forall i :: 0 <= i < |nodes| ==> ix < |nodes[i]|
      modifies this
      ensures root == old(root) && nodes == PivotNodes(old(nodes), ix)
    {
      ghost var ns := nodes;
      var i := 0;
      while i < |nodes|
        invariant 0 <= i <= |nodes| && |nodes| == |ns| && root == old(root)
        invariant forall k :: 0 <= k < i ==> nodes[k] == ns[k][ix := -ns[k][ix]]
        invariant forall k :: i <= k < |ns| ==> nodes[k] == ns[k]
      {
        var node := nodes[i];
        node := node[ix := 0 - node[ix]];
        nodes := nodes[i := node];
        i := i + 1;
      }
    }

    /** The look-ups of pivot on the copy: the position of the axis among
        the odd primes up to l (ValueError when absent), then ValueError for
        no nodes and IndexError for a node without that position. */
    static method PivotIndex(l: int, nodes: seq<seq<int>>, axis: int) returns (r: Result<nat>)
      requires axis <= l
      ensures r.Ok? <==> PivotOf(l, nodes, axis).Ok?
      ensures r.Err? ==> r.error == PivotOf(l, nodes, axis).error
      ensures r.Ok? ==> forall i :: 0 <= i < |nodes| ==> r.value < |nodes[i]|
      ensures r.Ok? ==> PivotOf(l, nodes, axis).value == PivotNodes(nodes, r.value)
    {
      var index := IndexOf(OddPrimesUpTo(l), axis);
      if index.None? {
        return Err(ValueError);
      }
      var ix := index.value;
      if nodes == [] {
        return Err(ValueError);
      }
      if exists i :: 0 <= i < |nodes| && |nodes[i]| <= ix {
        return Err(IndexError);
      }
      return Ok(ix);
    }

    /** deepcopy followed by the prime limit of the copy, which moves the
        copy's lattice as self.prime_limit moves this one's. */
    method CopyWithLimit(ghost s: ChordState) returns (c: JustLatticeChord, limit: Result<int>)
      requires Valid() && State() == s
      ensures fresh(c) && fresh(c.lattice) && c.Valid()
      ensures c.State() == s.(lattice := ChordTonesOf(s.lattice, s.root, s.nodes).0)
      ensures limit == ChordLimitOf(s.lattice, s.root, s.nodes)
    {
      c := Copy();
      limit := c.PrimeLimit();
    }

    /** The part of pivot after the prime limit l has been read and the
        axis checked against it: a copy whose own prime limit is read again
        (moving the copy's lattice) and whose nodes are negated on the axis
        in place. The chord itself does not change. */
    method PivotWith(ghost c: ChordState, l: int, axis: int) returns (r: Result<JustLatticeChord>)
      requires Valid() && State() == c && ChordLimitOf(c.lattice, c.root, c.nodes) == Ok(l) && axis <= l
      ensures r.Ok? <==> PivotOf(l, c.nodes, axis).Ok?
      ensures r.Err? ==> r.error == PivotOf(l, c.nodes, axis).error
      ensures r.Ok? ==> fresh(r.value) && fresh(r.value.lattice) && r.value.Valid()
      ensures r.Ok? ==> r.value.root == c.root && r.value.nodes == PivotOf(l, c.nodes, axis).value
      ensures r.Ok? ==> r.value.lattice.State() == ChordTonesOf(c.lattice, c.root, c.nodes).0
    {
      var chord, copyLimit := CopyWithLimit(c);
      assert copyLimit == Ok(l) && chord.nodes == c.nodes;
      var index := PivotIndex(copyLimit.value, chord.nodes, axis);
      if index.Err? {
        return Err(index.error);
      }
      ghost var moved := chord.lattice.State();
      chord.NegateAxis(index.value);
      assert chord.lattice.State() == moved;
      return Ok(chord);
    }

    /** pivot(axis): the prime limit of the chord (which moves its lattice),
        then PivotWith on it. */
    method Pivot(axis: int) returns (r: Result<JustLatticeChord>)
      requires Valid()
      modifies lattice
      ensures Valid()
      ensures State() == PivotChordOf(old(State()), axis).0
      ensures r.Ok? <==> PivotChordOf(old(State()), axis).1.Ok?
      ensures r.Err? ==> r.error == PivotChordOf(old(State()), axis).1.error
      ensures r.Ok? ==> fresh(r.value) && fresh(r.value.lattice) && r.value.Valid()
      ensures r.Ok? ==> r.value.State() == PivotChordOf(old(State()), axis).1.value
    {
      ghost var c0 := State();
      var limit := PrimeLimit();
      if limit.Err? {
        return Err(limit.error);
      }
      PivotChordUnfold(c0, axis, limit.value);
      assert lattice.State().primeLimit == c0.lattice.primeLimit by {
        ChordTonesCorrect(c0.lattice, root, nodes);
      }
      ChordLimitStateless(c0.lattice, lattice.State(), root, nodes);
      if axis > limit.value {
        return Err(ValueError);
      }
      r := PivotWith(State(), limit.value, axis);
    }

    /** The complement property: a new chord on the same root whose nodes
        are the root less each node. */
    method Complement() returns (c: JustLatticeChord)
      ensures fresh(c) && fresh(c.lattice) && c.Valid()
      ensures c.State() == ComplementChordOf(State())
    {
      var complements := [];
      var i := 0;
      while i < |nodes|
        invariant 0 <= i <= |nodes|
        invariant complements == ComplementNodes(root, nodes[..i])
      {
        assert nodes[..i + 1][..i] == nodes[..i];
        complements := complements + [ComplementNode(root, nodes[i])];
        i := i + 1;
      }
      assert nodes[..i] == nodes;
      c := new JustLatticeChord(root, complements);
    }
  }
}
