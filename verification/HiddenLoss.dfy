/** What the exact circuit condition leaves out, exactly: rewritings that lose a pair without showing it.
    With lifts that leave zero alone they are just the ones certified on the stream of zeros. */
module HiddenLoss {
  import opened Circuits
  import opened CircuitLaws
  import opened Incrementalization
  import opened Shapes
  import opened Certificate

  /** A place inside a value: at each pair, whether to go right. */
  type Path = seq<bool>

  predicate PairAt(v: Val, p: Path)
    decreases |p|
  {
    v.P? && (p == [] || PairAt(if p[0] then v.b else v.a, p[1..]))
  }

  ghost predicate Never(s: Stream, p: Path) {
    forall n: nat :: !PairAt(s(n), p)
  }

  ghost predicate InStep(d: Stream, s: Stream, p: Path) {
    forall n: nat :: PairAt(d(n), p) <==> PairAt(s(n), p)
  }

  /** Down to `depth`, each place of `d` either never holds a pair or holds one whenever `s` does. */
  ghost predicate Cut(d: Stream, s: Stream, depth: nat) {
    forall p: Path | |p| <= depth :: Never(d, p) || InStep(d, s, p)
  }

  lemma {:induction false} PairAtSub(u: Val, v: Val, p: Path)
    ensures PairAt(u.Sub(v), p) == PairAt(u, p)
    decreases |p|
  {
    if p == [] || u.I? {
    } else {
      SubZero(u.a);
      SubZero(u.b);
      if p[0] {
        PairAtSub(u.b, if v.P? then v.b else ZERO, p[1..]);
      } else {
        PairAtSub(u.a, if v.P? then v.a else ZERO, p[1..]);
      }
    }
  }

  /** Streams with pairs in the same places are cut alike. */
  lemma {:induction false} CutSame(d: Stream, s: Stream, d': Stream, s': Stream, depth: nat)
    requires Cut(d, s, depth)
    requires forall n: nat, p: Path :: PairAt(d'(n), p) == PairAt(d(n), p)
    requires forall n: nat, p: Path :: PairAt(s'(n), p) == PairAt(s(n), p)
    ensures Cut(d', s', depth)
  {
  }

  lemma {:induction false} CutChanges(d: Stream, s: Stream, depth: nat)
    requires Cut(d, s, depth)
    ensures Cut(Changes(d), Changes(s), depth)
  {
    forall n: nat, p: Path
      ensures PairAt(Changes(d)(n), p) == PairAt(d(n), p)
      ensures PairAt(Changes(s)(n), p) == PairAt(s(n), p)
    {
      ChangesAt(d, n);
      ChangesAt(s, n);
      PairAtSub(d(n), Before(d, n), p);
      PairAtSub(s(n), Before(s, n), p);
    }
    CutSame(d, s, Changes(d), Changes(s), depth);
  }

  lemma {:induction false} CutScalar(d: Stream, s: Stream, depth: nat)
    requires Scalar(d)
    ensures Cut(d, s, depth)
  {
    forall p: Path
      ensures Never(d, p)
    {
      forall n: nat ensures !PairAt(d(n), p) { assert d(n).I?; }
    }
  }

  lemma {:induction false} CutLate(d: Stream, s: Stream, p: Path)
    requires Never(d, p) || InStep(d, s, p)
    ensures (forall n: nat :: !PairAt(Before(d, n), p)) ||
            (forall n: nat :: PairAt(Before(d, n), p) <==> PairAt(Before(s, n), p))
  {
  }

  lemma {:induction false} CutSides(d: Stream, s: Stream, depth: nat)
    requires 0 < depth && Cut(d, s, depth)
    ensures Cut(LeftOf(d), LeftOf(s), depth - 1) && Cut(RightOf(d), RightOf(s), depth - 1)
  {
    forall p: Path | |p| <= depth - 1
      ensures Never(LeftOf(d), p) || InStep(LeftOf(d), LeftOf(s), p)
      ensures Never(RightOf(d), p) || InStep(RightOf(d), RightOf(s), p)
    {
      var left, right := [false] + p, [true] + p;
      assert left[1..] == p && right[1..] == p;
      assert |left| <= depth && |right| <= depth;
      forall n: nat
        ensures PairAt(LeftOf(d)(n), p) == PairAt(d(n), left) && PairAt(LeftOf(s)(n), p) == PairAt(s(n), left)
        ensures PairAt(RightOf(d)(n), p) == PairAt(d(n), right) && PairAt(RightOf(s)(n), p) == PairAt(s(n), right)
      {
      }
      assert Never(d, left) || InStep(d, s, left);
      assert Never(d, right) || InStep(d, s, right);
    }
  }

  /** Rewriting only ever cuts: where the rewritten node does not lose a pair for good, it has one at
      the very ticks the node itself does. */
  lemma {:induction false} CutThrough(linear: (int -> int) -> bool, node: Node, d: Stream, s: Stream, depth: nat)
    requires Cut(d, s, depth)
    ensures Cut(Through(Incrementalize(linear, node), d), Through(node, s), depth)
    decreases node, depth, 1
  {
    var node' := Incrementalize(linear, node);
    var out', out := Through(node', d), Through(node, s);
    match node {
      case Delay =>
        forall p: Path | |p| <= depth
          ensures Never(out', p) || InStep(out', out, p)
        {
          CutLate(d, s, p);
        }
      case Derivative => CutChanges(d, s, depth);
      case Integral =>
        forall n: nat ensures out'(n).I? { SumScalar(d, n); }
        CutScalar(out', out, depth);
      case Lift(f) =>
        if linear(f) {
          LiftPlaces(f, d);
          LiftPlaces(f, s);
          CutSame(d, s, out', out, depth);
        } else {
          forall n: nat ensures out'(n).I? { IncrementalLiftScalar(f, d, n); }
          CutScalar(out', out, depth);
        }
      case Incremental(g) =>
        var g' := Incrementalize(linear, g);
        IntegratedScalar(d);
        CutScalar(Integrated(d), Integrated(s), depth);
        CutThrough(linear, g, Integrated(d), Integrated(s), depth);
        CutChanges(Through(g', Integrated(d)), Through(g, Integrated(s)), depth);
        forall n: nat
          ensures out'(n) == Changes(Through(g', Integrated(d)))(n)
          ensures out(n) == Changes(Through(g, Integrated(s)))(n)
        {
          Unfold(node', d, n);
          Unfold(node, s, n);
        }
        CutSame(Changes(Through(g', Integrated(d))), Changes(Through(g, Integrated(s))), out', out, depth);
      case Seq(f, g) =>
        var f', g' := Incrementalize(linear, f), Incrementalize(linear, g);
        CutThrough(linear, f, d, s, depth);
        CutThrough(linear, g, Through(f', d), Through(f, s), depth);
        forall n: nat
          ensures out'(n) == Through(g', Through(f', d))(n)
          ensures out(n) == Through(g, Through(f, s))(n)
        {
          Unfold(node', d, n);
          Unfold(node, s, n);
        }
        CutSame(Through(g', Through(f', d)), Through(g, Through(f, s)), out', out, depth);
      case Par(f, g) => ParCut(linear, f, g, d, s, depth);
      case Feedback(body) =>
        var body' := Incrementalize(linear, body);
        FixCut(linear, body, d, s, depth);
        LoopOutput(body', d);
        LoopOutput(body, s);
        CutSame(FixStream(body', d), FixStream(body, s), out', out, depth);
    }
  }

  lemma {:induction false} LiftPlaces(f: int -> int, s: Stream)
    ensures forall n: nat, p: Path :: PairAt(Through(Lift(f), s)(n), p) == PairAt(s(n), p)
  {
    forall n: nat, p: Path
      ensures PairAt(Through(Lift(f), s)(n), p) == PairAt(s(n), p)
    {
      assert Through(Lift(f), s)(n) == if s(n).I? then I(f(s(n).x)) else s(n);
    }
  }

  lemma {:induction false} ParCut(linear: (int -> int) -> bool, f: Node, g: Node, d: Stream, s: Stream, depth: nat)
    requires Cut(d, s, depth)
    ensures Cut(Through(Incrementalize(linear, Par(f, g)), d), Through(Par(f, g), s), depth)
    decreases Par(f, g), depth, 0
  {
    var f', g' := Incrementalize(linear, f), Incrementalize(linear, g);
    var out', out := Through(Par(f', g'), d), Through(Par(f, g), s);
    forall n: nat
      ensures out'(n) == P(Through(f', LeftOf(d))(n), Through(g', RightOf(d))(n))
      ensures out(n) == P(Through(f, LeftOf(s))(n), Through(g, RightOf(s))(n))
    {
      Unfold(Par(f', g'), d, n);
      Unfold(Par(f, g), s, n);
    }
    if 0 < depth {
      CutSides(d, s, depth);
      CutThrough(linear, f, LeftOf(d), LeftOf(s), depth - 1);
      CutThrough(linear, g, RightOf(d), RightOf(s), depth - 1);
    }
    PairedCut(Through(f', LeftOf(d)), Through(g', RightOf(d)), Through(f, LeftOf(s)), Through(g, RightOf(s)), out', out,
              depth);
  }

  /** Pairing streams that are cut one place up. */
  lemma {:induction false} PairedCut(a': Stream, b': Stream, a: Stream, b: Stream, out': Stream, out: Stream,
                                     depth: nat)
    requires forall n: nat :: out'(n) == P(a'(n), b'(n)) && out(n) == P(a(n), b(n))
    requires 0 < depth ==> Cut(a', a, depth - 1) && Cut(b', b, depth - 1)
    ensures Cut(out', out, depth)
  {
    forall p: Path | |p| <= depth
      ensures Never(out', p) || InStep(out', out, p)
    {
      if p != [] {
        var q := p[1..];
        forall n: nat
          ensures PairAt(out'(n), p) == PairAt(if p[0] then b'(n) else a'(n), q)
          ensures PairAt(out(n), p) == PairAt(if p[0] then b(n) else a(n), q)
        {
        }
        if p[0] {
          assert Never(b', q) || InStep(b', b, q);
        } else {
          assert Never(a', q) || InStep(a', a, q);
        }
      }
    }
  }

  /** What a loop feeds back is cut as deep as need be: each place is settled one turn after a shorter
      one. */
  lemma {:induction false} FixCut(linear: (int -> int) -> bool, body: Node, d: Stream, s: Stream, depth: nat)
    requires Cut(d, s, depth)
    ensures Cut(FixStream(Incrementalize(linear, body), d), FixStream(body, s), depth)
    decreases Feedback(body), depth, 0
  {
    var body' := Incrementalize(linear, body);
    var alpha', alpha := FixStream(body', d), FixStream(body, s);
    var late', late: Stream := (n: nat) => Before(alpha', n), (n: nat) => Before(alpha, n);
    if 0 < depth {
      assert Cut(d, s, depth - 1);
      FixCut(linear, body, d, s, depth - 1);
      forall p: Path | |p| <= depth - 1
        ensures Never(late', p) || InStep(late', late, p)
      {
        CutLate(alpha', alpha, p);
      }
    }
    PairedCut(d, late', s, late, Tied(d, alpha'), Tied(s, alpha), depth);
    CutThrough(linear, body, Tied(d, alpha'), Tied(s, alpha), depth);
    LoopOutput(body', d);
    LoopOutput(body, s);
    CutSame(Through(body', Tied(d, alpha')), Through(body, Tied(s, alpha)), alpha', alpha, depth);
  }

  // ------------------------------------------------------------------ zeros only

  predicate ZeroTree(v: Val) {
    match v case I(x) => x == 0 case P(a, b) => ZeroTree(a) && ZeroTree(b)
  }

  /** No lift moves zero. */
  predicate FixesZero(node: Node) {
    match node
    case Lift(f) => f(0) == 0
    case Incremental(g) => FixesZero(g)
    case Seq(f, g) => FixesZero(f) && FixesZero(g)
    case Par(f, g) => FixesZero(f) && FixesZero(g)
    case Feedback(body) => FixesZero(body)
    case _ => true
  }

  ghost predicate ZeroTo(s: Stream, n: nat) {
    forall i: nat | i <= n :: ZeroTree(s(i))
  }

  lemma {:induction false} ZeroSub(u: Val, v: Val)
    requires ZeroTree(u) && ZeroTree(v)
    ensures ZeroTree(u.Sub(v))
  {
    match u {
      case I(_) =>
      case P(a, b) =>
        if v.P? {
          ZeroSub(a, v.a);
          ZeroSub(b, v.b);
        }
    }
  }

  lemma {:induction false} ZeroSum(s: Stream, n: nat)
    requires ZeroTo(s, n)
    ensures SumTo(s, n) == ZERO
  {
    assert ZeroTree(s(n));
    if n == 0 {
    } else {
      ZeroSum(s, n - 1);
    }
  }

  lemma {:induction false} ZeroChanges(s: Stream, n: nat)
    requires ZeroTo(s, n)
    ensures ZeroTo(Changes(s), n)
  {
    forall i: nat | i <= n
      ensures ZeroTree(Changes(s)(i))
    {
      ChangesAt(s, i);
      assert ZeroTree(Before(s, i));
      ZeroSub(s(i), Before(s, i));
    }
  }

  lemma {:induction false} ZeroIntegrated(s: Stream, n: nat)
    requires ZeroTo(s, n)
    ensures ZeroTo(Integrated(s), n)
  {
    forall i: nat | i <= n ensures Integrated(s)(i) == ZERO { ZeroSum(s, i); }
  }

  /** Zeros in, zeros out. */
  lemma {:induction false} ZeroThrough(node: Node, s: Stream, n: nat)
    requires FixesZero(node) && ZeroTo(s, n)
    ensures ZeroTo(Through(node, s), n)
    decreases node, n, 1
  {
    match node {
      case Delay =>
      case Derivative => ZeroChanges(s, n);
      case Integral =>
        forall i: nat | i <= n ensures Through(node, s)(i) == ZERO { ZeroSum(s, i); }
      case Lift(f) =>
        forall i: nat | i <= n
          ensures ZeroTree(Through(node, s)(i))
        {
          assert ZeroTree(s(i));
          assert Through(node, s)(i) == if s(i).I? then I(f(s(i).x)) else s(i);
        }
      case Incremental(g) =>
        ZeroIntegrated(s, n);
        ZeroThrough(g, Integrated(s), n);
        ZeroChanges(Through(g, Integrated(s)), n);
        forall i: nat ensures Through(node, s)(i) == Changes(Through(g, Integrated(s)))(i) { Unfold(node, s, i); }
      case Seq(f, g) =>
        ZeroThrough(f, s, n);
        ZeroThrough(g, Through(f, s), n);
        forall i: nat ensures Through(node, s)(i) == Through(g, Through(f, s))(i) { Unfold(node, s, i); }
      case Par(f, g) =>
        ZeroThrough(f, LeftOf(s), n);
        ZeroThrough(g, RightOf(s), n);
        forall i: nat | i <= n ensures ZeroTree(Through(node, s)(i)) { Unfold(node, s, i); }
      case Feedback(body) =>
        ZeroLoop(body, s, n);
        LoopOutput(body, s);
    }
  }

  lemma {:induction false} ZeroLoop(body: Node, s: Stream, n: nat)
    requires FixesZero(body) && ZeroTo(s, n)
    ensures ZeroTo(FixStream(body, s), n)
    decreases Feedback(body), n, 0
  {
    var tied := Tied(s, FixStream(body, s));
    if n == 0 {
    } else {
      ZeroLoop(body, s, n - 1);
    }
    assert ZeroTo(tied, n);
    ZeroThrough(body, tied, n);
    LoopOutput(body, s);
  }

  lemma {:induction false} RewriteFixesZero(linear: (int -> int) -> bool, node: Node)
    requires FixesZero(node)
    ensures FixesZero(Incrementalize(linear, node))
  {
    match node {
      case Incremental(g) => RewriteFixesZero(linear, g);
      case Seq(f, g) => RewriteFixesZero(linear, f); RewriteFixesZero(linear, g);
      case Par(f, g) => RewriteFixesZero(linear, f); RewriteFixesZero(linear, g);
      case Feedback(body) => RewriteFixesZero(linear, body);
      case _ =>
    }
  }

  /** Zero trees with pairs in the same places are the same. */
  lemma {:induction false} ZeroSame(u: Val, v: Val)
    requires ZeroTree(u) && ZeroTree(v)
    requires forall p: Path :: PairAt(u, p) == PairAt(v, p)
    ensures u == v
    decreases u
  {
    assert PairAt(u, []) == PairAt(v, []);
    if u.P? {
      forall p: Path
        ensures PairAt(u.a, p) == PairAt(v.a, p) && PairAt(u.b, p) == PairAt(v.b, p)
      {
        var left, right := [false] + p, [true] + p;
        assert left[1..] == p && right[1..] == p;
        assert PairAt(u, left) == PairAt(v, left) && PairAt(u, right) == PairAt(v, right);
      }
      ZeroSame(u.a, v.a);
      ZeroSame(u.b, v.b);
    }
  }

  // ------------------------------------------------------------------ the remainder

  /** Where shapes do not differ, a pair in the one stream has its place filled in the other. */
  lemma {:induction false} PlaceKept(a: Shape, b: Shape, u: Val, v: Val, p: Path)
    requires !Differ(a, b) && Known(a, |p|) && Known(b, |p|)
    requires Filled(u, a) && Fits(v, b) && PairAt(v, p)
    ensures PairAt(u, p)
    decreases |p|
  {
    if p == [] {
    } else if p[0] {
      PlaceKept(a.right, b.right, u.b, v.b, p[1..]);
    } else {
      PlaceKept(a.left, b.left, u.a, v.a, p[1..]);
    }
  }

  const ZEROS: Stream := (n: nat) => ZERO

  /** If the rewriting does not change the shape of the output, pairs come out of both circuits in the same
      places at the same ticks. */
  lemma {:induction false} SamePlaces(linear: (int -> int) -> bool, node: Node, s: Stream, p: Path, n: nat)
    requires Scalar(s) && !Loses(linear, node, Scalars, |p|)
    ensures PairAt(Eval(Incrementalize(linear, node), s, n), p) == PairAt(Eval(Incremental(node), s, n), p)
  {
    var node', sum, depth := Incrementalize(linear, node), Integrated(s), |p|;
    var out', whole := Through(node', s), Through(node, sum);
    CutScalar(s, sum, depth);
    CutThrough(linear, node, s, sum, depth);
    assert Never(out', p) || InStep(out', whole, p);
    if Never(out', p) && PairAt(whole(n), p) {
      IntegratedScalar(s);
      ScalarShaped(s);
      ScalarShaped(sum);
      OutShaped(node, sum, Scalars, depth);
      var late := OutFilled(node', s, Scalars, depth, 0);
      OutKnown(node', Scalars, depth, depth);
      OutKnown(node, Scalars, depth, depth);
      PlaceKept(OutShape(node', Scalars, depth), OutShape(node, Scalars, depth), out'(late), whole(n), p);
      assert false;
    }
    assert PairAt(out'(n), p) == PairAt(whole(n), p);
    Unfold(Incremental(node), s, n);
    ChangesAt(whole, n);
    PairAtSub(whole(n), Before(whole, n), p);
  }

  /** On zeros, with lifts that leave zero alone, nothing but the shape of the output counts. So a circuit
      with an unvouched lift on a pair stream that never shows the loss is certified there, and no
      condition on shapes can tell it from a clear one. */
  lemma {:induction false} ZerosIff(linear: (int -> int) -> bool, node: Node)
    requires FixesZero(node)
    ensures Certified(linear, node, ZEROS) <==> forall turns: nat :: !Loses(linear, node, Scalars, turns)
  {
    var node' := Incrementalize(linear, node);
    ScalarShaped(ZEROS);
    if turns: nat :| Loses(linear, node, Scalars, turns) {
      LossBreaks(linear, node, ZEROS, Scalars, turns);
    } else {
      RewriteFixesZero(linear, node);
      forall n: nat
        ensures Eval(node', ZEROS, n) == Eval(Incremental(node), ZEROS, n)
      {
        ZeroThrough(node', ZEROS, n);
        ZeroThrough(Incremental(node), ZEROS, n);
        forall p: Path
          ensures PairAt(Eval(node', ZEROS, n), p) == PairAt(Eval(Incremental(node), ZEROS, n), p)
        {
          SamePlaces(linear, node, ZEROS, p, n);
        }
        assert ZeroTree(Through(node', ZEROS)(n)) && ZeroTree(Through(Incremental(node), ZEROS)(n));
        ZeroSame(Eval(node', ZEROS, n), Eval(Incremental(node), ZEROS, n));
      }
    }
  }
}
