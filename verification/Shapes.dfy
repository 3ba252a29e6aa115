/** Where pairs flow, read off the circuit alone: a static check of which lifts read pairs, and the proof
    that it is exact. */
module Shapes {
  import opened Circuits
  import opened CircuitLaws
  import opened Incrementalization

  /** What a stream carries in the long run: scalars only, pairs of streams, or we did not look. */
  datatype Shape = Scalars | Pairs(left: Shape, right: Shape) | Unknown {
    function Left(): Shape {
      if Pairs? then left else this
    }

    function Right(): Shape {
      if Pairs? then right else this
    }
  }

  /** The shape of a node's output, given its input's. A loop is followed for `turns` turns: each one
      tells what is fed back one place deeper. */
  function OutShape(node: Node, sh: Shape, turns: nat): Shape
    decreases node, turns, 1
  {
    match node
    case Integral => Scalars
    case Incremental(g) => OutShape(g, Scalars, turns)
    case Seq(f, g) => OutShape(g, OutShape(f, sh, turns), turns)
    case Par(f, g) => Pairs(OutShape(f, sh.Left(), turns), OutShape(g, sh.Right(), turns))
    case Feedback(body) => OutShape(body, LoopShape(body, sh, turns), turns)
    case _ => sh
  }

  /** What a feedback body reads. */
  function LoopShape(body: Node, sh: Shape, turns: nat): Shape
    decreases Feedback(body), turns, 0
  {
    Pairs(sh, if turns == 0 then Unknown else OutShape(Feedback(body), sh, turns - 1))
  }

  /** No lift but a vouched one reads anything but scalars. */
  predicate ClearAt(linear: (int -> int) -> bool, node: Node, sh: Shape, turns: nat) {
    match node
    case Lift(f) => linear(f) || sh.Scalars?
    case Incremental(g) => ClearAt(linear, g, Scalars, turns)
    case Seq(f, g) => ClearAt(linear, f, sh, turns) && ClearAt(linear, g, OutShape(f, sh, turns), turns)
    case Par(f, g) => ClearAt(linear, f, sh.Left(), turns) && ClearAt(linear, g, sh.Right(), turns)
    case Feedback(body) => ClearAt(linear, body, LoopShape(body, sh, turns), turns)
    case _ => true
  }

  /** How deep inside its input a circuit looks: one place per parallel node around another. */
  function Nesting(node: Node): nat {
    match node
    case Incremental(g) => Nesting(g)
    case Seq(f, g) => if Nesting(f) < Nesting(g) then Nesting(g) else Nesting(f)
    case Par(f, g) => 1 + if Nesting(f) < Nesting(g) then Nesting(g) else Nesting(f)
    case Feedback(body) => Nesting(body)
    case _ => 0
  }

  /** The static check, for a circuit on scalar input: as many turns as the circuit looks deep. */
  predicate Clear(linear: (int -> int) -> bool, node: Node) {
    ClearAt(linear, node, Scalars, Nesting(node))
  }

  // ----------------------------------------------- scalars are where the shape says

  predicate Fits(v: Val, sh: Shape) {
    match sh
    case Scalars => v.I?
    case Pairs(l, r) => v.I? || (Fits(v.a, l) && Fits(v.b, r))
    case Unknown => true
  }

  ghost predicate Shaped(s: Stream, sh: Shape) {
    forall n: nat :: Fits(s(n), sh)
  }

  lemma {:induction false} ScalarFits(x: int, sh: Shape)
    ensures Fits(I(x), sh)
  {
  }

  lemma {:induction false} FitsSub(u: Val, v: Val, sh: Shape)
    requires Fits(u, sh)
    ensures Fits(u.Sub(v), sh)
    decreases u
  {
    match u {
      case I(_) =>
      case P(a, b) =>
        if sh.Pairs? {
          FitsSub(a, if v.P? then v.a else ZERO, sh.left);
          FitsSub(b, if v.P? then v.b else ZERO, sh.right);
          SubZero(a);
          SubZero(b);
        }
    }
  }

  lemma {:induction false} ChangesShaped(s: Stream, sh: Shape)
    requires Shaped(s, sh)
    ensures Shaped(Changes(s), sh)
  {
    forall n: nat
      ensures Fits(Changes(s)(n), sh)
    {
      ChangesAt(s, n);
      FitsSub(s(n), Before(s, n), sh);
    }
  }

  lemma {:induction false} ScalarShaped(s: Stream)
    ensures Shaped(s, Scalars) <==> Scalar(s)
  {
    if Shaped(s, Scalars) {
      forall n: nat ensures s(n).I? { assert Fits(s(n), Scalars); }
    }
  }

  /** Every node's output has the shape computed for it. */
  lemma {:induction false} OutShaped(node: Node, s: Stream, sh: Shape, turns: nat)
    requires Shaped(s, sh)
    ensures Shaped(Through(node, s), OutShape(node, sh, turns))
    decreases node, turns, 1
  {
    match node {
      case Delay =>
        forall n: nat
          ensures Fits(Through(node, s)(n), sh)
        {
          ScalarFits(0, sh);
        }
      case Derivative => ChangesShaped(s, sh);
      case Integral =>
        forall n: nat ensures Through(node, s)(n).I? { SumScalar(s, n); }
      case Lift(f) =>
        forall n: nat
          ensures Fits(Through(node, s)(n), sh)
        {
          if s(n).I? { ScalarFits(f(s(n).x), sh); }
          assert Through(node, s)(n) == if s(n).I? then I(f(s(n).x)) else s(n);
        }
      case Incremental(g) =>
        IntegratedScalar(s);
        OutShaped(g, Integrated(s), Scalars, turns);
        ChangesShaped(Through(g, Integrated(s)), OutShape(g, Scalars, turns));
        forall n: nat ensures Through(node, s)(n) == Changes(Through(g, Integrated(s)))(n) { Unfold(node, s, n); }
      case Seq(f, g) =>
        OutShaped(f, s, sh, turns);
        OutShaped(g, Through(f, s), OutShape(f, sh, turns), turns);
        forall n: nat ensures Through(node, s)(n) == Through(g, Through(f, s))(n) { Unfold(node, s, n); }
      case Par(f, g) =>
        SidesShaped(s, sh);
        OutShaped(f, LeftOf(s), sh.Left(), turns);
        OutShaped(g, RightOf(s), sh.Right(), turns);
        forall n: nat
          ensures Fits(Through(node, s)(n), OutShape(node, sh, turns))
        {
          Unfold(node, s, n);
        }
      case Feedback(body) =>
        var tied := Tied(s, FixStream(body, s));
        TiedShaped(body, s, sh, turns);
        OutShaped(body, tied, LoopShape(body, sh, turns), turns);
        LoopOutput(body, s);
    }
  }

  /** A loop's output is its body's, on what the body reads. */
  lemma {:induction false} LoopOutput(body: Node, s: Stream)
    ensures forall n: nat :: Through(Feedback(body), s)(n) == Through(body, Tied(s, FixStream(body, s)))(n)
    ensures forall n: nat :: Through(Feedback(body), s)(n) == FixStream(body, s)(n)
  {
    forall n: nat
      ensures Through(Feedback(body), s)(n) == Through(body, Tied(s, FixStream(body, s)))(n) == FixStream(body, s)(n)
    {
      FixEquation(body, s, n);
      Unfold(Feedback(body), s, n);
    }
  }

  lemma {:induction false} SidesShaped(s: Stream, sh: Shape)
    requires Shaped(s, sh)
    ensures Shaped(LeftOf(s), sh.Left()) && Shaped(RightOf(s), sh.Right())
  {
    forall n: nat
      ensures Fits(LeftOf(s)(n), sh.Left()) && Fits(RightOf(s)(n), sh.Right())
    {
      assert Fits(s(n), sh);
      if s(n).I? {
        ScalarFits(s(n).x, sh.Left());
        ScalarFits(s(n).x, sh.Right());
      }
    }
  }

  lemma {:induction false} TiedShaped(body: Node, s: Stream, sh: Shape, turns: nat)
    requires Shaped(s, sh)
    ensures Shaped(Tied(s, FixStream(body, s)), LoopShape(body, sh, turns))
    decreases Feedback(body), turns, 0
  {
    var alpha := FixStream(body, s);
    if turns == 0 {
    } else {
      var out := OutShape(Feedback(body), sh, turns - 1);
      OutShaped(Feedback(body), s, sh, turns - 1);
      LoopOutput(body, s);
      forall n: nat
        ensures Fits(Before(alpha, n), out)
      {
        ScalarFits(0, out);
        if n > 0 { assert Fits(Through(Feedback(body), s)(n - 1), out); }
      }
    }
  }

  // ------------------------------------------------- pairs are where the shape says

  /** Every place that should hold a pair does. */
  predicate Filled(v: Val, sh: Shape) {
    sh.Pairs? ==> v.P? && Filled(v.a, sh.left) && Filled(v.b, sh.right)
  }

  ghost predicate FilledFrom(s: Stream, sh: Shape, start: nat) {
    forall n: nat | start <= n :: Filled(s(n), sh)
  }

  lemma {:induction false} FilledSub(u: Val, v: Val, sh: Shape)
    requires Filled(u, sh)
    ensures Filled(u.Sub(v), sh)
  {
    if !sh.Pairs? {
    } else {
      FilledSub(u.a, if v.P? then v.a else ZERO, sh.left);
      FilledSub(u.b, if v.P? then v.b else ZERO, sh.right);
      SubZero(u.a);
      SubZero(u.b);
    }
  }

  lemma {:induction false} ChangesFilled(s: Stream, sh: Shape, start: nat)
    requires FilledFrom(s, sh, start)
    ensures FilledFrom(Changes(s), sh, start)
  {
    forall n: nat | start <= n
      ensures Filled(Changes(s)(n), sh)
    {
      ChangesAt(s, n);
      FilledSub(s(n), Before(s, n), sh);
    }
  }

  /** Pairs do come out where the shape says so, from some tick on. */
  lemma {:induction false} OutFilled(node: Node, s: Stream, sh: Shape, turns: nat, start: nat) returns (late: nat)
    requires FilledFrom(s, sh, start)
    ensures FilledFrom(Through(node, s), OutShape(node, sh, turns), late)
    decreases node, turns, 1
  {
    match node {
      case Delay => late := start + 1;
      case Derivative =>
        late := start;
        ChangesFilled(s, sh, start);
      case Integral => late := 0;
      case Lift(f) =>
        late := start;
        forall n: nat | late <= n
          ensures Filled(Through(node, s)(n), sh)
        {
          assert Filled(s(n), sh);
          assert Through(node, s)(n) == if s(n).I? then I(f(s(n).x)) else s(n);
        }
      case Incremental(g) =>
        late := OutFilled(g, Integrated(s), Scalars, turns, 0);
        ChangesFilled(Through(g, Integrated(s)), OutShape(g, Scalars, turns), late);
        forall n: nat ensures Through(node, s)(n) == Changes(Through(g, Integrated(s)))(n) { Unfold(node, s, n); }
      case Seq(f, g) =>
        var mid := OutFilled(f, s, sh, turns, start);
        late := OutFilled(g, Through(f, s), OutShape(f, sh, turns), turns, mid);
        forall n: nat ensures Through(node, s)(n) == Through(g, Through(f, s))(n) { Unfold(node, s, n); }
      case Par(f, g) =>
        SidesFilled(s, sh, start);
        var left := OutFilled(f, LeftOf(s), sh.Left(), turns, start);
        var right := OutFilled(g, RightOf(s), sh.Right(), turns, start);
        late := left + right;
        forall n: nat | late <= n
          ensures Filled(Through(node, s)(n), OutShape(node, sh, turns))
        {
          Unfold(node, s, n);
        }
      case Feedback(body) =>
        var tied := Tied(s, FixStream(body, s));
        var mid := TiedFilled(body, s, sh, turns, start);
        late := OutFilled(body, tied, LoopShape(body, sh, turns), turns, mid);
        LoopOutput(body, s);
    }
  }

  lemma {:induction false} SidesFilled(s: Stream, sh: Shape, start: nat)
    requires FilledFrom(s, sh, start)
    ensures FilledFrom(LeftOf(s), sh.Left(), start) && FilledFrom(RightOf(s), sh.Right(), start)
  {
    forall n: nat | start <= n
      ensures Filled(LeftOf(s)(n), sh.Left()) && Filled(RightOf(s)(n), sh.Right())
    {
      assert Filled(s(n), sh);
    }
  }

  lemma {:induction false} TiedFilled(body: Node, s: Stream, sh: Shape, turns: nat, start: nat) returns (late: nat)
    requires FilledFrom(s, sh, start)
    ensures FilledFrom(Tied(s, FixStream(body, s)), LoopShape(body, sh, turns), late)
    decreases Feedback(body), turns, 0
  {
    var alpha := FixStream(body, s);
    if turns == 0 {
      late := start;
    } else {
      var out := OutShape(Feedback(body), sh, turns - 1);
      var mid := OutFilled(Feedback(body), s, sh, turns - 1, start);
      LoopOutput(body, s);
      late := start + mid + 1;
      forall n: nat | late <= n
        ensures Filled(Before(alpha, n), out)
      {
        assert Filled(Through(Feedback(body), s)(n - 1), out);
      }
    }
  }

  // -------------------------------------------------- no lift looks deeper than that

  /** Nothing unknown down to `depth` places inside. */
  predicate Known(sh: Shape, depth: nat) {
    match sh
    case Scalars => true
    case Pairs(l, r) => depth == 0 || (Known(l, depth - 1) && Known(r, depth - 1))
    case Unknown => false
  }

  lemma {:induction false} KnownLess(sh: Shape, depth: nat)
    requires 0 < depth && Known(sh, depth)
    ensures Known(sh, depth - 1)
    decreases depth
  {
    if depth == 1 {
    } else if sh.Pairs? {
      KnownLess(sh.left, depth - 1);
      KnownLess(sh.right, depth - 1);
    }
  }

  /** Outputs are known as deep as inputs, down to as many places as loops are followed. */
  lemma {:induction false} OutKnown(node: Node, sh: Shape, turns: nat, depth: nat)
    requires Known(sh, depth) && depth <= turns
    ensures Known(OutShape(node, sh, turns), depth)
    decreases node, turns, 1
  {
    match node {
      case Incremental(g) => OutKnown(g, Scalars, turns, depth);
      case Seq(f, g) =>
        OutKnown(f, sh, turns, depth);
        OutKnown(g, OutShape(f, sh, turns), turns, depth);
      case Par(f, g) =>
        if depth == 0 {
        } else {
          OutKnown(f, sh.Left(), turns, depth - 1);
          OutKnown(g, sh.Right(), turns, depth - 1);
        }
      case Feedback(body) =>
        LoopKnown(body, sh, turns, depth);
        OutKnown(body, LoopShape(body, sh, turns), turns, depth);
      case _ =>
    }
  }

  lemma {:induction false} LoopKnown(body: Node, sh: Shape, turns: nat, depth: nat)
    requires Known(sh, depth) && depth <= turns
    ensures Known(LoopShape(body, sh, turns), depth)
    decreases Feedback(body), turns, 0
  {
    if depth == 0 {
    } else {
      KnownLess(sh, depth);
      OutKnown(Feedback(body), sh, turns - 1, depth - 1);
    }
  }

  // ------------------------------------------------------------ the check is exact

  /** The check says of every lift what it reads, as long as loops are followed as far as lifts look. */
  lemma {:induction false} ClearAtIff(linear: (int -> int) -> bool, node: Node, s: Stream, sh: Shape, turns: nat,
                                      depth: nat, start: nat)
    requires Shaped(s, sh) && FilledFrom(s, sh, start) && Known(sh, depth) && Nesting(node) <= depth <= turns
    ensures ClearAt(linear, node, sh, turns) <==> Vouched(linear, node, s)
    decreases node
  {
    match node {
      case Lift(f) =>
        ScalarShaped(s);
        assert Filled(s(start), sh);
      case Incremental(g) =>
        IntegratedScalar(s);
        ScalarShaped(Integrated(s));
        ClearAtIff(linear, g, Integrated(s), Scalars, turns, depth, 0);
      case Seq(f, g) =>
        ClearAtIff(linear, f, s, sh, turns, depth, start);
        var late := OutFilled(f, s, sh, turns, start);
        OutShaped(f, s, sh, turns);
        OutKnown(f, sh, turns, depth);
        ClearAtIff(linear, g, Through(f, s), OutShape(f, sh, turns), turns, depth, late);
      case Par(f, g) =>
        SidesShaped(s, sh);
        SidesFilled(s, sh, start);
        ClearAtIff(linear, f, LeftOf(s), sh.Left(), turns, depth - 1, start);
        ClearAtIff(linear, g, RightOf(s), sh.Right(), turns, depth - 1, start);
      case Feedback(body) =>
        var tied := Tied(s, FixStream(body, s));
        var late := TiedFilled(body, s, sh, turns, start);
        TiedShaped(body, s, sh, turns);
        LoopKnown(body, sh, turns, depth);
        ClearAtIff(linear, body, tied, LoopShape(body, sh, turns), turns, depth, late);
      case _ =>
    }
  }

  /** The static check is exact: a circuit passes it if and only if, on whatever scalar stream, each lift
      that ever reads a pair is vouched for. */
  lemma {:induction false} ClearIff(linear: (int -> int) -> bool, node: Node, s: Stream)
    requires Scalar(s)
    ensures Clear(linear, node) <==> Vouched(linear, node, s)
  {
    ScalarShaped(s);
    ClearAtIff(linear, node, s, Scalars, Nesting(node), Nesting(node), 0);
  }
}
