/** The certificate of the rewriting, exactly: for which circuits, streams and oracles it holds. */
module Certificate {
  import opened Circuits
  import opened CircuitLaws
  import opened Incrementalization
  import opened Shapes

  /** Somewhere one shape has scalars where the other has pairs. */
  predicate Differ(a: Shape, b: Shape) {
    match (a, b)
    case (Scalars, Pairs(_, _)) => true
    case (Pairs(_, _), Scalars) => true
    case (Pairs(l, r), Pairs(l', r')) => Differ(l, l') || Differ(r, r')
    case _ => false
  }

  lemma {:induction false} DifferApart(v: Val, a: Shape, b: Shape)
    requires Differ(a, b) && Fits(v, a) && Fits(v, b)
    ensures !(Filled(v, a) && Filled(v, b))
    decreases v
  {
    if Filled(v, a) && Filled(v, b) {
      if Differ(a.left, b.left) {
        DifferApart(v.a, a.left, b.left);
      } else {
        DifferApart(v.b, a.right, b.right);
      }
    }
  }

  /** The rewritten circuit and `Incremental` of the whole agree on `s` at every tick. */
  ghost predicate Certified(linear: (int -> int) -> bool, node: Node, s: Stream) {
    forall n: nat :: Eval(Incrementalize(linear, node), s, n) == Eval(Incremental(node), s, n)
  }

  /** The rewritten circuit, on input of the given shape, outputs another shape than the circuit itself:
      somewhere a pair was lost for good. Loops are followed for `turns` turns. */
  predicate Loses(linear: (int -> int) -> bool, node: Node, input: Shape, turns: nat) {
    Differ(OutShape(Incrementalize(linear, node), input, turns), OutShape(node, Scalars, turns))
  }

  /** Losing a pair breaks the certificate, on every stream of that shape; of unknown shape, if it does
      not depend on the input. */
  lemma {:induction false} LossBreaks(linear: (int -> int) -> bool, node: Node, s: Stream, input: Shape, turns: nat)
    requires Shaped(s, input) && FilledFrom(s, input, 0) && Loses(linear, node, input, turns)
    ensures !Certified(linear, node, s)
  {
    var node' := Incrementalize(linear, node);
    var a, b := OutShape(node', input, turns), OutShape(node, Scalars, turns);
    OutShaped(node', s, input, turns);
    OutShaped(Incremental(node), s, Unknown, turns);
    var late := OutFilled(node', s, input, turns, 0);
    var late' := OutFilled(Incremental(node), s, Unknown, turns, 0);
    var n := late + late';
    var v := Through(node', s)(n);
    assert Fits(v, a) && Filled(v, a);
    if Eval(Incremental(node), s, n) == v {
      assert v == Through(Incremental(node), s)(n);
      assert Fits(v, b) && Filled(v, b);
      DifferApart(v, a, b);
    }
  }

  /** A circuit that loses a pair whatever it is fed breaks the certificate on every stream there is. */
  lemma {:induction false} LossBreaksAll(linear: (int -> int) -> bool, node: Node, turns: nat, s: Stream)
    requires Loses(linear, node, Unknown, turns)
    ensures !Certified(linear, node, s)
  {
    LossBreaks(linear, node, s, Unknown, turns);
  }

  /** A clear circuit is certified on every scalar stream. */
  lemma {:induction false} ClearCertified(linear: (int -> int) -> bool, node: Node, s: Stream)
    requires Truthful(linear) && Clear(linear, node) && Scalar(s)
    ensures Certified(linear, node, s)
  {
    IntegratedScalar(s);
    ClearIff(linear, node, Integrated(s));
    forall n: nat
      ensures Eval(Incrementalize(linear, node), s, n) == Eval(Incremental(node), s, n)
    {
      IncrementalizeCorrect(linear, node, s, n);
    }
  }

  /** The certificate, exactly, circuit by circuit: it holds on a scalar stream if and only if every
      lift on a pair stream is vouched for. A circuit that is not clear is only covered if a lost pair
      shows in the shape of its output, however far loops must be followed to see it. */
  lemma {:induction false} CertifiedIff(linear: (int -> int) -> bool, node: Node, turns: nat, s: Stream)
    requires Truthful(linear) && Scalar(s)
    requires Clear(linear, node) || Loses(linear, node, Scalars, turns)
    ensures Certified(linear, node, s) <==> Clear(linear, node)
  {
    if Clear(linear, node) {
      ClearCertified(linear, node, s);
    } else {
      ScalarShaped(s);
      LossBreaks(linear, node, s, Scalars, turns);
    }
  }

  /** Exactly, stream by stream: every clear circuit is certified on a stream if and only if the
      stream is scalar. */
  lemma {:induction false} CertifiedStreamIff(linear: (int -> int) -> bool, s: Stream)
    requires Truthful(linear)
    ensures (forall node | Clear(linear, node) :: Certified(linear, node, s)) <==> Scalar(s)
  {
    if Scalar(s) {
      forall node | Clear(linear, node)
        ensures Certified(linear, node, s)
      {
        ClearCertified(linear, node, s);
      }
    } else {
      var k: nat :| s(k).P?;
      SumScalar(s, k);
      assert Eval(Incremental(Delay), s, k + 1).I?;
      assert Eval(Incrementalize(linear, Delay), s, k + 1) == s(k);
      assert Clear(linear, Delay) && !Certified(linear, Delay, s);
    }
  }

  /** Exactly, oracle by oracle: every clear circuit is certified on every scalar stream if and only if
      the oracle vouches for nothing but additive lifts. */
  lemma {:induction false} CertifiedOracleIff(linear: (int -> int) -> bool)
    ensures (forall node, s | Clear(linear, node) && Scalar(s) :: Certified(linear, node, s)) <==> Truthful(linear)
  {
    if Truthful(linear) {
      forall node, s | Clear(linear, node) && Scalar(s)
        ensures Certified(linear, node, s)
      {
        ClearCertified(linear, node, s);
      }
    }
    if forall node, s | Clear(linear, node) && Scalar(s) :: Certified(linear, node, s) {
      forall f | linear(f)
        ensures Additive(f)
      {
        forall s: Stream | Scalar(s)
          ensures OwnIncremental(Lift(f), s)
        {
          assert Clear(linear, Lift(f));
          assert Certified(linear, Lift(f), s);
        }
        LiftDropIff(f);
      }
    }
  }

  /** A loop around three nested forks; its lift reads what was fed back two turns ago. */
  function DeepBody(f: int -> int): Node {
    Par(Delay, Par(Delay, Par(Lift(f), Delay)))
  }

  lemma {:induction false} DeepTurn(f: int -> int, turns: nat)
    ensures var loop := Feedback(DeepBody(f));
      var x := if turns == 0 then Unknown else OutShape(loop, Scalars, turns - 1);
      OutShape(loop, Scalars, turns) == Pairs(Scalars, Pairs(x.Left(), Pairs(x.Right().Left(), x.Right().Right())))
  {
    var x := if turns == 0 then Unknown else OutShape(Feedback(DeepBody(f)), Scalars, turns - 1);
    var fork := Par(Lift(f), Delay);
    assert OutShape(fork, x.Right(), turns) == Pairs(x.Right().Left(), x.Right().Right());
    assert OutShape(Par(Delay, fork), x, turns) == Pairs(x.Left(), OutShape(fork, x.Right(), turns));
    assert OutShape(Delay, Scalars, turns) == Scalars;
    assert OutShape(DeepBody(f), Pairs(Scalars, x), turns) == Pairs(Scalars, OutShape(Par(Delay, fork), x, turns));
    assert LoopShape(DeepBody(f), Scalars, turns) == Pairs(Scalars, x);
  }

  /** What the lift in that loop reads is always a scalar, so the loop is certified whoever vouches. */
  lemma {:induction false} DeepLoopCertified(linear: (int -> int) -> bool, f: int -> int, s: Stream)
    requires Truthful(linear) && Scalar(s)
    ensures Certified(linear, Feedback(DeepBody(f)), s)
  {
    var body, fork := DeepBody(f), Par(Lift(f), Delay);
    assert Nesting(Delay) == 0 && Nesting(fork) == 1;
    assert Nesting(Par(Delay, fork)) == 2;
    assert Nesting(Feedback(body)) == 3;
    var x := OutShape(Feedback(body), Scalars, 2);
    DeepTurn(f, 1);
    DeepTurn(f, 2);
    assert x.Right().Left() == Scalars;
    assert ClearAt(linear, Lift(f), Scalars, 3) && ClearAt(linear, Delay, x.Right().Right(), 3);
    assert ClearAt(linear, fork, x.Right(), 3);
    assert ClearAt(linear, Par(Delay, fork), x, 3);
    assert LoopShape(body, Scalars, 3) == Pairs(Scalars, x);
    assert ClearAt(linear, body, Pairs(Scalars, x), 3);
    ClearCertified(linear, Feedback(body), s);
  }

  /** A loop around a lift nobody vouches for fails at once, on every stream. */
  lemma {:induction false} UnvouchedLoopBreaks(linear: (int -> int) -> bool, f: int -> int, s: Stream)
    requires !linear(f)
    ensures var node := Feedback(Lift(f));
      && Eval(Incrementalize(linear, node), s, 0) == I(f(0))
      && Eval(Incremental(node), s, 0) == P(ScalarPart(s(0)), ZERO)
  {
    var node, tied := Feedback(Incremental(Lift(f))), Tied(s, FixStream(Incremental(Lift(f)), s));
    FixEquation(Incremental(Lift(f)), s, 0);
    assert SumTo(tied, 0) == ZERO;
    FixEquation(Lift(f), Integrated(s), 0);
    assert Eval(Feedback(Lift(f)), Integrated(s), 0) == P(SumTo(s, 0), ZERO);
  }

  const FORK := Par(Delay, Delay)

  /** A fork, a lift on the pairs it makes, and something behind. */
  function Masked(lift: Node, behind: Node): Node {
    Seq(FORK, Seq(lift, behind))
  }

  lemma {:induction false} MaskedUnclear(linear: (int -> int) -> bool, f: int -> int, behind: Node)
    requires !linear(f) && Incrementalize(linear, behind) == behind
    ensures !Clear(linear, Masked(Lift(f), behind))
    ensures Incrementalize(linear, Masked(Lift(f), behind)) == Masked(Incremental(Lift(f)), behind)
  {
    var turns := Nesting(Masked(Lift(f), behind));
    assert OutShape(FORK, Scalars, turns) == Pairs(Scalars, Scalars);
    assert !ClearAt(linear, Seq(Lift(f), behind), Pairs(Scalars, Scalars), turns);
    assert Incrementalize(linear, Seq(Lift(f), behind)) == Seq(Incremental(Lift(f)), behind);
  }

  lemma {:induction false} MaskedUnfold(lift: Node, behind: Node, s: Stream, n: nat)
    ensures Eval(Masked(lift, behind), s, n) == Eval(behind, Through(lift, Through(FORK, s)), n)
  {
    Unfold(Masked(lift, behind), s, n);
    Unfold(Seq(lift, behind), Through(FORK, s), n);
  }

  /** On pairs an `Incremental` lift outputs its value at zero, then zeros. */
  lemma {:induction false} LiftOnPairs(f: int -> int, s: Stream, n: nat)
    requires forall i: nat :: s(i).P?
    ensures Eval(Incremental(Lift(f)), s, n) == I(if n == 0 then f(0) else 0)
  {
    SumOfPairs(s, n);
    if n > 0 { SumOfPairs(s, n - 1); }
    Unfold(Incremental(Lift(f)), s, n);
    ChangesAt(Through(Lift(f), Integrated(s)), n);
  }

  lemma {:induction false} SumOfPairs(s: Stream, n: nat)
    requires forall i: nat | i <= n :: s(i).P?
    ensures SumTo(s, n) == ZERO
  {
    if n == 0 {
    } else {
      SumOfPairs(s, n - 1);
    }
  }

  lemma {:induction false} SumOfPulse(s: Stream, n: nat)
    requires s(0).I? && forall i: nat | 0 < i :: s(i) == ZERO
    ensures SumTo(s, n) == s(0)
  {
    if n == 0 {
    } else {
      SumOfPulse(s, n - 1);
    }
  }

  /** The lift on the fork of running sums leaves pairs of scalars as they are. */
  lemma {:induction false} Forked(f: int -> int, s: Stream, n: nat)
    ensures var v := Through(Lift(f), Through(FORK, Integrated(s)))(n); v.P? && v.a.I? && v.b.I?
  {
    var fork := Through(FORK, Integrated(s));
    IntegratedScalar(s);
    ParScalar(Delay, Delay, Integrated(s), n);
    assert fork(n).P? && fork(n).a.I? && fork(n).b.I?;
    assert Through(Lift(f), fork)(n) == fork(n);
  }

  lemma {:induction false} IncrementalLiftScalar(f: int -> int, s: Stream, n: nat)
    ensures Eval(Incremental(Lift(f)), s, n).I?
  {
    SumScalar(s, n);
    if n > 0 { SumScalar(s, n - 1); }
  }

  /** Where a later stage sums pairs away, whether the loss shows depends on what the lift computes, not
      on the shape of the circuit. */
  lemma {:induction false} MaskedBySum(linear: (int -> int) -> bool, f: int -> int, s: Stream)
    requires !linear(f)
    ensures !Clear(linear, Masked(Lift(f), Integral))
    ensures Certified(linear, Masked(Lift(f), Integral), s) <==> f(0) == 0
  {
    var node, node' := Masked(Lift(f), Integral), Masked(Incremental(Lift(f)), Integral);
    MaskedUnclear(linear, f, Integral);
    hide Incrementalize, Clear, Masked, Eval;
    forall n: nat
      ensures Eval(node', s, n) == I(f(0)) && Eval(Incremental(node), s, n) == ZERO
    {
      SummedTick(f, s, n);
      SummedDifference(f, s, n);
    }
    assert Eval(node', s, 0) == I(f(0)) && Eval(Incremental(node), s, 0) == ZERO;
  }

  lemma {:induction false} SummedDifference(f: int -> int, s: Stream, n: nat)
    ensures Eval(Incremental(Masked(Lift(f), Integral)), s, n) == ZERO
  {
    hide Masked;
    var node := Masked(Lift(f), Integral);
    SummedWhole(f, s, n);
    if n > 0 { SummedWhole(f, s, n - 1); }
    Unfold(Incremental(node), s, n);
    ChangesAt(Through(node, Integrated(s)), n);
  }

  lemma {:induction false} SummedTick(f: int -> int, s: Stream, n: nat)
    ensures Eval(Masked(Incremental(Lift(f)), Integral), s, n) == I(f(0))
  {
    var fork := Through(FORK, s);
    var late := Through(Incremental(Lift(f)), fork);
    MaskedUnfold(Incremental(Lift(f)), Integral, s, n);
    forall i: nat ensures fork(i).P? { Unfold(FORK, s, i); }
    forall i: nat
      ensures late(i) == I(if i == 0 then f(0) else 0)
    {
      LiftOnPairs(f, fork, i);
    }
    SumOfPulse(late, n);
  }

  lemma {:induction false} SummedWhole(f: int -> int, s: Stream, n: nat)
    ensures Through(Masked(Lift(f), Integral), Integrated(s))(n) == ZERO
  {
    var lifted := Through(Lift(f), Through(FORK, Integrated(s)));
    MaskedUnfold(Lift(f), Integral, Integrated(s), n);
    forall i: nat ensures lifted(i).P? { Forked(f, s, i); }
    SumOfPairs(lifted, n);
  }

  /** The same where a later stage splits pairs into scalars: a lift that is zero everywhere hides the
      loss. */
  lemma {:induction false} MaskedBySplit(linear: (int -> int) -> bool, f: int -> int, zero: int -> int, s: Stream)
    requires !linear(f) && linear(zero) && forall x :: zero(x) == 0
    ensures var node := Masked(Lift(f), Par(Lift(zero), Lift(zero)));
      !Clear(linear, node) && Certified(linear, node, s)
  {
    var behind := Par(Lift(zero), Lift(zero));
    var node, node' := Masked(Lift(f), behind), Masked(Incremental(Lift(f)), behind);
    MaskedUnclear(linear, f, behind);
    hide Incrementalize, Clear, Masked;
    forall n: nat
      ensures Eval(node', s, n) == P(ZERO, ZERO) == Through(node, Integrated(s))(n)
    {
      MaskedUnfold(Incremental(Lift(f)), behind, s, n);
      MaskedUnfold(Lift(f), behind, Integrated(s), n);
      IncrementalLiftScalar(f, Through(FORK, s), n);
      Forked(f, s, n);
      SplitTick(zero, Through(Incremental(Lift(f)), Through(FORK, s)), n);
      SplitTick(zero, Through(Lift(f), Through(FORK, Integrated(s))), n);
    }
    hide Eval;
    forall n: nat
      ensures Eval(Incremental(node), s, n) == P(ZERO, ZERO)
    {
      Unfold(Incremental(node), s, n);
      ChangesAt(Through(node, Integrated(s)), n);
    }
  }

  lemma {:induction false} SplitTick(zero: int -> int, s: Stream, n: nat)
    requires forall x :: zero(x) == 0
    requires s(n).Fst().I? && s(n).Snd().I?
    ensures Eval(Par(Lift(zero), Lift(zero)), s, n) == P(ZERO, ZERO)
  {
  }

  /** The shipped pair is an instance of the rewriting, for any oracle that vouches for doubling and not
      for squaring; and it agrees with `Incremental` of the batch circuit on every stream. */
  lemma {:induction false} OrderTotalCorrect(linear: (int -> int) -> bool, s: Stream, n: nat)
    requires linear(Double) && !linear(LineTotal)
    ensures Incrementalize(linear, ORDER_TOTAL_CIRCUIT) == ORDER_TOTAL_INCREMENTAL
    ensures Eval(ORDER_TOTAL_INCREMENTAL, s, n) == Eval(Incremental(ORDER_TOTAL_CIRCUIT), s, n)
  {
    var square, tail := Lift(LineTotal), Seq(Lift(Double), Integral);
    assert Incrementalize(linear, tail) == tail;
    assert square.f == LineTotal;
    assert !linear(square.f);
    assert Incrementalize(linear, square) == Incremental(square);
    var out := Through(square, Integrated(s));
    forall i: nat
      ensures out(i).I?
      ensures Through(Incremental(square), s)(i) == Changes(out)(i)
      ensures Through(ORDER_TOTAL_CIRCUIT, Integrated(s))(i) == Through(tail, out)(i)
    {
      SumScalar(s, i);
      Unfold(Incremental(square), s, i);
      Unfold(ORDER_TOTAL_CIRCUIT, Integrated(s), i);
    }
    DoubledSum(out, n);
    Unfold(ORDER_TOTAL_INCREMENTAL, s, n);
    Unfold(Incremental(ORDER_TOTAL_CIRCUIT), s, n);
    SameOutput(tail, Through(Incremental(square), s), Changes(out), n);
    SameOutput(Derivative, Through(ORDER_TOTAL_CIRCUIT, Integrated(s)), Through(tail, out), n);
  }

  lemma {:induction false} DoubledSum(s: Stream, n: nat)
    requires Scalar(s)
    ensures var tail := Seq(Lift(Double), Integral);
      Eval(tail, Changes(s), n) == Changes(Through(tail, s))(n)
  {
    var linear := (f: int -> int) => Additive(f);
    var tail := Seq(Lift(Double), Integral);
    assert Additive(Double);
    assert Incrementalize(linear, tail) == tail;
    forall i: nat ensures Grows(s, i) { ScalarGrows(s, i); }
    forall i: nat ensures Through(Lift(Double), s)(i).I? { assert s(i).I?; }
    assert linear(Double) && Vouched(linear, Lift(Double), s);
    assert Vouched(linear, Integral, Through(Lift(Double), s));
    assert Vouched(linear, tail, s);
    VouchedCommutes(linear, tail, s);
  }

  /** On a stream of pairs even two delays side by side, which the rewriting leaves alone, differ from
      their own incremental form. */
  lemma {:induction false} PairInputBreaks(linear: (int -> int) -> bool)
    ensures var node, s := Par(Delay, Delay), (n: nat) => P(I(1), I(1));
      && Incrementalize(linear, node) == node
      && Eval(node, s, 1) == P(I(1), I(1))
      && Eval(Incremental(node), s, 1) == P(I(0), I(0))
  {
    var s := (n: nat) => P(I(1), I(1));
    assert SumTo(s, 0) == ZERO;
    assert LeftOf(Integrated(s))(0) == ZERO && RightOf(Integrated(s))(0) == ZERO;
  }
}
