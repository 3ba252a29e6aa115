/** Causality, the feedback fixpoint, and running sums against differences. */
module CircuitLaws {
  import opened Circuits

  /** The two streams agree up to and including tick `n`. */
  ghost predicate Agree(s: Stream, t: Stream, n: nat) {
    forall i: nat | i <= n :: s(i) == t(i)
  }

  lemma {:induction false} SumAgree(s: Stream, t: Stream, n: nat)
    requires Agree(s, t, n)
    ensures SumTo(s, n) == SumTo(t, n)
  {
    if n == 0 {
    } else {
      SumAgree(s, t, n - 1);
    }
  }

  lemma {:induction false} IntegratedAgree(s: Stream, t: Stream, n: nat)
    requires Agree(s, t, n)
    ensures Agree(Integrated(s), Integrated(t), n)
  {
    forall i: nat | i <= n
      ensures SumTo(s, i) == SumTo(t, i)
    {
      SumAgree(s, t, i);
    }
  }

  /** Causality, for every node, nested feedback included: the output at a tick depends only on the
      input up to that tick. */
  lemma {:induction false} Causal(node: Node, s: Stream, t: Stream, n: nat)
    requires Agree(s, t, n)
    ensures Eval(node, s, n) == Eval(node, t, n)
    decreases node, 0, 0
  {
    match node {
      case Delay | Derivative | Lift(_) =>
      case Integral => SumAgree(s, t, n);
      case Incremental(g) =>
        IntegratedAgree(s, t, n);
        Causal(g, Integrated(s), Integrated(t), n);
        if n > 0 { Causal(g, Integrated(s), Integrated(t), n - 1); }
      case Seq(f, g) =>
        forall i: nat | i <= n
          ensures Through(f, s)(i) == Through(f, t)(i)
        {
          Causal(f, s, t, i);
        }
        Causal(g, Through(f, s), Through(f, t), n);
      case Par(f, g) =>
        Causal(f, LeftOf(s), LeftOf(t), n);
        Causal(g, RightOf(s), RightOf(t), n);
      case Feedback(body) => FixCausal(body, s, t, n);
    }
  }

  lemma {:induction false} FixCausal(body: Node, s: Stream, t: Stream, n: nat)
    requires Agree(s, t, n)
    ensures Fix(body, s, n) == Fix(body, t, n)
    decreases body, n, 1
  {
    var a, b := TiedUpTo(body, s, n), TiedUpTo(body, t, n);
    forall j: nat | j <= n
      ensures a(j) == b(j)
    {
      if 0 < j { FixCausal(body, s, t, j - 1); }
    }
    Causal(body, a, b, n);
  }

  /** `alpha` solves the feedback equation: each tick is the body's output on the input paired with
      `alpha` one tick late. */
  ghost predicate Solves(body: Node, s: Stream, alpha: Stream) {
    forall n: nat :: alpha(n) == Eval(body, Tied(s, alpha), n)
  }

  lemma {:induction false} FixEquation(body: Node, s: Stream, n: nat)
    ensures Fix(body, s, n) == Eval(body, Tied(s, FixStream(body, s)), n)
  {
    var cut, whole := TiedUpTo(body, s, n), Tied(s, FixStream(body, s));
    forall j: nat | j <= n
      ensures cut(j) == whole(j)
    {
      assert whole(j) == P(s(j), Before(FixStream(body, s), j));
      assert cut(j) == P(s(j), if 0 < j then Fix(body, s, j - 1) else ZERO);
    }
    Causal(body, cut, whole, n);
  }

  /** The unmemoised feedback output solves the equation. */
  lemma {:induction false} FixSolves(body: Node, s: Stream)
    ensures Solves(body, s, FixStream(body, s))
  {
    forall n: nat
      ensures FixStream(body, s)(n) == Eval(body, Tied(s, FixStream(body, s)), n)
    {
      FixEquation(body, s, n);
    }
  }

  /** And nothing else does. */
  lemma {:induction false} FixUnique(body: Node, s: Stream, alpha: Stream, n: nat)
    requires Solves(body, s, alpha)
    ensures alpha(n) == Fix(body, s, n)
    decreases n
  {
    var cut, whole := TiedUpTo(body, s, n), Tied(s, alpha);
    forall j: nat | j <= n
      ensures whole(j) == cut(j)
    {
      if 0 < j {
        FixUnique(body, s, alpha, j - 1);
        assert whole(j) == P(s(j), alpha(j - 1));
        assert cut(j) == P(s(j), Fix(body, s, j - 1));
      } else {
        assert whole(j) == P(s(j), ZERO);
        assert cut(j) == P(s(j), ZERO);
      }
    }
    Causal(body, whole, cut, n);
  }

  // ------------------------------------------------------ the stream calculus

  ghost predicate Scalar(s: Stream) {
    forall n: nat :: s(n).I?
  }

  lemma {:induction false} SumScalar(s: Stream, n: nat)
    ensures SumTo(s, n).I?
  {
    if n == 0 {
    } else {
      SumScalar(s, n - 1);
    }
  }

  /** A scalar as it is, zero for a pair: what a running sum adds. */
  function ScalarPart(v: Val): Val {
    if v.I? then v else ZERO
  }

  /** Differentiating the running sum restores the scalars and nothing else: with only a scalar zero
      to start from, the sum drops every pair it meets. */
  lemma {:induction false} DerivativeOfIntegral(s: Stream, n: nat)
    ensures Eval(Derivative, Integrated(s), n) == ScalarPart(s(n))
  {
    SumScalar(s, n);
    if n > 0 { SumScalar(s, n - 1); }
  }

  /** Differentiating the running sum restores the stream, at every tick, exactly on scalar streams. */
  lemma {:induction false} DerivativeOfIntegralIff(s: Stream)
    ensures (forall n: nat :: Eval(Derivative, Integrated(s), n) == s(n)) <==> Scalar(s)
  {
    forall n: nat
      ensures Eval(Derivative, Integrated(s), n) == ScalarPart(s(n))
    {
      DerivativeOfIntegral(s, n);
    }
  }

  /** The running sum of the differences restores the stream, exactly on scalar streams. */
  lemma {:induction false} IntegralOfDerivativeIff(s: Stream)
    ensures (forall n: nat :: SumTo(Through(Derivative, s), n) == s(n)) <==> Scalar(s)
  {
    if Scalar(s) {
      forall n: nat
        ensures SumTo(Through(Derivative, s), n) == s(n)
      {
        Telescope(s, n);
      }
    }
    forall n: nat
      ensures SumTo(Through(Derivative, s), n).I?
    {
      SumScalar(Through(Derivative, s), n);
    }
  }

  lemma {:induction false} Telescope(s: Stream, n: nat)
    requires Scalar(s)
    ensures SumTo(Through(Derivative, s), n) == s(n)
  {
    assert s(n).I?;
    if n == 0 {
    } else {
      assert s(n - 1).I?;
      Telescope(s, n - 1);
    }
  }

  lemma {:induction false} IntegratedScalar(s: Stream)
    ensures Scalar(Integrated(s))
  {
    forall n: nat
      ensures Integrated(s)(n).I?
    {
      SumScalar(s, n);
    }
  }
}
