/** What the nodes compute, tied to each other and to closed forms; and what the rewriting does to a
    circuit's text. */
module NodeLaws {
  import opened Circuits
  import opened CircuitLaws
  import opened Incrementalization

  // ------------------------------------------------------------------ delays

  /** `k` delays in a row. */
  function DelayLine(k: nat): Node {
    if k == 0 then Delay else Seq(DelayLine(k - 1), Delay)
  }

  /** A line of `k + 1` delays shifts any stream by that many ticks, with the scalar zero before. */
  lemma {:induction false} DelayShifts(k: nat, s: Stream, n: nat)
    ensures Eval(DelayLine(k), s, n) == if n <= k then I(0) else s(n - k - 1)
  {
    if k == 0 {
    } else {
      Unfold(DelayLine(k), s, n);
      assert Through(Delay, Through(DelayLine(k - 1), s))(n) ==
             if n == 0 then I(0) else Eval(DelayLine(k - 1), s, n - 1);
      if n > 0 { DelayShifts(k - 1, s, n - 1); }
    }
  }

  /** A delayed output never depends on the current tick. */
  lemma {:induction false} StrictlyCausal(node: Node, s: Stream, t: Stream, n: nat)
    requires forall i: nat | i < n :: s(i) == t(i)
    ensures Eval(Seq(node, Delay), s, n) == Eval(Seq(node, Delay), t, n)
    ensures n == 0 ==> Eval(Seq(node, Delay), s, n) == I(0)
  {
    Unfold(Seq(node, Delay), s, n);
    Unfold(Seq(node, Delay), t, n);
    if n > 0 {
      assert Through(Delay, Through(node, s))(n) == Eval(node, s, n - 1);
      assert Through(Delay, Through(node, t))(n) == Eval(node, t, n - 1);
      Causal(node, s, t, n - 1);
    }
  }

  /** The running sum against its own past, on every stream. */
  lemma {:induction false} RunningSum(s: Stream, n: nat)
    ensures Eval(Integral, s, n) == Eval(Seq(Integral, Delay), s, n).Add(s(n))
  {
    Unfold(Seq(Integral, Delay), s, n);
    assert Through(Delay, Through(Integral, s))(n) == if n == 0 then I(0) else SumTo(s, n - 1);
  }

  /** A difference is the input less the delayed input. */
  lemma {:induction false} DerivativeOfDelay(s: Stream, n: nat)
    ensures Eval(Derivative, s, n) == s(n).Sub(Eval(Delay, s, n))
  {
  }

  /** Delaying and differentiating commute. */
  lemma {:induction false} DelayedChanges(s: Stream, n: nat)
    ensures Eval(Seq(Delay, Derivative), s, n) == Eval(Seq(Derivative, Delay), s, n)
  {
    var late := Through(Delay, s);
    Unfold(Seq(Delay, Derivative), s, n);
    Unfold(Seq(Derivative, Delay), s, n);
    ChangesAt(late, n);
    assert Through(Delay, Changes(s))(n) == if n == 0 then I(0) else Changes(s)(n - 1);
    assert late(n) == if n == 0 then I(0) else s(n - 1);
    if n > 0 {
      assert late(n - 1) == Before(s, n - 1);
      ChangesAt(s, n - 1);
    }
    hide Eval;
  }

  /** The delayed loop: the running sum, paired with the loop's own output two ticks back. */
  lemma {:induction false} DelayedLoop(s: Stream, n: nat)
    ensures var loop := Feedback(Par(Integral, Delay));
      Eval(loop, s, n) == P(SumTo(s, n), if n < 2 then I(0) else Eval(loop, s, n - 2))
  {
    var body := Par(Integral, Delay);
    var alpha := FixStream(body, s);
    var tied := Tied(s, alpha);
    FixEquation(body, s, n);
    Unfold(Feedback(body), s, n);
    Unfold(body, tied, n);
    forall i: nat
      ensures LeftOf(tied)(i) == s(i) && RightOf(tied)(i) == Before(alpha, i)
    {
      assert tied(i) == P(s(i), Before(alpha, i));
    }
    SumAgree(LeftOf(tied), s, n);
    if n > 1 { Unfold(Feedback(body), s, n - 2); }
  }

  // -------------------------------------------------------------- arithmetic

  predicate SameShape(u: Val, v: Val) {
    match (u, v)
    case (I(_), I(_)) => true
    case (P(a, b), P(c, d)) => SameShape(a, c) && SameShape(b, d)
    case _ => false
  }

  /** Adding and subtracting undo each other place by place, adding in any order; and where one side has a
      pair and the other a scalar, the left side is kept. */
  lemma {:induction false} AddSub(u: Val, v: Val)
    ensures SameShape(u, v) ==> u.Add(v).Sub(v) == u && u.Sub(v).Add(v) == u && u.Add(v) == v.Add(u)
    ensures u.P? != v.P? ==> u.Add(v) == u && u.Sub(v) == u
    decreases u
  {
    if u.P? && v.P? {
      AddSub(u.a, v.a);
      AddSub(u.b, v.b);
    }
  }

  // ------------------------------------------------------------- order totals

  ghost function SumSquares(x: nat -> int, n: nat): int {
    if n == 0 then x(0) * x(0) else SumSquares(x, n - 1) + x(n) * x(n)
  }

  /** The order total in closed form: twice the sum of the squares of all ticks so far. */
  lemma {:induction false} OrderTotal(x: nat -> int, n: nat)
    ensures Eval(ORDER_TOTAL_CIRCUIT, (i: nat) => I(x(i)), n) == I(2 * SumSquares(x, n))
  {
    var s: Stream := (i: nat) => I(x(i));
    var lines, doubled := Through(Lift(LineTotal), s), Through(Lift(Double), Through(Lift(LineTotal), s));
    Unfold(ORDER_TOTAL_CIRCUIT, s, n);
    Unfold(Seq(Lift(Double), Integral), lines, n);
    forall i: nat
      ensures doubled(i) == I(2 * (x(i) * x(i)))
    {
      assert lines(i) == I(x(i) * x(i));
    }
    DoubledSquares(x, doubled, n);
  }

  lemma {:induction false} DoubledSquares(x: nat -> int, s: Stream, n: nat)
    requires forall i: nat :: s(i) == I(2 * (x(i) * x(i)))
    ensures SumTo(s, n) == I(2 * SumSquares(x, n))
  {
    if n == 0 {
    } else {
      DoubledSquares(x, s, n - 1);
    }
  }

  /** On ones the total is 2(n + 1); on 0, 1, 2, ... it is n(n + 1)(2n + 1)/3. */
  lemma {:induction false} OrderTotalExamples(n: nat)
    ensures Eval(ORDER_TOTAL_CIRCUIT, (i: nat) => I(1), n) == I(2 * (n + 1))
    ensures exists total :: Eval(ORDER_TOTAL_CIRCUIT, (i: nat) => I(i), n) == I(total)
                            && 3 * total == n * (n + 1) * (2 * n + 1)
  {
    var ones, ticks: nat -> int := (i: nat) => 1, (i: nat) => i;
    OrderTotal(ones, n);
    OrderTotal(ticks, n);
    Squares(n);
    SameOutput(ORDER_TOTAL_CIRCUIT, (i: nat) => I(1), (i: nat) => I(ones(i)), n);
    SameOutput(ORDER_TOTAL_CIRCUIT, (i: nat) => I(i), (i: nat) => I(ticks(i)), n);
    assert Eval(ORDER_TOTAL_CIRCUIT, (i: nat) => I(i), n) == I(2 * SumSquares(ticks, n));
  }

  lemma {:induction false} Squares(n: nat)
    ensures SumSquares((i: nat) => 1, n) == n + 1
    ensures 6 * SumSquares((i: nat) => i, n) == n * (n + 1) * (2 * n + 1)
  {
    if n == 0 {
    } else {
      Squares(n - 1);
      PyramidStep(n);
      var x: nat -> int := (i: nat) => i;
      assert x(n) * x(n) == n * n;
    }
  }

  lemma {:induction false} PyramidStep(n: int)
    ensures n * (n + 1) * (2 * n + 1) == (n - 1) * (n - 1 + 1) * (2 * (n - 1) + 1) + 6 * (n * n)
  {
    var q := n * n;
    assert n * (n + 1) == q + n && (n - 1) * (n - 1 + 1) == q - n;
    assert (q + n) * (2 * n + 1) == 2 * (q * n) + q + 2 * q + n;
    assert (q - n) * (2 * (n - 1) + 1) == 2 * (q * n) - q - 2 * q + n;
  }

  // ------------------------------------------------------------ the rewriting

  predicate Plain(node: Node) {
    match node
    case Incremental(_) => false
    case Seq(f, g) => Plain(f) && Plain(g)
    case Par(f, g) => Plain(f) && Plain(g)
    case Feedback(body) => Plain(body)
    case _ => true
  }

  /** `Incremental` stands on the lifts the oracle does not vouch for, each of them, and nowhere else. */
  predicate Pushed(linear: (int -> int) -> bool, node: Node) {
    match node
    case Incremental(g) => g.Lift? && !linear(g.f)
    case Lift(f) => linear(f)
    case Seq(f, g) => Pushed(linear, f) && Pushed(linear, g)
    case Par(f, g) => Pushed(linear, f) && Pushed(linear, g)
    case Feedback(body) => Pushed(linear, body)
    case _ => true
  }

  /** The circuit with every `Incremental` taken off. */
  function Stripped(node: Node): Node {
    match node
    case Incremental(g) => Stripped(g)
    case Seq(f, g) => Seq(Stripped(f), Stripped(g))
    case Par(f, g) => Par(Stripped(f), Stripped(g))
    case Feedback(body) => Feedback(Stripped(body))
    case _ => node
  }

  /** The rewriting of a plain circuit is the one circuit that is pushed and strips back to it. */
  lemma {:induction false} RewritingIff(linear: (int -> int) -> bool, node: Node, other: Node)
    requires Plain(node)
    ensures other == Incrementalize(linear, node) <==> Pushed(linear, other) && Stripped(other) == node
    decreases node, other
  {
    match (node, other) {
      case (Seq(f, g), Seq(f', g')) => RewritingIff(linear, f, f'); RewritingIff(linear, g, g');
      case (Par(f, g), Par(f', g')) => RewritingIff(linear, f, f'); RewritingIff(linear, g, g');
      case (Feedback(body), Feedback(body')) => RewritingIff(linear, body, body');
      case _ =>
    }
  }
}
