/** Incrementalization: the rewriting that pushes `Incremental` towards the leaves keeps the meaning of
    every circuit that leaves none of them on a pair stream. */
module Incrementalization {
  import opened Circuits
  import opened CircuitLaws

  ghost predicate Additive(f: int -> int) {
    forall x, y :: f(x + y) == f(x) + f(y)
  }

  /** The oracle only vouches for lifts that are additive. */
  ghost predicate Truthful(linear: (int -> int) -> bool) {
    forall f | linear(f) :: Additive(f)
  }

  lemma {:induction false} AdditiveSub(f: int -> int, x: int, y: int)
    requires Additive(f)
    ensures f(x) - f(y) == f(x - y) && f(0) == 0
  {
    assert f(0 + 0) == f(0) + f(0);
    assert f(x - y + y) == f(x - y) + f(y);
  }

  /** A node that is its own incremental form. */
  lemma {:induction false} LeafIncremental(node: Node, s: Stream, n: nat)
    requires node.Delay? || node.Derivative? || node.Integral? || (node.Lift? && Additive(node.f))
    requires Scalar(s)
    ensures Eval(Incremental(node), s, n) == Eval(node, s, n)
  {
    var sum := Integrated(s);
    IntegratedScalar(s);
    assert s(n).I? && sum(n).I?;
    if n > 0 {
      assert s(n - 1).I? && sum(n - 1).I? && sum(n) == sum(n - 1).Add(s(n));
      if n > 1 { assert sum(n - 2).I? && sum(n - 1) == sum(n - 2).Add(s(n - 1)); }
    }
    match node {
      case Delay =>
      case Derivative =>
      case Integral => SumScalar(sum, n); if n > 0 { SumScalar(sum, n - 1); }
      case Lift(f) => AdditiveSub(f, sum(n).x, if n == 0 then 0 else sum(n - 1).x);
    }
  }

  /** The node computes its own incremental form at every tick of the stream. */
  ghost predicate OwnIncremental(node: Node, s: Stream) {
    forall n: nat :: Eval(Incremental(node), s, n) == Eval(node, s, n)
  }

  /** Which lifts may lose their `Incremental`: exactly the additive ones. */
  lemma {:induction false} LiftDropIff(f: int -> int)
    ensures (forall s: Stream | Scalar(s) :: OwnIncremental(Lift(f), s)) <==> Additive(f)
  {
    if Additive(f) {
      forall s: Stream | Scalar(s)
        ensures OwnIncremental(Lift(f), s)
      {
        forall n: nat
          ensures Eval(Incremental(Lift(f)), s, n) == Eval(Lift(f), s, n)
        {
          LeafIncremental(Lift(f), s, n);
        }
      }
    }
    if forall s: Stream | Scalar(s) :: OwnIncremental(Lift(f), s) {
      forall x, y
        ensures f(x + y) == f(x) + f(y)
      {
        var s: Stream := (n: nat) => I(if n == 0 then x else y);
        assert SumTo(s, 0) == I(x) && SumTo(s, 1) == I(x + y);
        assert Scalar(s);
        assert OwnIncremental(Lift(f), s);
        assert Eval(Incremental(Lift(f)), s, 1) == Eval(Lift(f), s, 1) == I(f(y));
        assert Eval(Incremental(Lift(f)), s, 1) == I(f(x + y) - f(x));
      }
    }
  }

  // ------------------------------------------- fed differences, out differences

  /** The differences of a stream, tick by tick. */
  function Changes(s: Stream): Stream {
    Through(Derivative, s)
  }

  lemma {:induction false} SubZero(v: Val)
    ensures v.Sub(ZERO) == v
  {
  }

  /** Taking a pair apart and subtracting, zero standing in for a pair of zeros. */
  lemma {:induction false} SubPair(u: Val, v: Val)
    requires u.P? && (v.P? || v == ZERO)
    ensures u.Sub(v) == P(u.a.Sub(if v.P? then v.a else ZERO), u.b.Sub(if v.P? then v.b else ZERO))
  {
    SubZero(u.a);
    SubZero(u.b);
  }

  /** What composite nodes output, in terms of their parts. */
  lemma {:induction false} Unfold(node: Node, s: Stream, n: nat)
    ensures match node
      case Incremental(g) => Eval(node, s, n) == Changes(Through(g, Integrated(s)))(n)
      case Seq(f, g) => Eval(node, s, n) == Through(g, Through(f, s))(n)
      case Par(f, g) => Eval(node, s, n) == P(Through(f, LeftOf(s))(n), Through(g, RightOf(s))(n))
      case Feedback(body) => Eval(node, s, n) == FixStream(body, s)(n)
      case _ => true
  {
  }

  lemma {:induction false} ChangesAt(s: Stream, n: nat)
    ensures Changes(s)(n) == s(n).Sub(Before(s, n))
  {
  }

  lemma {:induction false} SameOutput(node: Node, s: Stream, t: Stream, n: nat)
    requires forall i: nat :: s(i) == t(i)
    ensures Eval(node, s, n) == Eval(node, t, n)
  {
    Causal(node, s, t, n);
  }

  /** Incremental of a composition is the composition of the incrementals, for every second stage,
      exactly when the first stage turns running sums into scalars. */
  lemma {:induction false} IncrementalSeqIff(f: Node, s: Stream)
    ensures (forall g: Node, n: nat ::
               Eval(Incremental(Seq(f, g)), s, n) == Eval(Incremental(g), Through(Incremental(f), s), n)) <==>
            Scalar(Through(f, Integrated(s)))
  {
    var out, mid := Through(f, Integrated(s)), Through(Incremental(f), s);
    if Scalar(out) {
      forall g: Node, n: nat
        ensures Eval(Incremental(Seq(f, g)), s, n) == Eval(Incremental(g), mid, n)
      {
        IncrementalSeq(f, g, s, n);
      }
    } else {
      var k: nat :| out(k).P?;
      DelayTells(f, s, k);
    }
  }

  /** Behind a stage that outputs a pair on running sums, a delay already tells the two apart. */
  lemma {:induction false} DelayTells(f: Node, s: Stream, k: nat)
    requires Through(f, Integrated(s))(k).P?
    ensures Eval(Incremental(Seq(f, Delay)), s, k + 1) != Eval(Incremental(Delay), Through(Incremental(f), s), k + 1)
  {
    LatePair(f, Integrated(s), k);
    LateScalar(Through(Incremental(f), s), k);
    Unfold(Incremental(Seq(f, Delay)), s, k + 1);
  }

  lemma {:induction false} LatePair(f: Node, s: Stream, k: nat)
    requires Through(f, s)(k).P?
    ensures Changes(Through(Seq(f, Delay), s))(k + 1).P?
  {
    var whole := Through(Seq(f, Delay), s);
    Unfold(Seq(f, Delay), s, k + 1);
    assert whole(k + 1) == Through(f, s)(k);
    ChangesAt(whole, k + 1);
    hide Eval;
  }

  lemma {:induction false} LateScalar(s: Stream, k: nat)
    ensures Eval(Incremental(Delay), s, k + 1).I?
  {
    SumScalar(s, k);
    Unfold(Incremental(Delay), s, k + 1);
    ChangesAt(Through(Delay, Integrated(s)), k + 1);
  }

  lemma {:induction false} IncrementalSeq(f: Node, g: Node, s: Stream, n: nat)
    requires Scalar(Through(f, Integrated(s)))
    ensures Eval(Incremental(Seq(f, g)), s, n) == Eval(Incremental(g), Through(Incremental(f), s), n)
  {
    var out, mid := Through(f, Integrated(s)), Through(Incremental(f), s);
    forall i: nat
      ensures Integrated(mid)(i) == out(i)
    {
      forall j: nat | j <= i ensures mid(j) == Changes(out)(j) { Unfold(Incremental(f), s, j); }
      SumAgree(mid, Changes(out), i);
      Telescope(out, i);
    }
    hide Scalar, SumTo;
    SameOutput(g, Integrated(mid), out, n);
    if n > 0 { SameOutput(g, Integrated(mid), out, n - 1); }
  }

  /** Incremental of parallel branches is the parallel of their incrementals, on every stream. */
  lemma {:induction false} IncrementalPar(f: Node, g: Node, s: Stream, n: nat)
    ensures Eval(Incremental(Par(f, g)), s, n) == P(Eval(Incremental(f), s, n), Eval(Incremental(g), s, n))
  {
    var sum, node := Integrated(s), Par(f, g);
    IntegratedScalar(s);
    forall i: nat
      ensures Through(node, sum)(i) == P(Through(f, sum)(i), Through(g, sum)(i))
    {
      ParScalar(f, g, sum, i);
    }
    Unfold(Incremental(node), s, n);
    Unfold(Incremental(f), s, n);
    Unfold(Incremental(g), s, n);
    hide Eval, Integrated;
    SubPair(Through(node, sum)(n), Before(Through(node, sum), n));
  }

  /** On a scalar stream both branches read the stream itself. */
  lemma {:induction false} ParScalar(f: Node, g: Node, s: Stream, n: nat)
    requires Scalar(s)
    ensures Eval(Par(f, g), s, n) == P(Eval(f, s, n), Eval(g, s, n))
  {
    Causal(f, LeftOf(s), s, n);
    Causal(g, RightOf(s), s, n);
  }

  /** Fed the differences of `s`, the rewritten node outputs the differences of the node's own output
      on `s`. */
  ghost predicate Commutes(linear: (int -> int) -> bool, node: Node, s: Stream) {
    forall n: nat :: Eval(Incrementalize(linear, node), Changes(s), n) == Changes(Through(node, s))(n)
  }

  /** On this input, every lift that ever reads a pair is vouched for: the rewriting leaves no
      `Incremental` of a lift on a stream with pairs in it. */
  ghost predicate Vouched(linear: (int -> int) -> bool, node: Node, s: Stream) {
    match node
    case Lift(f) => linear(f) || Scalar(s)
    case Incremental(g) => Vouched(linear, g, Integrated(s))
    case Seq(f, g) => Vouched(linear, f, s) && Vouched(linear, g, Through(f, s))
    case Par(f, g) => Vouched(linear, f, LeftOf(s)) && Vouched(linear, g, RightOf(s))
    case Feedback(body) => Vouched(linear, body, Tied(s, FixStream(body, s)))
    case _ => true
  }

  // ------------------------------------------------------ pairs grow out of zeros

  /** `v` may come after `u`: a place never goes back from a pair to a scalar, and until it holds a
      pair it holds zero. */
  predicate Leads(u: Val, v: Val) {
    match (u, v)
    case (I(x), P(_, _)) => x == 0
    case (P(a, b), P(c, d)) => Leads(a, c) && Leads(b, d)
    case (P(_, _), I(_)) => false
    case _ => true
  }

  /** Up to tick `n`, later values may follow earlier ones. */
  ghost predicate Grows(s: Stream, n: nat) {
    forall i: nat, j: nat | i <= j <= n :: Leads(s(i), s(j))
  }

  lemma {:induction false} LeadsSelf(v: Val)
    ensures Leads(v, v)
  {
    match v {
      case I(_) =>
      case P(a, b) => LeadsSelf(a); LeadsSelf(b);
    }
  }

  /** Differences follow each other as the values did: `a`, `b` and later `c`, `d`. */
  lemma {:induction false} LeadsSub(a: Val, b: Val, c: Val, d: Val)
    requires Leads(a, b) && Leads(b, c) && Leads(c, d) && Leads(a, d) && Leads(b, d)
    ensures Leads(b.Sub(a), d.Sub(c))
    decreases b
  {
    match b {
      case I(_) =>
        assert a.I? && b.Sub(a) == I(b.x - a.x);
        assert d.I? ==> d.Sub(c).I?;
      case P(b1, b2) =>
        var a1, a2 := if a.P? then a.a else ZERO, if a.P? then a.b else ZERO;
        assert Leads(a1, b1) && Leads(a2, b2) && Leads(a1, d.a) && Leads(a2, d.b);
        SubPair(b, a);
        SubPair(d, c);
        hide Val.Sub;
        LeadsSub(a1, b1, c.a, d.a);
        LeadsSub(a2, b2, c.b, d.b);
    }
  }

  lemma {:induction false} DerivativeGrows(s: Stream, n: nat)
    requires Grows(s, n)
    ensures Grows(Changes(s), n)
  {
    forall i: nat, j: nat | i <= j <= n
      ensures Leads(Changes(s)(i), Changes(s)(j))
    {
      if i == j {
        LeadsSelf(Changes(s)(i));
      } else {
        assert Leads(s(i), s(j - 1)) && Leads(s(j - 1), s(j)) && Leads(s(i), s(j));
        assert i > 0 ==> Leads(s(i - 1), s(i)) && Leads(s(i - 1), s(j));
        LeadsSub(Before(s, i), s(i), s(j - 1), s(j));
      }
    }
  }

  lemma {:induction false} ScalarGrows(s: Stream, n: nat)
    requires Scalar(s)
    ensures Grows(s, n)
  {
    forall i: nat, j: nat | i <= j <= n
      ensures Leads(s(i), s(j))
    {
      assert s(i).I? && s(j).I?;
    }
  }

  /** Pairs grow out of zeros behind every circuit whose lifts on pairs are vouched for. */
  lemma {:induction false} GrowsThrough(linear: (int -> int) -> bool, node: Node, s: Stream, n: nat)
    requires Truthful(linear) && Vouched(linear, node, s) && Grows(s, n)
    ensures Grows(Through(node, s), n)
    decreases node, 0, 0
  {
    match node {
      case Delay =>
        forall i: nat, j: nat | i <= j <= n
          ensures Leads(Before(s, i), Before(s, j))
        {
          if 0 < i { assert Leads(s(i - 1), s(j - 1)); }
        }
      case Derivative => DerivativeGrows(s, n);
      case Integral =>
        IntegratedScalar(s);
        ScalarGrows(Integrated(s), n);
        forall i: nat ensures Through(node, s)(i) == Integrated(s)(i) {}
      case Lift(f) => LiftGrows(linear, f, s, n);
      case Incremental(g) =>
        IntegratedScalar(s);
        ScalarGrows(Integrated(s), n);
        GrowsThrough(linear, g, Integrated(s), n);
        DerivativeGrows(Through(g, Integrated(s)), n);
        forall i: nat ensures Through(node, s)(i) == Changes(Through(g, Integrated(s)))(i) { Unfold(node, s, i); }
      case Seq(f, g) =>
        GrowsThrough(linear, f, s, n);
        GrowsThrough(linear, g, Through(f, s), n);
        forall i: nat ensures Through(node, s)(i) == Through(g, Through(f, s))(i) { Unfold(node, s, i); }
      case Par(f, g) =>
        SidesGrow(s, n);
        GrowsThrough(linear, f, LeftOf(s), n);
        GrowsThrough(linear, g, RightOf(s), n);
        forall i: nat, j: nat | i <= j <= n
          ensures Leads(Through(node, s)(i), Through(node, s)(j))
        {
          Unfold(node, s, i);
          Unfold(node, s, j);
          assert Leads(Through(f, LeftOf(s))(i), Through(f, LeftOf(s))(j));
          assert Leads(Through(g, RightOf(s))(i), Through(g, RightOf(s))(j));
        }
      case Feedback(body) =>
        FixGrows(linear, body, s, n);
        forall i: nat ensures Through(node, s)(i) == FixStream(body, s)(i) { Unfold(node, s, i); }
    }
  }

  lemma {:induction false} LiftGrows(linear: (int -> int) -> bool, f: int -> int, s: Stream, n: nat)
    requires Truthful(linear) && (linear(f) || Scalar(s)) && Grows(s, n)
    ensures Grows(Through(Lift(f), s), n)
  {
    if linear(f) { AdditiveSub(f, 0, 0); }
    forall i: nat, j: nat | i <= j <= n
      ensures Leads(Through(Lift(f), s)(i), Through(Lift(f), s)(j))
    {
      assert Leads(s(i), s(j)) && (Scalar(s) ==> s(i).I? && s(j).I?);
      var u, v := Eval(Lift(f), s, i), Eval(Lift(f), s, j);
      assert u == if s(i).I? then I(f(s(i).x)) else s(i);
      assert v == if s(j).I? then I(f(s(j).x)) else s(j);
    }
  }

  lemma {:induction false} SidesGrow(s: Stream, n: nat)
    requires Grows(s, n)
    ensures Grows(LeftOf(s), n) && Grows(RightOf(s), n)
  {
    forall i: nat, j: nat | i <= j <= n
      ensures Leads(LeftOf(s)(i), LeftOf(s)(j)) && Leads(RightOf(s)(i), RightOf(s)(j))
    {
      assert Leads(s(i), s(j));
    }
  }

  lemma {:induction false} FixGrows(linear: (int -> int) -> bool, body: Node, s: Stream, n: nat)
    requires Truthful(linear) && Vouched(linear, body, Tied(s, FixStream(body, s))) && Grows(s, n)
    ensures Grows(FixStream(body, s), n)
    decreases body, n, 2
  {
    var alpha := FixStream(body, s);
    var tied := Tied(s, alpha);
    TiedGrows(linear, body, s, n);
    GrowsThrough(linear, body, tied, n);
    forall i: nat | i <= n
      ensures alpha(i) == Through(body, tied)(i)
    {
      FixEquation(body, s, i);
    }
  }

  lemma {:induction false} TiedGrows(linear: (int -> int) -> bool, body: Node, s: Stream, n: nat)
    requires Truthful(linear) && Vouched(linear, body, Tied(s, FixStream(body, s))) && Grows(s, n)
    ensures Grows(Tied(s, FixStream(body, s)), n)
    decreases body, n, 1
  {
    var alpha := FixStream(body, s);
    var tied := Tied(s, alpha);
    if n == 0 {
    } else {
      assert Grows(s, n - 1);
      FixGrows(linear, body, s, n - 1);
    }
    forall i: nat, j: nat | i <= j <= n
      ensures Leads(tied(i), tied(j))
    {
      assert Leads(s(i), s(j));
      assert Leads(Before(alpha, i), Before(alpha, j)) by {
        if 0 < i { assert Leads(alpha(i - 1), alpha(j - 1)); }
      }
    }
  }

  // --------------------------------------------------- the rewriting is correct

  lemma {:induction false} SumOfChanges(s: Stream, n: nat)
    requires Grows(s, n)
    ensures SumTo(Changes(s), n) == ScalarPart(s(n))
  {
    if n == 0 {
    } else {
      SumOfChanges(s, n - 1);
      assert Leads(s(n - 1), s(n));
    }
  }

  lemma {:induction false} CommutesIntegral(linear: (int -> int) -> bool, s: Stream)
    requires forall n: nat :: Grows(s, n)
    ensures Commutes(linear, Integral, s)
  {
    forall n: nat
      ensures SumTo(Changes(s), n) == Changes(Through(Integral, s))(n)
    {
      SumOfChanges(s, n);
      DerivativeOfIntegral(s, n);
      SameOutput(Derivative, Through(Integral, s), Integrated(s), n);
    }
  }

  lemma {:induction false} CommutesLift(linear: (int -> int) -> bool, f: int -> int, s: Stream)
    requires Truthful(linear) && (linear(f) || Scalar(s))
    ensures Commutes(linear, Lift(f), s)
  {
    var node := Lift(f);
    forall n: nat
      ensures Eval(Incrementalize(linear, node), Changes(s), n) == Changes(Through(node, s))(n)
    {
      if linear(f) {
        AdditiveSub(f, if s(n).I? then s(n).x else 0, if n > 0 && s(n - 1).I? then s(n - 1).x else 0);
      } else {
        Telescope(s, n);
        assert s(n).I?;
        if n > 0 {
          Telescope(s, n - 1);
          assert s(n - 1).I?;
        }
      }
    }
  }

  lemma {:induction false} CommutesIncremental(linear: (int -> int) -> bool, g: Node, s: Stream)
    requires forall n: nat :: Grows(s, n)
    requires Commutes(linear, g, Integrated(s))
    ensures Commutes(linear, Incremental(g), s)
  {
    var sum, g' := Integrated(s), Incrementalize(linear, g);
    var diffs := Changes(Through(g, sum));
    forall i: nat
      ensures Integrated(Changes(s))(i) == Changes(sum)(i)
    {
      SumOfChanges(s, i);
      DerivativeOfIntegral(s, i);
    }
    forall i: nat
      ensures Through(g', Integrated(Changes(s)))(i) == diffs(i)
      ensures Through(Incremental(g), s)(i) == diffs(i)
    {
      SameOutput(g', Integrated(Changes(s)), Changes(sum), i);
      Unfold(Incremental(g), s, i);
    }
    forall n: nat
      ensures Eval(Incremental(g'), Changes(s), n) == Changes(Through(Incremental(g), s))(n)
    {
      Unfold(Incremental(g'), Changes(s), n);
      SameOutput(Derivative, Through(g', Integrated(Changes(s))), diffs, n);
      SameOutput(Derivative, Through(Incremental(g), s), diffs, n);
    }
  }

  lemma {:induction false} CommutesSeq(linear: (int -> int) -> bool, f: Node, g: Node, s: Stream)
    requires Commutes(linear, f, s) && Commutes(linear, g, Through(f, s))
    ensures Commutes(linear, Seq(f, g), s)
  {
    var f', g' := Incrementalize(linear, f), Incrementalize(linear, g);
    forall i: nat
      ensures Through(f', Changes(s))(i) == Changes(Through(f, s))(i)
      ensures Through(Seq(f, g), s)(i) == Through(g, Through(f, s))(i)
    {
      Unfold(Seq(f, g), s, i);
    }
    forall n: nat
      ensures Eval(Seq(f', g'), Changes(s), n) == Changes(Through(Seq(f, g), s))(n)
    {
      Unfold(Seq(f', g'), Changes(s), n);
      SameOutput(g', Through(f', Changes(s)), Changes(Through(f, s)), n);
      SameOutput(Derivative, Through(Seq(f, g), s), Through(g, Through(f, s)), n);
    }
  }

  /** Splitting a stream and taking differences commute. */
  lemma {:induction false} SidesChange(s: Stream, n: nat)
    requires Grows(s, n)
    ensures Changes(LeftOf(s))(n) == LeftOf(Changes(s))(n)
    ensures Changes(RightOf(s))(n) == RightOf(Changes(s))(n)
  {
    var before := Before(s, n);
    assert Leads(before, s(n)) by { if n > 0 { assert Leads(s(n - 1), s(n)); } }
    ChangesAt(s, n);
    ChangesAt(LeftOf(s), n);
    ChangesAt(RightOf(s), n);
    assert Before(LeftOf(s), n) == before.Fst() && Before(RightOf(s), n) == before.Snd();
    if s(n).P? {
      SubPair(s(n), before);
    }
  }

  lemma {:induction false} CommutesPar(linear: (int -> int) -> bool, f: Node, g: Node, s: Stream)
    requires forall n: nat :: Grows(s, n)
    requires Commutes(linear, f, LeftOf(s)) && Commutes(linear, g, RightOf(s))
    ensures Commutes(linear, Par(f, g), s)
  {
    var f', g' := Incrementalize(linear, f), Incrementalize(linear, g);
    var left, right := LeftOf(s), RightOf(s);
    forall i: nat
      ensures Changes(left)(i) == LeftOf(Changes(s))(i)
      ensures Changes(right)(i) == RightOf(Changes(s))(i)
    {
      SidesChange(s, i);
    }
    forall n: nat
      ensures Eval(Par(f', g'), Changes(s), n) == Changes(Through(Par(f, g), s))(n)
    {
      Unfold(Par(f', g'), Changes(s), n);
      SameOutput(f', Changes(left), LeftOf(Changes(s)), n);
      SameOutput(g', Changes(right), RightOf(Changes(s)), n);
      ParChanges(f, g, s, n);
    }
  }

  lemma {:induction false} ParChanges(f: Node, g: Node, s: Stream, n: nat)
    ensures Changes(Through(Par(f, g), s))(n) ==
            P(Changes(Through(f, LeftOf(s)))(n), Changes(Through(g, RightOf(s)))(n))
  {
    var whole := Through(Par(f, g), s);
    Unfold(Par(f, g), s, n);
    if n > 0 { Unfold(Par(f, g), s, n - 1); }
    ChangesAt(whole, n);
    ChangesAt(Through(f, LeftOf(s)), n);
    ChangesAt(Through(g, RightOf(s)), n);
    hide Eval;
    SubPair(whole(n), Before(whole, n));
  }

  /** Closing the loop: the differences of the feedback output solve the rewritten feedback's equation,
      and that has one solution. */
  lemma {:induction false} CommutesFeedback(linear: (int -> int) -> bool, body: Node, s: Stream)
    requires Commutes(linear, body, Tied(s, FixStream(body, s)))
    ensures Commutes(linear, Feedback(body), s)
  {
    var alpha, body' := FixStream(body, s), Incrementalize(linear, body);
    var tied := Tied(s, alpha);
    forall i: nat
      ensures alpha(i) == Through(body, tied)(i) == Through(Feedback(body), s)(i)
      ensures Changes(tied)(i) == Tied(Changes(s), Changes(alpha))(i)
    {
      FixEquation(body, s, i);
      Unfold(Feedback(body), s, i);
      TiedChanges(s, alpha, i);
    }
    forall n: nat
      ensures Changes(alpha)(n) == Eval(body', Tied(Changes(s), Changes(alpha)), n)
    {
      SameOutput(Derivative, alpha, Through(body, tied), n);
      SameOutput(body', Changes(tied), Tied(Changes(s), Changes(alpha)), n);
    }
    assert Solves(body', Changes(s), Changes(alpha));
    forall n: nat
      ensures Eval(Feedback(body'), Changes(s), n) == Changes(Through(Feedback(body), s))(n)
    {
      FixUnique(body', Changes(s), Changes(alpha), n);
      Unfold(Feedback(body'), Changes(s), n);
      SameOutput(Derivative, Through(Feedback(body), s), alpha, n);
    }
  }

  /** What a feedback body reads, in differences. */
  lemma {:induction false} TiedChanges(s: Stream, alpha: Stream, n: nat)
    ensures Changes(Tied(s, alpha))(n) == Tied(Changes(s), Changes(alpha))(n)
  {
    var tied := Tied(s, alpha);
    ChangesAt(tied, n);
    ChangesAt(s, n);
    SubPair(tied(n), Before(tied, n));
    if n > 0 { ChangesAt(alpha, n - 1); }
  }

  /** The rewriting commutes with differences for every circuit whose lifts on pairs are vouched for,
      feedback included, on every stream whose pairs grow out of zeros. */
  lemma {:induction false} VouchedCommutes(linear: (int -> int) -> bool, node: Node, s: Stream)
    requires Truthful(linear) && Vouched(linear, node, s)
    requires forall n: nat :: Grows(s, n)
    ensures Commutes(linear, node, s)
    decreases node
  {
    match node {
      case Delay =>
      case Derivative =>
      case Integral => CommutesIntegral(linear, s);
      case Lift(f) => CommutesLift(linear, f, s);
      case Incremental(g) =>
        IntegratedScalar(s);
        forall n: nat ensures Grows(Integrated(s), n) { ScalarGrows(Integrated(s), n); }
        VouchedCommutes(linear, g, Integrated(s));
        CommutesIncremental(linear, g, s);
      case Seq(f, g) =>
        VouchedCommutes(linear, f, s);
        forall n: nat ensures Grows(Through(f, s), n) { GrowsThrough(linear, f, s, n); }
        VouchedCommutes(linear, g, Through(f, s));
        CommutesSeq(linear, f, g, s);
      case Par(f, g) =>
        forall n: nat ensures Grows(LeftOf(s), n) && Grows(RightOf(s), n) { SidesGrow(s, n); }
        VouchedCommutes(linear, f, LeftOf(s));
        VouchedCommutes(linear, g, RightOf(s));
        CommutesPar(linear, f, g, s);
      case Feedback(body) =>
        var tied := Tied(s, FixStream(body, s));
        forall n: nat ensures Grows(tied, n) { TiedGrows(linear, body, s, n); }
        VouchedCommutes(linear, body, tied);
        CommutesFeedback(linear, body, s);
    }
  }

  /** Incrementalization preserves meaning: on scalar input, at every tick, the rewritten circuit
      outputs what `Incremental` of the whole circuit outputs, for every circuit in which each lift that
      ever reads a pair is vouched for. */
  lemma {:induction false} IncrementalizeCorrect(linear: (int -> int) -> bool, node: Node, s: Stream, n: nat)
    requires Truthful(linear) && Vouched(linear, node, Integrated(s)) && Scalar(s)
    ensures Eval(Incrementalize(linear, node), s, n) == Eval(Incremental(node), s, n)
  {
    hide Vouched, Grows, SumTo;
    var sum := Integrated(s);
    IntegratedScalar(s);
    forall i: nat ensures Grows(sum, i) { ScalarGrows(sum, i); }
    VouchedCommutes(linear, node, sum);
    forall i: nat
      ensures Changes(sum)(i) == s(i)
    {
      DerivativeOfIntegral(s, i);
    }
    SameOutput(Incrementalize(linear, node), s, Changes(sum), n);
    Unfold(Incremental(node), s, n);
  }
}
