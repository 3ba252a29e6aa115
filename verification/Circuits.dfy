/** Stream circuits: what each node computes at a tick, feedback as a fixpoint, and the batch
    circuit next to its incremental form. */
module Circuits {

  datatype Val = I(x: int) | P(a: Val, b: Val) {
    function Fst(): Val { if P? then a else this }

    function Snd(): Val { if P? then b else this }

    /** A mismatched pair keeps its left operand. */
    function Add(o: Val): Val {
      match (this, o)
      case (I(x), I(y)) => I(x + y)
      case (P(a1, b1), P(a2, b2)) => P(a1.Add(a2), b1.Add(b2))
      case _ => this
    }

    function Sub(o: Val): Val {
      match (this, o)
      case (I(x), I(y)) => I(x - y)
      case (P(a1, b1), P(a2, b2)) => P(a1.Sub(a2), b1.Sub(b2))
      case _ => this
    }
  }

  /** The one zero there is, whatever the stream carries. */
  const ZERO := I(0)

  datatype Node =
    | Delay
    | Derivative
    | Integral
    | Incremental(g: Node)
    | Lift(f: int -> int)
    | Seq(first: Node, second: Node)
    | Par(left: Node, right: Node)
    | Feedback(body: Node)

  type Stream = nat -> Val

  /** The value one tick ago. */
  function Before(s: Stream, n: nat): Val {
    if n == 0 then ZERO else s(n - 1)
  }

  /** The running sum of ticks 0 to `n`. */
  function SumTo(s: Stream, n: nat): Val {
    (if n == 0 then ZERO else SumTo(s, n - 1)).Add(s(n))
  }

  function Integrated(s: Stream): Stream {
    (n: nat) => SumTo(s, n)
  }

  function LeftOf(s: Stream): Stream {
    (n: nat) => s(n).Fst()
  }

  function RightOf(s: Stream): Stream {
    (n: nat) => s(n).Snd()
  }

  /** The input paired with the delayed output: what a feedback body reads. */
  function Tied(s: Stream, alpha: Stream): Stream {
    (n: nat) => P(s(n), Before(alpha, n))
  }

  /** A node's output at tick `n`. */
  function Eval(node: Node, s: Stream, n: nat): Val
    decreases node, 0, 0
  {
    match node
    case Delay => Before(s, n)
    case Derivative => s(n).Sub(Before(s, n))
    case Integral => Integrated(s)(n)
    case Incremental(g) =>
      Eval(g, Integrated(s), n).Sub(if n == 0 then ZERO else Eval(g, Integrated(s), n - 1))
    case Lift(f) => if s(n).I? then I(f(s(n).x)) else s(n)
    case Seq(f, g) => Eval(g, Through(f, s), n)
    case Par(f, g) => P(Eval(f, LeftOf(s), n), Eval(g, RightOf(s), n))
    case Feedback(body) => Fix(body, s, n)
  }

  /** A node's output as a stream. */
  function Through(node: Node, s: Stream): Stream
    decreases node, 0, 1
  {
    (n: nat) => Eval(node, s, n)
  }

  /** The feedback output at tick `n`, from its own values at earlier ticks and no memo. */
  function Fix(body: Node, s: Stream, n: nat): Val
    decreases body, n, 1
  {
    Eval(body, TiedUpTo(body, s, n), n)
  }

  /** The body's input with the loop cut after tick `n`; nothing reads past that. */
  function TiedUpTo(body: Node, s: Stream, n: nat): Stream
    decreases body, n, 0
  {
    (j: nat) => P(s(j), if 0 < j <= n then Fix(body, s, j - 1) else ZERO)
  }

  function FixStream(body: Node, s: Stream): Stream {
    (n: nat) => Fix(body, s, n)
  }

  // ------------------------------------------------------- the shipped pair

  function LineTotal(x: int): int { x * x }

  function Double(x: int): int { 2 * x }

  const ORDER_TOTAL_CIRCUIT := Seq(Lift(LineTotal), Seq(Lift(Double), Integral))

  const ORDER_TOTAL_INCREMENTAL := Seq(Incremental(Lift(LineTotal)), Seq(Lift(Double), Integral))

  /** Push `Incremental` towards the leaves: gone on delay, derivative, integral and lifts the oracle
      calls linear, left on the other lifts. */
  function Incrementalize(linear: (int -> int) -> bool, node: Node): Node {
    match node
    case Delay => node
    case Derivative => node
    case Integral => node
    case Incremental(g) => Incremental(Incrementalize(linear, g))
    case Lift(f) => if linear(f) then node else Incremental(node)
    case Seq(f, g) => Seq(Incrementalize(linear, f), Incrementalize(linear, g))
    case Par(f, g) => Par(Incrementalize(linear, f), Incrementalize(linear, g))
    case Feedback(body) => Feedback(Incrementalize(linear, body))
  }
}
