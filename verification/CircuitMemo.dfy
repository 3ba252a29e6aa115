/** The evaluator as the source runs it: running sums in a loop, feedback filling a memo. The
    closures it passes around are spelled out as sources, so that reading one can fill the memos it
    captured. */
module CircuitMemo {
  import opened Circuits
  import opened CircuitLaws

  datatype Cell = Empty | Filled(v: Val)

  class Memo {
    var cells: seq<Cell>

    constructor ()
      ensures cells == []
    {
      cells := [];
    }

    /** The cached value at a tick, if there is one. */
    function Get(i: nat): Cell
      reads this
    {
      if i < |cells| then cells[i] else Empty
    }

    /** Resize with empty cells as far as needed, then fill one. */
    method Set(i: nat, v: Val)
      modifies this
      ensures Get(i) == Filled(v)
      ensures forall j: nat | j != i :: Get(j) == old(Get(j))
    {
      if |cells| <= i {
        cells := cells + seq(i + 1 - |cells|, _ => Empty);
      }
      cells := cells[i := Filled(v)];
    }
  }

  /** A closure over the input: the input itself, or what a node hands to the node it evaluates. */
  datatype Source =
    | Base(s: Stream)
    | Summed(inner: Source)
    | Piped(node: Node, inner: Source)
    | LeftHalf(inner: Source)
    | RightHalf(inner: Source)
    | Looped(body: Node, inner: Source, memo: Memo)

  /** The stream a source stands for. No memo has a say in it. */
  ghost function Den(src: Source): Stream {
    match src
    case Base(s) => s
    case Summed(inner) => Integrated(Den(inner))
    case Piped(node, inner) => Through(node, Den(inner))
    case LeftHalf(inner) => LeftOf(Den(inner))
    case RightHalf(inner) => RightOf(Den(inner))
    case Looped(body, inner, _) => Tied(Den(inner), FixStream(body, Den(inner)))
  }

  ghost function Memos(src: Source): set<Memo> {
    match src
    case Base(_) => {}
    case Looped(_, inner, memo) => Memos(inner) + {memo}
    case _ => Memos(src.inner)
  }

  /** Every filled cell of every memo a source can reach holds the true feedback value. */
  ghost predicate Sound(src: Source)
    reads Memos(src)
  {
    match src
    case Base(_) => true
    case Looped(body, inner, memo) =>
      && memo !in Memos(inner)
      && (forall i: nat | memo.Get(i).Filled? :: memo.Get(i).v == Fix(body, Den(inner), i))
      && Sound(inner)
    case _ => Sound(src.inner)
  }

  lemma {:induction false} MemosAllocated(src: Source)
    ensures forall m :: m in Memos(src) ==> allocated(m)
  {
    if src.Base? {
    } else {
      MemosAllocated(src.inner);
    }
  }

  function NodeSize(node: Node): nat {
    match node
    case Incremental(g) => NodeSize(g) + 3
    case Seq(f, g) => NodeSize(f) + NodeSize(g) + 3
    case Par(f, g) => NodeSize(f) + NodeSize(g) + 3
    case Feedback(body) => NodeSize(body) + 3
    case _ => 3
  }

  function Size(src: Source): nat {
    match src
    case Base(_) => 0
    case Piped(node, inner) => NodeSize(node) + Size(inner) + 1
    case _ => Size(src.inner) + 1
  }

  /** One application of a source. Every nested read is of an earlier tick, or of the same tick
      through a smaller source: that is why the recursion ends. */
  method Read(src: Source, n: nat) returns (v: Val)
    requires Sound(src)
    modifies Memos(src)
    ensures Sound(src) && v == Den(src)(n)
    decreases n, Size(src), 0
  {
    match src {
      case Base(s) => v := s(n);
      case Summed(inner) => v := Sum(inner, n);
      case Piped(node, inner) => v := Run(node, inner, n);
      case LeftHalf(inner) =>
        v := Read(inner, n);
        v := v.Fst();
      case RightHalf(inner) =>
        v := Read(inner, n);
        v := v.Snd();
      case Looped(body, inner, memo) =>
        v := Read(inner, n);
        var late := ZERO;
        if n > 0 {
          late := Go(body, inner, memo, n - 1);
        }
        v := P(v, late);
    }
  }

  /** The running-sum loop. */
  method Sum(src: Source, n: nat) returns (acc: Val)
    requires Sound(src)
    modifies Memos(src)
    ensures Sound(src) && acc == SumTo(Den(src), n)
    decreases n, Size(src), 1
  {
    acc := ZERO;
    var j := 0;
    while j <= n
      invariant j <= n + 1
      invariant Sound(src)
      invariant acc == if j == 0 then ZERO else SumTo(Den(src), j - 1)
    {
      var v := Read(src, j);
      acc := acc.Add(v);
      j := j + 1;
    }
  }

  method Prior(src: Source, n: nat) returns (v: Val)
    requires Sound(src)
    modifies Memos(src)
    ensures Sound(src) && v == Before(Den(src), n)
    decreases n, Size(src), 1
  {
    v := ZERO;
    if n > 0 {
      v := Read(src, n - 1);
    }
  }

  /** The evaluator agrees with the unmemoised one, at every tick, whatever was cached before. */
  method Run(node: Node, src: Source, n: nat) returns (v: Val)
    requires Sound(src)
    modifies Memos(src)
    ensures Sound(src) && v == Eval(node, Den(src), n)
    decreases n, NodeSize(node) + Size(src), 0
  {
    match node {
      case Delay => v := Prior(src, n);
      case Derivative =>
        var prev := Prior(src, n);
        v := Read(src, n);
        v := v.Sub(prev);
      case Integral => v := Sum(src, n);
      case Incremental(g) =>
        var cur := Run(g, Summed(src), n);
        var prev := ZERO;
        if n > 0 {
          prev := Run(g, Summed(src), n - 1);
        }
        v := cur.Sub(prev);
      case Lift(f) =>
        v := Read(src, n);
        if v.I? { v := I(f(v.x)); }
      case Seq(f, g) => v := Run(g, Piped(f, src), n);
      case Par(f, g) =>
        var left := Run(f, LeftHalf(src), n);
        var right := Run(g, RightHalf(src), n);
        v := P(left, right);
      case Feedback(body) =>
        MemosAllocated(src);
        var memo := new Memo();
        v := Go(body, src, memo, n);
    }
  }

  /** The memoised recursion: a cached value is the true one, and the tick asked for ends up cached. */
  method Go(body: Node, src: Source, memo: Memo, i: nat) returns (v: Val)
    requires Sound(Looped(body, src, memo))
    modifies Memos(src), memo
    ensures Sound(Looped(body, src, memo))
    ensures v == Fix(body, Den(src), i)
    ensures memo.Get(i) == Filled(v)
    decreases i, NodeSize(body) + Size(src) + 2, 0
  {
    var looped := Looped(body, src, memo);
    var cached := memo.Get(i);
    if cached.Filled? {
      return cached.v;
    }
    v := Run(body, looped, i);
    FixEquation(body, Den(src), i);
    MemosAllocated(src);
    memo.Set(i, v);
  }

  /** The top-level evaluator: no memo outlives it. */
  method Evaluate(node: Node, s: Stream, n: nat) returns (v: Val)
    ensures v == Eval(node, s, n)
  {
    v := Run(node, Base(s), n);
  }
}
