/** Exactly which texts are types: the rendering, with any leading zeros in tensor dimensions. That the
    parser inverts the renderer follows. */
module SnapshotTypeSpelling {
  import opened Wire
  import opened SnapshotTypes
  import opened SnapshotTypeLaws

  // ------------------------------------------------------------- the spellings

  /** A digit string worth `n`. */
  predicate SpellsDim(n: nat, e: string) {
    e != "" && (forall i | 0 <= i < |e| :: '0' <= e[i] <= '9') && Decimal(e) == n
  }

  ghost predicate SpellsDims(dims: seq<u64>, e: string) {
    if dims == [] then e == ""
    else exists d, more :: SpellsDim(dims[0], d) && SpellsDims(dims[1..], more) && e == d + (";" + more)
  }

  /** The type's rendering, but for the digits of its dimensions. */
  ghost predicate SpellsTy(ty: Ty, e: string) {
    match ty
    case Opt(t) => exists a :: SpellsTy(t, a) && e == Applied(HOpt, a)
    case List(t) => exists a :: SpellsTy(t, a) && e == Applied(HList, a)
    case Future(t) => exists a :: SpellsTy(t, a) && e == Applied(HFuture, a)
    case Stream(t) => exists a :: SpellsTy(t, a) && e == Applied(HStream, a)
    case Set(t) => exists a :: SpellsTy(t, a) && e == Applied(HSet, a)
    case Res(x, y) => exists a, b :: SpellsTy(x, a) && SpellsTy(y, b) && e == Applied(HRes, a + "," + b)
    case Map(x, y) => exists a, b :: SpellsTy(x, a) && SpellsTy(y, b) && e == Applied(HMap, a + "," + b)
    case Tensor(dims, t) => exists a, b :: SpellsDims(dims, a) && SpellsTy(t, b) && e == Applied(HTensor, a + b)
    case Named(name) => e == Applied(HTy, name)
    case _ => e == AtomText(ty)
  }

  function Zeros(n: nat): string {
    seq(n, _ => '0')
  }

  /** A digit string worth `n` is the decimal rendering of `n` behind some zeros, and nothing else is. */
  lemma {:induction false} DimIff(n: nat, e: string)
    ensures SpellsDim(n, e) <==> exists zeros: nat :: e == Zeros(zeros) + RenderNat(n)
  {
    if SpellsDim(n, e) {
      var zeros := LeadingZeros(n, e);
      assert e == Zeros(zeros) + RenderNat(n);
    }
    forall zeros: nat | e == Zeros(zeros) + RenderNat(n)
      ensures SpellsDim(n, e)
    {
      Padded(n, zeros);
    }
  }

  lemma {:induction false} Padded(n: nat, zeros: nat)
    ensures SpellsDim(n, Zeros(zeros) + RenderNat(n))
  {
    var z := Zeros(zeros);
    hide RenderNat;
    DecimalRender(n);
    var e := z + RenderNat(n);
    assert forall i | 0 <= i < |e| :: '0' <= e[i] <= '9' by {
      assert forall i | 0 <= i < |RenderNat(n)| :: Digit(RenderNat(n)[i]);
    }
    PaddedValue(z, RenderNat(n));
  }

  lemma {:induction false} PaddedValue(z: string, ds: string)
    requires (forall i | 0 <= i < |z| :: z[i] == '0') && forall i | 0 <= i < |ds| :: Digit(ds[i])
    ensures Decimal(z + ds) == Decimal(ds)
    decreases |z| + |ds|
  {
    var e := z + ds;
    if ds == "" {
      assert e == z;
      if z == "" {
      } else {
        assert z[..|z| - 1] + "" == z[..|z| - 1];
        PaddedValue(z[..|z| - 1], "");
      }
    } else {
      assert e[..|e| - 1] == z + ds[..|ds| - 1];
      PaddedValue(z, ds[..|ds| - 1]);
    }
  }

  lemma {:induction false} LeadingZeros(n: nat, e: string) returns (zeros: nat)
    requires SpellsDim(n, e)
    ensures e == Zeros(zeros) + RenderNat(n)
    decreases |e|
  {
    var front, last := e[..|e| - 1], e[|e| - 1];
    assert Digit(last);
    var d := last as int - '0' as int;
    assert n == 10 * Decimal(front) + d && n % 10 == d && n / 10 == Decimal(front);
    assert e == front + [last];
    if Decimal(front) == 0 {
      AllZeros(front);
      zeros := |front|;
      assert RenderNat(n) == [last];
    } else {
      zeros := LeadingZeros(n / 10, front);
      assert RenderNat(n) == RenderNat(n / 10) + [last];
    }
  }

  lemma {:induction false} AllZeros(ds: string)
    requires (forall i | 0 <= i < |ds| :: Digit(ds[i])) && Decimal(ds) == 0
    ensures ds == Zeros(|ds|)
    decreases |ds|
  {
    if ds == "" {
    } else {
      var front, last := ds[..|ds| - 1], ds[|ds| - 1];
      assert Digit(last);
      AllZeros(front);
      assert ds == front + [last];
    }
  }

  // ------------------------------------------------------------ spelled, so read

  lemma {:induction false} DimRead(dim: u64, d: string, more: string)
    requires SpellsDim(dim, d)
    ensures ParseDims(d + (";" + more)) ==
      match ParseDims(more) case Done(dims, rest) => Done([dim] + dims, rest) case Error(e) => Error(e)
  {
    hide Decimal, Span;
    var cs := d + (";" + more);
    SpanExact(d, ";" + more, Digit);
    assert cs[|d| + 1..] == more;
  }

  lemma {:induction false} DimsTaken(dims: seq<u64>, e: string) returns (d: string, more: string)
    requires SpellsDims(dims, e) && dims != []
    ensures e == d + (";" + more) && SpellsDim(dims[0], d) && SpellsDims(dims[1..], more)
  {
    hide SpellsDim;
    d, more :| SpellsDim(dims[0], d) && SpellsDims(dims[1..], more) && e == d + (";" + more);
  }

  lemma {:induction false} DimsJoined(dims: seq<u64>, d: string, more: string)
    requires dims != [] && SpellsDim(dims[0], d) && SpellsDims(dims[1..], more)
    ensures SpellsDims(dims, d + (";" + more))
  {
    hide SpellsDim;
  }

  lemma {:induction false} NoDimsSpelled(e: string)
    ensures SpellsDims([], e) <==> e == ""
  {
  }

  lemma {:induction false} NoDimsRead(cs: string)
    ensures cs == "" || !Digit(cs[0]) <==> Span(cs, Digit) == 0
    ensures Span(cs, Digit) == 0 ==> ParseDims(cs) == Done([], cs)
  {
    hide Decimal;
  }

  lemma {:induction false} DimsRead(dims: seq<u64>, e: string, rest: string)
    requires SpellsDims(dims, e) && (rest == "" || !Digit(rest[0]))
    ensures ParseDims(e + rest) == Done(dims, rest)
    decreases |dims|
  {
    hide ParseDims, SpellsDims, SpellsDim;
    if dims == [] {
      NoDimsSpelled(e);
      assert e + rest == rest;
      NoDimsRead(rest);
    } else {
      var d, more := DimsTaken(dims, e);
      assert e + rest == d + (";" + (more + rest));
      DimRead(dims[0], d, more + rest);
      DimsRead(dims[1..], more, rest);
      assert [dims[0]] + dims[1..] == dims;
    }
  }

  lemma {:induction false} ReadAtom(ty: Ty, rest: string, depth: nat)
    requires IsAtom(ty) && depth <= MAX_TY_DEPTH && Ends(rest)
    ensures ParseTyAt(AtomText(ty) + rest, depth) == Done(ty, rest)
  {
    hide ParseTyAt, Headed, AtomText;
    ReadHead(Atom(ty), rest);
    ParseAtom(ty, AtomText(ty) + rest, rest, depth);
  }

  lemma {:induction false} ReadOne(h: Head, t: Ty, a: string, rest: string, depth: nat)
    requires OneArgument(h) && (h.HSet? ==> IsKeyTy(t))
    requires depth <= MAX_TY_DEPTH && ParseTyAt(a + (")" + rest), depth + 1) == Done(t, ")" + rest)
    ensures ParseTyAt(Applied(h, a) + rest, depth) == Done(WrapOne(h, t), rest)
  {
    hide ParseTyAt, Headed, HeadText, Applied;
    AppliedRest(h, a, rest);
    ReadHead(h, "(" + (a + (")" + rest)));
    ParseOne(h, Applied(h, a) + rest, a + (")" + rest), t, rest, depth);
  }

  lemma {:induction false} ReadTwo(h: Head, x: Ty, y: Ty, a: string, b: string, rest: string, depth: nat)
    requires h.HRes? || (h.HMap? && IsKeyTy(x))
    requires depth <= MAX_TY_DEPTH
    requires ParseTyAt(a + ("," + (b + (")" + rest))), depth + 1) == Done(x, "," + (b + (")" + rest)))
    requires ParseTyAt(b + (")" + rest), depth + 1) == Done(y, ")" + rest)
    ensures ParseTyAt(Applied(h, a + "," + b) + rest, depth) == Done(if h.HMap? then Map(x, y) else Res(x, y), rest)
  {
    hide ParseTyAt, Headed, HeadText, Applied;
    var args, arg2 := a + "," + b, b + (")" + rest);
    AppliedRest(h, args, rest);
    assert args + (")" + rest) == a + ("," + arg2);
    ReadHead(h, "(" + (args + (")" + rest)));
    ParseTwo(h, Applied(h, args) + rest, a + ("," + arg2), arg2, x, y, rest, depth);
  }

  lemma {:induction false} ReadTensor(dims: seq<u64>, t: Ty, a: string, b: string, rest: string, depth: nat)
    requires depth <= MAX_TY_DEPTH && SpellsDims(dims, a) && b != "" && !Digit(b[0])
    requires ParseTyAt(b + (")" + rest), depth + 1) == Done(t, ")" + rest)
    ensures ParseTyAt(Applied(HTensor, a + b) + rest, depth) == Done(Tensor(dims, t), rest)
  {
    hide ParseTyAt, ParseDims, Headed, HeadText, Applied, SpellsDims;
    var args, arg := a + b, b + (")" + rest);
    AppliedRest(HTensor, args, rest);
    assert args + (")" + rest) == a + arg;
    ReadHead(HTensor, "(" + (args + (")" + rest)));
    DimsRead(dims, a, arg);
    ParseTensor(Applied(HTensor, args) + rest, args + (")" + rest), dims, arg, t, rest, depth);
  }

  lemma {:induction false} ReadRef(name: string, rest: string, depth: nat)
    requires depth <= MAX_TY_DEPTH && name != "" && ')' !in name
    ensures ParseTyAt(Applied(HTy, name) + rest, depth) == Done(Named(name), rest)
  {
    hide ParseTyAt, Headed, HeadText, Applied;
    AppliedRest(HTy, name, rest);
    ReadHead(HTy, "(" + (name + (")" + rest)));
    ParseRef(Applied(HTy, name) + rest, name, rest, depth);
  }

  lemma {:induction false} AppliedStart(h: Head, args: string)
    requires !h.Atom?
    ensures Applied(h, args) != "" && !Digit(Applied(h, args)[0])
  {
    hide HeadText;
    HeadChars(h);
  }

  lemma {:induction false} SpelledStart(ty: Ty, e: string)
    requires SpellsTy(ty, e)
    ensures e != "" && !Digit(e[0])
  {
    hide Applied, AtomText, SpellsDims;
    match ty {
      case Opt(t) => var a :| SpellsTy(t, a) && e == Applied(HOpt, a); AppliedStart(HOpt, a);
      case List(t) => var a :| SpellsTy(t, a) && e == Applied(HList, a); AppliedStart(HList, a);
      case Future(t) => var a :| SpellsTy(t, a) && e == Applied(HFuture, a); AppliedStart(HFuture, a);
      case Stream(t) => var a :| SpellsTy(t, a) && e == Applied(HStream, a); AppliedStart(HStream, a);
      case Set(t) => var a :| SpellsTy(t, a) && e == Applied(HSet, a); AppliedStart(HSet, a);
      case Res(x, y) =>
        var a, b :| SpellsTy(x, a) && SpellsTy(y, b) && e == Applied(HRes, a + "," + b);
        AppliedStart(HRes, a + "," + b);
      case Map(x, y) =>
        var a, b :| SpellsTy(x, a) && SpellsTy(y, b) && e == Applied(HMap, a + "," + b);
        AppliedStart(HMap, a + "," + b);
      case Tensor(dims, t) =>
        var a, b :| SpellsDims(dims, a) && SpellsTy(t, b) && e == Applied(HTensor, a + b);
        AppliedStart(HTensor, a + b);
      case Named(name) => AppliedStart(HTy, name);
      case _ => AtomChars(ty);
    }
  }

  predicate OneArgument(h: Head) {
    h.HOpt? || h.HList? || h.HFuture? || h.HStream? || h.HSet?
  }

  function WrapOne(h: Head, t: Ty): Ty
    requires OneArgument(h)
  {
    if h.HSet? then Set(t) else Wrap(h, t)
  }

  lemma {:induction false} OneTaken(h: Head, t: Ty, e: string) returns (a: string)
    requires OneArgument(h) && SpellsTy(WrapOne(h, t), e)
    ensures SpellsTy(t, a) && e == Applied(h, a)
  {
    hide Applied;
    a :| SpellsTy(t, a) && e == Applied(h, a);
  }

  lemma {:induction false} TwoTaken(h: Head, x: Ty, y: Ty, e: string) returns (a: string, b: string)
    requires (h.HRes? || h.HMap?) && SpellsTy(if h.HMap? then Map(x, y) else Res(x, y), e)
    ensures SpellsTy(x, a) && SpellsTy(y, b) && e == Applied(h, a + "," + b)
  {
    hide Applied;
    a, b :| SpellsTy(x, a) && SpellsTy(y, b) && e == Applied(h, a + "," + b);
  }

  lemma {:induction false} TensorTaken(dims: seq<u64>, t: Ty, e: string) returns (a: string, b: string)
    requires SpellsTy(Tensor(dims, t), e)
    ensures SpellsDims(dims, a) && SpellsTy(t, b) && e == Applied(HTensor, a + b)
  {
    hide Applied, SpellsDims;
    a, b :| SpellsDims(dims, a) && SpellsTy(t, b) && e == Applied(HTensor, a + b);
  }

  /** A spelling of a type the format can hold is read as that type, whatever follows; only behind a bare
      word the text must not go on as part of it. */
  lemma {:induction false} SpelledRead(ty: Ty, e: string, rest: string, depth: nat)
    requires SpellsTy(ty, e) && Gated(ty) && depth + Depth(ty) <= MAX_TY_DEPTH && (IsAtom(ty) ==> Ends(rest))
    ensures ParseTyAt(e + rest, depth) == Done(ty, rest)
    decreases ty, 1
  {
    hide ParseTyAt, SpellsTy, Applied, AtomText;
    match ty {
      case Opt(t) => OneRead(HOpt, t, e, rest, depth);
      case List(t) => OneRead(HList, t, e, rest, depth);
      case Future(t) => OneRead(HFuture, t, e, rest, depth);
      case Stream(t) => OneRead(HStream, t, e, rest, depth);
      case Set(t) =>
        KeyGated(t);
        OneRead(HSet, t, e, rest, depth);
      case Res(x, y) => TwoRead(HRes, x, y, e, rest, depth);
      case Map(x, y) =>
        KeyGated(x);
        TwoRead(HMap, x, y, e, rest, depth);
      case Tensor(dims, t) =>
        var a, b := TensorTaken(dims, t, e);
        SpelledStart(t, b);
        SpelledRead(t, b, ")" + rest, depth + 1);
        ReadTensor(dims, t, a, b, rest, depth);
      case Named(name) =>
        NameTaken(name, e);
        ReadRef(name, rest, depth);
      case _ =>
        AtomTaken(ty, e);
        ReadAtom(ty, rest, depth);
    }
  }

  lemma {:induction false} NameTaken(name: string, e: string)
    requires SpellsTy(Named(name), e)
    ensures e == Applied(HTy, name)
  {
  }

  lemma {:induction false} AtomTaken(ty: Ty, e: string)
    requires IsAtom(ty) && SpellsTy(ty, e)
    ensures e == AtomText(ty)
  {
  }

  lemma {:induction false} OneRead(h: Head, t: Ty, e: string, rest: string, depth: nat)
    requires OneArgument(h) && (h.HSet? ==> IsKeyTy(t))
    requires SpellsTy(WrapOne(h, t), e) && Gated(t) && depth + 1 + Depth(t) <= MAX_TY_DEPTH
    ensures ParseTyAt(e + rest, depth) == Done(WrapOne(h, t), rest)
    decreases t, 2
  {
    hide ParseTyAt, SpellsTy, Applied;
    var a := OneTaken(h, t, e);
    SpelledRead(t, a, ")" + rest, depth + 1);
    ReadOne(h, t, a, rest, depth);
  }

  lemma {:induction false} TwoRead(h: Head, x: Ty, y: Ty, e: string, rest: string, depth: nat)
    requires h.HRes? || (h.HMap? && IsKeyTy(x))
    requires Gated(x) && Gated(y) && depth + 1 + Max(Depth(x), Depth(y)) <= MAX_TY_DEPTH
    requires SpellsTy(if h.HMap? then Map(x, y) else Res(x, y), e)
    ensures ParseTyAt(e + rest, depth) == Done(if h.HMap? then Map(x, y) else Res(x, y), rest)
    decreases if h.HMap? then Map(x, y) else Res(x, y), 0
  {
    hide ParseTyAt, SpellsTy, Applied;
    var a, b := TwoTaken(h, x, y, e);
    SpelledRead(x, a, "," + (b + (")" + rest)), depth + 1);
    SpelledRead(y, b, ")" + rest, depth + 1);
    ReadTwo(h, x, y, a, b, rest, depth);
  }

  lemma {:induction false} KeyGated(ty: Ty)
    requires IsKeyTy(ty)
    ensures Gated(ty) && Depth(ty) == 0
  {
  }

  // ------------------------------------------------------------ read, so spelled

  lemma {:induction false} HeadIs(word: string)
    requires HeadOf(word).Some?
    ensures word == HeadText(HeadOf(word).value)
  {
  }

  lemma {:induction false} DimsSpelled(cs: string) returns (e: string)
    requires ParseDims(cs).Done?
    ensures SpellsDims(ParseDims(cs).value, e) && cs == e + ParseDims(cs).rest
    decreases |cs|
  {
    hide ParseDims, SpellsDims, SpellsDim, Span;
    var n := Span(cs, Digit);
    NoDimsRead(cs);
    if n == 0 {
      e := "";
      NoDimsSpelled(e);
      assert cs == e + cs;
    } else {
      DimTaken(cs);
      var more := cs[n + 1..];
      var e' := DimsSpelled(more);
      e := cs[..n] + (";" + e');
      DimsJoined(ParseDims(cs).value, cs[..n], e');
      assert cs == cs[..n] + (";" + more);
    }
  }

  lemma {:induction false} DimTaken(cs: string)
    requires ParseDims(cs).Done? && Span(cs, Digit) > 0
    ensures var n, r := Span(cs, Digit), ParseDims(cs);
      && n < |cs| && cs[n] == ';'
      && r.value != [] && SpellsDim(r.value[0], cs[..n])
      && ParseDims(cs[n + 1..]) == Done(r.value[1..], r.rest)
  {
    hide Decimal;
  }

  /** The text is a spelling of `ty` followed by `rest`; behind a bare word the rest starts no longer word. */
  ghost predicate Front(ty: Ty, cs: string, rest: string) {
    (exists e :: SpellsTy(ty, e) && cs == e + rest) && (IsAtom(ty) ==> Ends(rest))
  }

  lemma {:induction false} FrontOne(h: Head, cs: string, arg: string, t: Ty, rest: string)
    requires OneArgument(h) && cs == HeadText(h) + ("(" + arg) && Front(t, arg, ")" + rest)
    ensures Front(WrapOne(h, t), cs, rest)
  {
    hide SpellsTy, HeadText, Applied;
    var a :| SpellsTy(t, a) && arg == a + (")" + rest);
    AppliedRest(h, a, rest);
    OneSpelled(h, t, a);
  }

  lemma {:induction false} OneSpelled(h: Head, t: Ty, a: string)
    requires OneArgument(h) && SpellsTy(t, a)
    ensures SpellsTy(WrapOne(h, t), Applied(h, a)) && !IsAtom(WrapOne(h, t))
  {
    hide Applied, HeadText;
  }

  lemma {:induction false} FrontTwo(h: Head, cs: string, arg: string, x: Ty, arg2: string, y: Ty, rest: string)
    requires (h.HRes? || h.HMap?) && cs == HeadText(h) + ("(" + arg)
    requires Front(x, arg, "," + arg2) && Front(y, arg2, ")" + rest)
    ensures Front(if h.HMap? then Map(x, y) else Res(x, y), cs, rest)
  {
    hide SpellsTy, HeadText, Applied;
    var a :| SpellsTy(x, a) && arg == a + ("," + arg2);
    var b :| SpellsTy(y, b) && arg2 == b + (")" + rest);
    AppliedRest(h, a + "," + b, rest);
    assert a + "," + b + (")" + rest) == a + ("," + (b + (")" + rest)));
    TwoSpelled(h, x, y, a, b);
  }

  lemma {:induction false} TwoSpelled(h: Head, x: Ty, y: Ty, a: string, b: string)
    requires (h.HRes? || h.HMap?) && SpellsTy(x, a) && SpellsTy(y, b)
    ensures var ty := if h.HMap? then Map(x, y) else Res(x, y); SpellsTy(ty, Applied(h, a + "," + b)) && !IsAtom(ty)
  {
    hide Applied, HeadText;
  }

  lemma {:induction false} FrontTensor(cs: string, arg: string, dims: seq<u64>, d: string, arg2: string, t: Ty,
                                       rest: string)
    requires cs == HeadText(HTensor) + ("(" + arg)
    requires SpellsDims(dims, d) && arg == d + arg2 && Front(t, arg2, ")" + rest)
    ensures Front(Tensor(dims, t), cs, rest)
  {
    hide SpellsTy, HeadText, SpellsDims, Applied;
    var b :| SpellsTy(t, b) && arg2 == b + (")" + rest);
    AppliedRest(HTensor, d + b, rest);
    assert d + b + (")" + rest) == d + (b + (")" + rest));
    TensorSpelled(dims, t, d, b);
  }

  lemma {:induction false} TensorSpelled(dims: seq<u64>, t: Ty, a: string, b: string)
    requires SpellsDims(dims, a) && SpellsTy(t, b)
    ensures SpellsTy(Tensor(dims, t), Applied(HTensor, a + b))
  {
    hide Applied, HeadText, SpellsDims;
  }

  lemma {:induction false} FrontRef(cs: string, arg: string, depth: nat)
    requires depth <= MAX_TY_DEPTH && HeadOf(cs[..Span(cs, Alnum)]) == Some(HTy) && ParseTyAt(cs, depth).Done?
    requires cs[Span(cs, Alnum)..] == "(" + arg && cs == HeadText(HTy) + ("(" + arg)
    ensures Front(ParseTyAt(cs, depth).value, cs, ParseTyAt(cs, depth).rest)
  {
    hide HeadOf, HeadText, Span, ParseTyAt, Applied, Front;
    RefRead(cs, arg, depth);
    var end := Span(arg, NotClose);
    var name, rest := arg[..end], arg[end + 1..];
    assert arg == name + (")" + rest);
    AppliedRest(HTy, name, rest);
    RefSpelled(name, rest);
  }

  lemma {:induction false} RefSpelled(name: string, rest: string)
    ensures Front(Named(name), Applied(HTy, name) + rest, rest)
  {
    hide Applied;
    assert SpellsTy(Named(name), Applied(HTy, name));
  }

  lemma {:induction false} RefRead(cs: string, arg: string, depth: nat)
    requires depth <= MAX_TY_DEPTH && HeadOf(cs[..Span(cs, Alnum)]) == Some(HTy) && ParseTyAt(cs, depth).Done?
    requires cs[Span(cs, Alnum)..] == "(" + arg
    ensures var end := Span(arg, NotClose);
      end < |arg| && arg[end] == ')' && ParseTyAt(cs, depth) == Done(Named(arg[..end]), arg[end + 1..])
  {
    hide HeadOf, Span;
    assert ("(" + arg)[1..] == arg;
    var end := Span(arg, NotClose);
    assert end < |arg| ==> !NotClose(arg[end]);
  }

  lemma {:induction false} FrontAtom(cs: string, ty: Ty)
    requires HeadOf(cs[..Span(cs, Alnum)]) == Some(Atom(ty))
    ensures Front(ty, cs, cs[Span(cs, Alnum)..])
  {
    var n := Span(cs, Alnum);
    HeadIs(cs[..n]);
    hide HeadOf, Span;
    assert cs == cs[..n] + cs[n..];
    assert SpellsTy(ty, cs[..n]);
  }

  /** The opening bracket, and what the parser asks for behind the arguments. */
  lemma {:induction false} Brackets(cs: string, depth: nat)
    requires depth <= MAX_TY_DEPTH && ParseTyAt(cs, depth).Done?
    ensures var n := Span(cs, Alnum);
      && HeadOf(cs[..n]).Some?
      && (!HeadOf(cs[..n]).value.Atom? ==> n < |cs| && cs[n] == '(')
  {
    hide HeadOf, Span, HeadText, ParseDims;
  }

  lemma {:induction false} ClosedOne(h: Head, cs: string, depth: nat)
    requires OneArgument(h)
    requires depth <= MAX_TY_DEPTH && HeadOf(cs[..Span(cs, Alnum)]) == Some(h) && ParseTyAt(cs, depth).Done?
    ensures var rest := cs[Span(cs, Alnum)..];
      rest != "" && var a := ParseTyAt(rest[1..], depth + 1); a.Done? && a.rest != "" && a.rest[0] == ')'
  {
    hide HeadOf, Span, HeadText;
  }

  lemma {:induction false} ClosedTwo(h: Head, cs: string, depth: nat)
    requires h.HRes? || h.HMap?
    requires depth <= MAX_TY_DEPTH && HeadOf(cs[..Span(cs, Alnum)]) == Some(h) && ParseTyAt(cs, depth).Done?
    ensures var rest := cs[Span(cs, Alnum)..];
      && rest != ""
      && var a := ParseTyAt(rest[1..], depth + 1);
      && a.Done? && a.rest != "" && a.rest[0] == ','
      && var b := ParseTyAt(a.rest[1..], depth + 1);
      && b.Done? && b.rest != "" && b.rest[0] == ')'
  {
    hide HeadOf, Span, HeadText;
  }

  lemma {:induction false} ClosedTensor(cs: string, depth: nat)
    requires depth <= MAX_TY_DEPTH && HeadOf(cs[..Span(cs, Alnum)]) == Some(HTensor) && ParseTyAt(cs, depth).Done?
    ensures var rest := cs[Span(cs, Alnum)..];
      && rest != "" && ParseDims(rest[1..]).Done?
      && var dims := ParseDims(rest[1..]);
      && var a := ParseTyAt(dims.rest, depth + 1);
      && a.Done? && a.rest != "" && a.rest[0] == ')'
      && ParseTyAt(cs, depth) == Done(Tensor(dims.value, a.value), a.rest[1..])
  {
    hide HeadOf, Span, ParseDims;
  }

  /** Whatever is read as a type is a spelling of it followed by the rest. */
  lemma {:induction false} ReadSpelled(cs: string, depth: nat)
    requires ParseTyAt(cs, depth).Done?
    ensures Front(ParseTyAt(cs, depth).value, cs, ParseTyAt(cs, depth).rest)
    decreases MAX_TY_DEPTH + 1 - depth, 1
  {
    hide ParseTyAt, HeadOf, Span, Front, HeadText, ParseDims;
    if depth > MAX_TY_DEPTH {
      DeepRefused(cs, depth);
      return;
    }
    Brackets(cs, depth);
    var n := Span(cs, Alnum);
    HeadIs(cs[..n]);
    var arg := if n < |cs| then cs[n + 1..] else "";
    var h := HeadOf(cs[..n]).value;
    assert cs == cs[..n] + cs[n..];
    assert !h.Atom? ==> cs[n..] == "(" + arg;
    match h {
      case Atom(ty) =>
        FrontAtom(cs, ty);
        AtomRead(cs, depth, ty);
      case HTy => FrontRef(cs, arg, depth);
      case HTensor => ReadTensorSpelled(cs, arg, depth);
      case HRes => ReadTwoSpelled(HRes, cs, arg, depth);
      case HMap => ReadTwoSpelled(HMap, cs, arg, depth);
      case _ => ReadOneSpelled(h, cs, arg, depth);
    }
  }

  /** The word of `cs` is the head `h`, and a bracket and `arg` follow. */
  ghost predicate Opened(cs: string, h: Head, arg: string, depth: nat) {
    && depth <= MAX_TY_DEPTH
    && !h.Atom?
    && HeadOf(cs[..Span(cs, Alnum)]) == Some(h)
    && cs[Span(cs, Alnum)..] == "(" + arg
    && cs == HeadText(h) + ("(" + arg)
  }

  lemma {:induction false} Peeled(c: char, s: string)
    requires s != "" && s[0] == c
    ensures s == [c] + s[1..]
  {
  }

  lemma {:induction false} ReadOneSpelled(h: Head, cs: string, arg: string, depth: nat)
    requires OneArgument(h) && Opened(cs, h, arg, depth) && ParseTyAt(cs, depth).Done?
    ensures Front(ParseTyAt(cs, depth).value, cs, ParseTyAt(cs, depth).rest)
    decreases MAX_TY_DEPTH + 1 - depth, 0
  {
    hide ParseTyAt, HeadOf, Span, Front, HeadText;
    ClosedOne(h, cs, depth);
    AcceptedOne(h, cs, depth);
    assert cs[Span(cs, Alnum)..][1..] == arg;
    var a := ParseTyAt(arg, depth + 1);
    ReadSpelled(arg, depth + 1);
    Peeled(')', a.rest);
    FrontOne(h, cs, arg, a.value, a.rest[1..]);
  }

  lemma {:induction false} ReadTwoSpelled(h: Head, cs: string, arg: string, depth: nat)
    requires (h.HRes? || h.HMap?) && Opened(cs, h, arg, depth) && ParseTyAt(cs, depth).Done?
    ensures Front(ParseTyAt(cs, depth).value, cs, ParseTyAt(cs, depth).rest)
    decreases MAX_TY_DEPTH + 1 - depth, 0
  {
    hide ParseTyAt, HeadOf, Span, Front, HeadText;
    ClosedTwo(h, cs, depth);
    AcceptedTwo(h, cs, depth);
    assert cs[Span(cs, Alnum)..][1..] == arg;
    var a := ParseTyAt(arg, depth + 1);
    var b := ParseTyAt(a.rest[1..], depth + 1);
    ReadSpelled(arg, depth + 1);
    ReadSpelled(a.rest[1..], depth + 1);
    Peeled(',', a.rest);
    Peeled(')', b.rest);
    FrontTwo(h, cs, arg, a.value, a.rest[1..], b.value, b.rest[1..]);
  }

  lemma {:induction false} ReadTensorSpelled(cs: string, arg: string, depth: nat)
    requires Opened(cs, HTensor, arg, depth) && ParseTyAt(cs, depth).Done?
    ensures Front(ParseTyAt(cs, depth).value, cs, ParseTyAt(cs, depth).rest)
    decreases MAX_TY_DEPTH + 1 - depth, 0
  {
    hide ParseTyAt, HeadOf, Span, Front, HeadText, ParseDims, SpellsDims;
    ClosedTensor(cs, depth);
    assert cs[Span(cs, Alnum)..][1..] == arg;
    var dims := ParseDims(arg);
    var a := ParseTyAt(dims.rest, depth + 1);
    var d := DimsSpelled(arg);
    ReadSpelled(dims.rest, depth + 1);
    Peeled(')', a.rest);
    FrontTensor(cs, arg, dims.value, d, dims.rest, a.value, a.rest[1..]);
  }

  lemma {:induction false} DeepRefused(cs: string, depth: nat)
    requires depth > MAX_TY_DEPTH
    ensures ParseTyAt(cs, depth).Error?
  {
  }

  lemma {:induction false} AtomRead(cs: string, depth: nat, ty: Ty)
    requires depth <= MAX_TY_DEPTH && HeadOf(cs[..Span(cs, Alnum)]) == Some(Atom(ty))
    ensures ParseTyAt(cs, depth) == Done(ty, cs[Span(cs, Alnum)..])
  {
    hide HeadOf, Span;
  }

  /** The type parser, exactly: it reads a type off the front of some text if and only if the text is a
      spelling of the type followed by the rest, the type is one the format can hold, and it is no deeper
      than allowed. */
  lemma {:induction false} TyAtIff(cs: string, depth: nat, ty: Ty, rest: string)
    ensures ParseTyAt(cs, depth) == Done(ty, rest) <==>
            Front(ty, cs, rest) && Gated(ty) && depth + Depth(ty) <= MAX_TY_DEPTH
  {
    hide ParseTyAt, SpellsTy, Gated, Depth;
    if ParseTyAt(cs, depth) == Done(ty, rest) {
      ReadSpelled(cs, depth);
      ParseSound(cs, depth);
    }
    if Front(ty, cs, rest) && Gated(ty) && depth + Depth(ty) <= MAX_TY_DEPTH {
      var e :| SpellsTy(ty, e) && cs == e + rest;
      SpelledRead(ty, e, rest, depth);
    }
  }

  /** A whole type token, exactly: a spelling and not a character more. */
  lemma {:induction false} TyTextIff(s: string, ty: Ty)
    ensures ParseTyText(s) == Done(ty, "") <==> SpellsTy(ty, s) && Gated(ty) && Depth(ty) <= 64
    ensures ParseTyText(s).Done? ==> ParseTyText(s).rest == ""
  {
    hide ParseTyAt, SpellsTy, Gated, Depth;
    TyAtIff(s, 0, ty, "");
    assert forall e :: e + "" == e;
    if ParseTyAt(s, 0).Done? { TyAtIff(s, 0, ParseTyAt(s, 0).value, ParseTyAt(s, 0).rest); }
  }

  lemma {:induction false} DimsRendered(dims: seq<u64>)
    ensures SpellsDims(dims, RenderDims(dims))
  {
    if dims == [] {
    } else {
      hide RenderNat, Decimal, SpellsDims;
      var d := RenderNat(dims[0]);
      DecimalRender(dims[0]);
      assert forall i | 0 <= i < |d| :: Digit(d[i]);
      DimsRendered(dims[1..]);
      DimsJoined(dims, d, RenderDims(dims[1..]));
    }
  }

  /** The rendering is a spelling. */
  lemma {:induction false} RenderSpells(ty: Ty)
    ensures SpellsTy(ty, RenderTy(ty))
  {
    hide Applied, RenderDims, AtomText, SpellsDims;
    match ty {
      case Opt(t) => RenderSpells(t);
      case List(t) => RenderSpells(t);
      case Future(t) => RenderSpells(t);
      case Stream(t) => RenderSpells(t);
      case Set(t) => RenderSpells(t);
      case Res(a, b) => RenderSpells(a); RenderSpells(b);
      case Map(a, b) => RenderSpells(a); RenderSpells(b);
      case Tensor(dims, t) => DimsRendered(dims); RenderSpells(t);
      case _ =>
    }
  }

  /** Dimensions read back, decimal digits and all. */
  lemma {:induction false} DimsRoundTrip(dims: seq<u64>, rest: string)
    requires rest == "" || !Digit(rest[0])
    ensures ParseDims(RenderDims(dims) + rest) == Done(dims, rest)
  {
    hide ParseDims, RenderDims, SpellsDims;
    DimsRendered(dims);
    DimsRead(dims, RenderDims(dims), rest);
  }

  /** Parsing what was rendered gives the type back and leaves the rest alone. */
  lemma {:induction false} TyRoundTrip(ty: Ty, rest: string, depth: nat)
    requires Gated(ty) && depth + Depth(ty) <= MAX_TY_DEPTH && (IsAtom(ty) ==> Ends(rest))
    ensures ParseTyAt(RenderTy(ty) + rest, depth) == Done(ty, rest)
  {
    hide ParseTyAt, RenderTy, SpellsTy, Gated, Depth;
    RenderSpells(ty);
    SpelledRead(ty, RenderTy(ty), rest, depth);
  }

  /** Exactly which types survive the text format: scalar keys, references that can be closed, and
      at most `MAX_TY_DEPTH` constructors deep. */
  lemma {:induction false} TyRoundTripIff(ty: Ty)
    ensures ParseTyText(RenderTy(ty)) == Done(ty, "") <==> Gated(ty) && Depth(ty) <= MAX_TY_DEPTH
  {
    hide ParseTyAt, RenderTy, Gated;
    var s := RenderTy(ty);
    assert s + "" == s;
    if Gated(ty) && Depth(ty) <= MAX_TY_DEPTH {
      TyRoundTrip(ty, "", 0);
    }
    ParseSound(s, 0);
  }

  // ------------------------------------------------------- spellings are clean

  lemma {:induction false} DimsClean(dims: seq<u64>, e: string, c: char)
    requires SpellsDims(dims, e) && !Digit(c) && c != ';'
    ensures c !in e
    decreases |dims|
  {
    hide Decimal;
    if dims == [] {
    } else {
      var d, more := DimsTaken(dims, e);
      hide SpellsDims;
      DimsClean(dims[1..], more, c);
    }
  }

  lemma {:induction false} AppliedClean(h: Head, args: string, c: char)
    requires !h.Atom? && (c == ' ' || c == '\n') && c !in args
    ensures c !in Applied(h, args)
  {
    hide HeadText;
    HeadChars(h);
  }

  lemma {:induction false} AtomClean(ty: Ty, c: char)
    requires IsAtom(ty) && (c == ' ' || c == '\n')
    ensures c !in AtomText(ty)
  {
    HeadChars(Atom(ty));
  }

  /** A spelling holds no blank but in the names of the type. */
  lemma {:induction false} SpelledClean(ty: Ty, e: string, c: char)
    requires SpellsTy(ty, e) && (c == ' ' || c == '\n') && c !in NameChars(ty)
    ensures c !in e
    decreases ty
  {
    hide Applied, SpellsDims, SpellsTy, HeadText, AtomText;
    match ty {
      case Opt(t) => var a := OneTaken(HOpt, t, e); SpelledClean(t, a, c); AppliedClean(HOpt, a, c);
      case List(t) => var a := OneTaken(HList, t, e); SpelledClean(t, a, c); AppliedClean(HList, a, c);
      case Set(t) => var a := OneTaken(HSet, t, e); SpelledClean(t, a, c); AppliedClean(HSet, a, c);
      case Future(t) => var a := OneTaken(HFuture, t, e); SpelledClean(t, a, c); AppliedClean(HFuture, a, c);
      case Stream(t) => var a := OneTaken(HStream, t, e); SpelledClean(t, a, c); AppliedClean(HStream, a, c);
      case Res(x, y) =>
        var a, b := TwoTaken(HRes, x, y, e);
        SpelledClean(x, a, c);
        SpelledClean(y, b, c);
        AppliedClean(HRes, a + "," + b, c);
      case Map(x, y) =>
        var a, b := TwoTaken(HMap, x, y, e);
        SpelledClean(x, a, c);
        SpelledClean(y, b, c);
        AppliedClean(HMap, a + "," + b, c);
      case Tensor(dims, t) =>
        var a, b := TensorTaken(dims, t, e);
        DimsClean(dims, a, c);
        SpelledClean(t, b, c);
        AppliedClean(HTensor, a + b, c);
      case Named(name) =>
        NameTaken(name, e);
        AppliedClean(HTy, name, c);
      case _ =>
        AtomTaken(ty, e);
        AtomClean(ty, c);
    }
  }

  // ------------------------------------------------------------ literal limits

  /** `n` options around a scalar. */
  function Nest(n: nat): Ty {
    if n == 0 then U64 else Opt(Nest(n - 1))
  }

  lemma {:induction false} NestDepth(n: nat)
    ensures Depth(Nest(n)) == n && Gated(Nest(n))
  {
    if n == 0 {
    } else {
      NestDepth(n - 1);
    }
  }

  /** Sixty-four options deep is read back, sixty-five is not. */
  lemma {:induction false} NestIff(n: nat)
    ensures ParseTyText(RenderTy(Nest(n))) == Done(Nest(n), "") <==> n <= 64
  {
    hide ParseTyText, RenderTy;
    NestDepth(n);
    TyRoundTripIff(Nest(n));
  }

  /** The key gate, word by word: maps and sets take these keys and no others. */
  lemma {:induction false} KeyIff(ty: Ty)
    ensures ParseTyText(Applied(HSet, RenderTy(ty))) == Done(Set(ty), "") <==>
            ty in [Bool, U8, U16, U32, U64, I8, I16, I32, I64, Str]
  {
    assert RenderTy(Set(ty)) == Applied(HSet, RenderTy(ty));
    hide ParseTyText, RenderTy;
    TyRoundTripIff(Set(ty));
  }

  lemma {:induction false} ReadAs(ty: Ty, text: string)
    requires RenderTy(ty) == text && Gated(ty) && Depth(ty) <= 64
    ensures ParseTyText(text) == Done(ty, "")
  {
    hide ParseTyText, RenderTy;
    TyRoundTripIff(ty);
  }

  const SCALARS: seq<Ty> := [Bool, U8, U16, U32, U64, I8, I16, I32, I64, F32, F64, Str, Bytes]

  const SCALAR_WORDS: seq<string> :=
    ["bool", "u8", "u16", "u32", "u64", "i8", "i16", "i32", "i64", "f32", "f64", "string", "bytes"]

  /** The vocabulary: every scalar word, read as its type. */
  lemma {:induction false} ScalarWords(i: nat)
    requires i < 13
    ensures ParseTyText(SCALAR_WORDS[i]) == Done(SCALARS[i], "")
  {
    hide ParseTyText;
    var ty := SCALARS[i];
    assert IsAtom(ty) && AtomText(ty) == SCALAR_WORDS[i];
    ReadAs(ty, SCALAR_WORDS[i]);
  }

  lemma {:induction false} WrapWords()
    ensures RenderTy(Opt(U8)) == "option(u8)"
    ensures RenderTy(List(U8)) == "list(u8)"
    ensures RenderTy(Set(U8)) == "set(u8)"
  {
    assert RenderTy(U8) == "u8";
    assert "option" + "(" + "u8" + ")" == "option(u8)";
    assert "list" + "(" + "u8" + ")" == "list(u8)";
    assert "set" + "(" + "u8" + ")" == "set(u8)";
  }

  lemma {:induction false} AsyncWords()
    ensures RenderTy(Future(U8)) == "future(u8)"
    ensures RenderTy(Stream(U8)) == "stream(u8)"
  {
    assert RenderTy(U8) == "u8";
    assert "future" + "(" + "u8" + ")" == "future(u8)";
    assert "stream" + "(" + "u8" + ")" == "stream(u8)";
  }

  lemma {:induction false} OtherWords()
    ensures RenderTy(Map(U8, I8)) == "map(u8,i8)"
    ensures RenderTy(Res(U8, I8)) == "result(u8,i8)"
    ensures RenderTy(Named("T")) == "ty(T)"
  {
    assert RenderTy(U8) == "u8" && RenderTy(I8) == "i8";
    assert "map" + "(" + ("u8" + "," + "i8") + ")" == "map(u8,i8)";
    assert "result" + "(" + ("u8" + "," + "i8") + ")" == "result(u8,i8)";
    assert "ty" + "(" + "T" + ")" == "ty(T)";
  }

  lemma {:induction false} TensorWord()
    ensures RenderTy(Tensor([2, 3], U8)) == "tensor(2;3;u8)"
  {
    var dims: seq<u64> := [2, 3];
    assert dims[1..] == [3] && dims[1..][1..] == [];
    assert RenderNat(2) == "2" && RenderNat(3) == "3";
    assert RenderDims(dims[1..]) == "3" + (";" + "") == "3;";
    assert RenderDims(dims) == "2" + (";" + "3;") == "2;3;";
    assert RenderTy(U8) == "u8";
    assert "2;3;" + "u8" == "2;3;u8";
    assert "tensor" + "(" + "2;3;u8" + ")" == "tensor(2;3;u8)";
  }

  /** And every constructor word around its arguments, in order. */
  lemma {:induction false} ConstructorWords()
    ensures ParseTyText("option(u8)") == Done(Opt(U8), "")
    ensures ParseTyText("list(u8)") == Done(List(U8), "")
    ensures ParseTyText("future(u8)") == Done(Future(U8), "")
    ensures ParseTyText("stream(u8)") == Done(Stream(U8), "")
    ensures ParseTyText("set(u8)") == Done(Set(U8), "")
    ensures ParseTyText("map(u8,i8)") == Done(Map(U8, I8), "")
    ensures ParseTyText("result(u8,i8)") == Done(Res(U8, I8), "")
    ensures ParseTyText("ty(T)") == Done(Named("T"), "")
    ensures ParseTyText("tensor(2;3;u8)") == Done(Tensor([2, 3], U8), "")
  {
    hide ParseTyText, RenderTy;
    WrapWords();
    AsyncWords();
    OtherWords();
    TensorWord();
    ReadAs(Opt(U8), "option(u8)");
    ReadAs(List(U8), "list(u8)");
    ReadAs(Future(U8), "future(u8)");
    ReadAs(Stream(U8), "stream(u8)");
    ReadAs(Set(U8), "set(u8)");
    ReadAs(Map(U8, I8), "map(u8,i8)");
    ReadAs(Res(U8, I8), "result(u8,i8)");
    ReadAs(Named("T"), "ty(T)");
    ReadAs(Tensor([2, 3], U8), "tensor(2;3;u8)");
  }
}
