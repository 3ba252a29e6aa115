/** The `<ty>` grammar of universe snapshots: the renderer that defines it and the depth-bounded,
    key-gated recursive parser. Text is a sequence of characters; every delimiter is ASCII. */
module SnapshotTypes {
  import opened Wire

  const MAX_TY_DEPTH: nat := 64

  datatype Ty =
    | Bool | U8 | U16 | U32 | U64 | I8 | I16 | I32 | I64 | F32 | F64 | Str | Bytes
    | Opt(elem: Ty)
    | Res(ok: Ty, err: Ty)
    | List(elem: Ty)
    | Map(key: Ty, value: Ty)
    | Set(key: Ty)
    | Future(elem: Ty)
    | Stream(elem: Ty)
    | Tensor(dims: seq<u64>, elem: Ty)
    | Named(name: string)

  /** Scalar key types: what maps and sets may be keyed by. */
  predicate IsKeyTy(ty: Ty) {
    ty.Bool? || ty.U8? || ty.U16? || ty.U32? || ty.U64? || ty.I8? || ty.I16? || ty.I32? || ty.I64? || ty.Str?
  }

  // -------------------------------------------------------------- lexing

  predicate Digit(c: char) { '0' <= c <= '9' }

  predicate Alnum(c: char) { Digit(c) || 'a' <= c <= 'z' || 'A' <= c <= 'Z' }

  predicate Starts(s: string, c: char) { s != "" && s[0] == c }

  /** How many leading characters satisfy the class. */
  function Span(s: string, kind: char -> bool): (n: nat)
    ensures n <= |s|
    ensures forall i :: 0 <= i < n ==> kind(s[i])
    ensures n < |s| ==> !kind(s[n])
  {
    if s == "" || !kind(s[0]) then 0 else 1 + Span(s[1..], kind)
  }

  /** The value of a decimal digit string. */
  function Decimal(ds: string): nat
    requires forall i :: 0 <= i < |ds| ==> Digit(ds[i])
  {
    if ds == "" then 0
    else
      var last := ds[|ds| - 1];
      assert Digit(last);
      10 * Decimal(ds[..|ds| - 1]) + (last as int - '0' as int)
  }

  function RenderNat(n: nat): (s: string)
    ensures s != "" && forall i :: 0 <= i < |s| ==> Digit(s[i])
  {
    var d := [('0' as int + n % 10) as char];
    if n < 10 then d else RenderNat(n / 10) + d
  }

  /** The words of the type language. */
  datatype Head = Atom(ty: Ty) | HOpt | HList | HFuture | HStream | HSet | HMap | HRes | HTy | HTensor

  predicate IsAtom(ty: Ty) {
    IsKeyTy(ty) || ty.F32? || ty.F64? || ty.Bytes?
  }

  function AtomText(ty: Ty): string
    requires IsAtom(ty)
  {
    match ty
    case Bool => "bool" case U8 => "u8" case U16 => "u16" case U32 => "u32" case U64 => "u64"
    case I8 => "i8" case I16 => "i16" case I32 => "i32" case I64 => "i64"
    case F32 => "f32" case F64 => "f64" case Str => "string" case Bytes => "bytes"
  }

  function HeadText(h: Head): string
    requires h.Atom? ==> IsAtom(h.ty)
  {
    match h
    case Atom(ty) => AtomText(ty)
    case HOpt => "option" case HList => "list" case HFuture => "future" case HStream => "stream"
    case HSet => "set" case HMap => "map" case HRes => "result" case HTy => "ty" case HTensor => "tensor"
  }

  function HeadOf(word: string): (r: Option<Head>)
    ensures r.Some? && r.value.Atom? ==> IsAtom(r.value.ty)
  {
    if word == "bool" then Some(Atom(Bool))
    else if word == "u8" then Some(Atom(U8))
    else if word == "u16" then Some(Atom(U16))
    else if word == "u32" then Some(Atom(U32))
    else if word == "u64" then Some(Atom(U64))
    else if word == "i8" then Some(Atom(I8))
    else if word == "i16" then Some(Atom(I16))
    else if word == "i32" then Some(Atom(I32))
    else if word == "i64" then Some(Atom(I64))
    else if word == "f32" then Some(Atom(F32))
    else if word == "f64" then Some(Atom(F64))
    else if word == "string" then Some(Atom(Str))
    else if word == "bytes" then Some(Atom(Bytes))
    else if word == "option" then Some(HOpt)
    else if word == "list" then Some(HList)
    else if word == "future" then Some(HFuture)
    else if word == "stream" then Some(HStream)
    else if word == "set" then Some(HSet)
    else if word == "map" then Some(HMap)
    else if word == "result" then Some(HRes)
    else if word == "ty" then Some(HTy)
    else if word == "tensor" then Some(HTensor)
    else None
  }

  // ------------------------------------------------------------- rendering

  function RenderDims(dims: seq<u64>): string {
    if dims == [] then "" else RenderNat(dims[0]) + (";" + RenderDims(dims[1..]))
  }

  function Applied(h: Head, args: string): string
    requires !h.Atom?
  {
    HeadText(h) + "(" + args + ")"
  }

  /** Scalars as words, constructors as `word(arg,...)`, references as `ty(name)`; no spaces. */
  function RenderTy(ty: Ty): string {
    match ty
    case Opt(t) => Applied(HOpt, RenderTy(t))
    case Res(ok, err) => Applied(HRes, RenderTy(ok) + "," + RenderTy(err))
    case List(t) => Applied(HList, RenderTy(t))
    case Map(k, v) => Applied(HMap, RenderTy(k) + "," + RenderTy(v))
    case Set(k) => Applied(HSet, RenderTy(k))
    case Future(t) => Applied(HFuture, RenderTy(t))
    case Stream(t) => Applied(HStream, RenderTy(t))
    case Tensor(dims, t) => Applied(HTensor, RenderDims(dims) + RenderTy(t))
    case Named(name) => Applied(HTy, name)
    case _ => AtomText(ty)
  }

  // --------------------------------------------------------------- parsing

  /** A parsed item with the unconsumed rest, or the message of the failure. */
  datatype Parse<+T> = Done(value: T, rest: string) | Error(message: string) {
    predicate IsFailure() { Error? }

    function PropagateFailure<U>(): Parse<U>
      requires Error?
    {
      Error(message)
    }

    function Extract(): (T, string)
      requires Done?
    {
      (value, rest)
    }
  }

  function Consed(dim: u64, dims: seq<u64>, rest: string): Parse<seq<u64>> {
    Done([dim] + dims, rest)
  }

  /** Tensor dimensions, each consumed with its semicolon, up to the first non-digit. */
  function ParseDims(cs: string): (r: Parse<seq<u64>>)
    ensures r.Done? ==> |r.rest| <= |cs|
    decreases |cs|
  {
    var n := Span(cs, Digit);
    if n == 0 then Done([], cs) else
    var dim := Decimal(cs[..n]);
    if dim >= U64_LIMIT then Error("snapshot: bad tensor dim: number too large to fit in target type")
    else if !Starts(cs[n..], ';') then Error("snapshot: expected ';' after tensor dim")
    else
      var (dims, rest) :- ParseDims(cs[n + 1..]);
      Consed(dim, dims, rest)
  }

  function Wrap(h: Head, t: Ty): Ty
    requires h.HOpt? || h.HList? || h.HFuture? || h.HStream?
  {
    match h case HOpt => Opt(t) case HList => List(t) case HFuture => Future(t) case HStream => Stream(t)
  }

  function NotClose(c: char): bool { c != ')' }

  /** Parse a type at the front of `cs`, `depth` constructors deep. */
  function ParseTyAt(cs: string, depth: nat): (r: Parse<Ty>)
    ensures r.Done? ==> |r.rest| <= |cs|
    decreases MAX_TY_DEPTH + 1 - depth
  {
    if depth > MAX_TY_DEPTH then Error("snapshot: parse depth exceeded (malformed nesting)") else
    var n := Span(cs, Alnum);
    var rest := cs[n..];
    match HeadOf(cs[..n])
    case None => Error("snapshot: unknown type token `" + cs[..n] + "`")
    case Some(Atom(ty)) => Done(ty, rest)
    case Some(HSet) =>
      if !Starts(rest, '(') then Error("snapshot: expected '(' after `set`") else
      var (t, r) :- ParseTyAt(rest[1..], depth + 1);
      if !IsKeyTy(t) then Error("snapshot: set element is not a scalar key type")
      else if !Starts(r, ')') then Error("snapshot: expected ')' after `set(\U{2026}`")
      else Done(Set(t), r[1..])
    case Some(HMap) =>
      if !Starts(rest, '(') then Error("snapshot: expected '(' after `map`") else
      var (k, r1) :- ParseTyAt(rest[1..], depth + 1);
      if !IsKeyTy(k) then Error("snapshot: map key is not a scalar key type")
      else if !Starts(r1, ',') then Error("snapshot: expected ',' between map's key and value types") else
      var (v, r2) :- ParseTyAt(r1[1..], depth + 1);
      if !Starts(r2, ')') then Error("snapshot: expected ')' after map's value type")
      else Done(Map(k, v), r2[1..])
    case Some(HRes) =>
      if !Starts(rest, '(') then Error("snapshot: expected '(' after `result`") else
      var (ok, r1) :- ParseTyAt(rest[1..], depth + 1);
      if !Starts(r1, ',') then Error("snapshot: expected ',' between result's types") else
      var (err, r2) :- ParseTyAt(r1[1..], depth + 1);
      if !Starts(r2, ')') then Error("snapshot: expected ')' after result's err type")
      else Done(Res(ok, err), r2[1..])
    case Some(HTy) =>
      if !Starts(rest, '(') then Error("snapshot: expected '(' after `ty`") else
      var end := Span(rest[1..], NotClose);
      if end == |rest| - 1 then Error("snapshot: expected ')' after ty ref")
      else if end == 0 then Error("snapshot: empty ty ref")
      else Done(Named(rest[1..][..end]), rest[1..][end + 1..])
    case Some(HTensor) =>
      if !Starts(rest, '(') then Error("snapshot: expected '(' after `tensor`") else
      var (dims, r1) :- ParseDims(rest[1..]);
      var (t, r2) :- ParseTyAt(r1, depth + 1);
      if !Starts(r2, ')') then Error("snapshot: expected ')' after tensor")
      else Done(Tensor(dims, t), r2[1..])
    case Some(h) =>
      if !Starts(rest, '(') then Error("snapshot: expected '(' after `" + HeadText(h) + "`") else
      var (t, r) :- ParseTyAt(rest[1..], depth + 1);
      if !Starts(r, ')') then Error("snapshot: expected ')' after `" + HeadText(h) + "(`")
      else Done(Wrap(h, t), r[1..])
  }

  /** A whole type token: nothing may be left over. */
  function ParseTyText(s: string): Parse<Ty> {
    var (ty, rest) :- ParseTyAt(s, 0);
    if rest == "" then Done(ty, "") else Error("snapshot: trailing garbage `" + rest + "`")
  }

  // ---------------------------------------------------- what the format holds

  function Max(a: nat, b: nat): nat { if a < b then b else a }

  /** Constructors above the deepest leaf. */
  function Depth(ty: Ty): nat {
    match ty
    case Opt(t) => 1 + Depth(t)
    case Res(a, b) => 1 + Max(Depth(a), Depth(b))
    case List(t) => 1 + Depth(t)
    case Map(a, b) => 1 + Max(Depth(a), Depth(b))
    case Set(t) => 1 + Depth(t)
    case Future(t) => 1 + Depth(t)
    case Stream(t) => 1 + Depth(t)
    case Tensor(_, t) => 1 + Depth(t)
    case _ => 0
  }

  /** Scalar keys, and references that the closing parenthesis can end. */
  predicate Gated(ty: Ty) {
    match ty
    case Opt(t) => Gated(t)
    case Res(a, b) => Gated(a) && Gated(b)
    case List(t) => Gated(t)
    case Map(k, v) => IsKeyTy(k) && Gated(v)
    case Set(k) => IsKeyTy(k)
    case Future(t) => Gated(t)
    case Stream(t) => Gated(t)
    case Tensor(_, t) => Gated(t)
    case Named(name) => name != "" && ')' !in name
    case _ => true
  }

  /** The characters of the names a type refers to. */
  function NameChars(ty: Ty): set<char> {
    match ty
    case Opt(t) => NameChars(t)
    case Res(a, b) => NameChars(a) + NameChars(b)
    case List(t) => NameChars(t)
    case Map(k, v) => NameChars(k) + NameChars(v)
    case Set(k) => NameChars(k)
    case Future(t) => NameChars(t)
    case Stream(t) => NameChars(t)
    case Tensor(_, t) => NameChars(t)
    case Named(name) => set c | c in name
    case _ => {}
  }
}
