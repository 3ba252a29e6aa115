/** Schema-typed values over the codec-closed types, and their self-delimiting encoding. */
module Values {
  import opened Wire
  import opened Codec

  type u8 = x: int | 0 <= x < 0x100
  type u16 = x: int | 0 <= x < 0x1_0000
  type u32 = x: int | 0 <= x < 0x1_0000_0000
  type i8 = x: int | -0x80 <= x < 0x80
  type i16 = x: int | -0x8000 <= x < 0x8000
  type i32 = x: int | -0x8000_0000 <= x < 0x8000_0000

  datatype Ty =
    | Bool
    | U8 | U16 | U32 | U64
    | I8 | I16 | I32 | I64
    | Str | Blob
    | Opt(elem: Ty)
    | Res(ok: Ty, err: Ty)
    | List(elem: Ty)

  datatype Value =
    | VBool(b: bool)
    | VU8(u8: u8) | VU16(u16: u16) | VU32(u32: u32) | VU64(u64: u64)
    | VI8(i8: i8) | VI16(i16: i16) | VI32(i32: i32) | VI64(i64: i64)
    | VStr(s: Vec<char>)
    | VBlob(bs: Vec<byte>)
    | VOpt(o: Option<Value>)
    | VRes(r: Result<Value, Value>)
    | VList(xs: Vec<Value>)

  /** Does this value carry this type? */
  predicate Matches(ty: Ty, v: Value) {
    match (ty, v)
    case (Bool, VBool(_)) => true
    case (U8, VU8(_)) => true
    case (U16, VU16(_)) => true
    case (U32, VU32(_)) => true
    case (U64, VU64(_)) => true
    case (I8, VI8(_)) => true
    case (I16, VI16(_)) => true
    case (I32, VI32(_)) => true
    case (I64, VI64(_)) => true
    case (Str, VStr(_)) => true
    case (Blob, VBlob(_)) => true
    case (Opt(t), VOpt(o)) => o.None? || Matches(t, o.value)
    case (Res(ok, err), VRes(r)) =>
      (match r case Success(x) => Matches(ok, x) case Failure(e) => Matches(err, e))
    case (List(t), VList(xs)) => forall x | x in xs :: Matches(t, x)
    case _ => false
  }

  // ---------------------------------------------------------------- zigzag

  /** The bit pattern `(i << 1) ^ (i >> 63)` as arithmetic: the shift doubles, the sign flips. */
  function Zigzag(i: i64): u64 {
    if i >= 0 then 2 * i else -2 * i - 1
  }

  function Unzigzag(n: u64): i64 {
    if n % 2 == 0 then n / 2 else -(n / 2) - 1
  }

  /** The truncating cast of an i64 to a signed integer of `half * 2` values. */
  function Wrap(x: int, half: int): int
    requires half > 0
  {
    (x + half) % (2 * half) - half
  }

  /** Zigzag is a bijection between i64 and u64. */
  lemma {:induction false} ZigzagBijection(i: i64, n: u64)
    ensures Unzigzag(Zigzag(i)) == i
    ensures Zigzag(Unzigzag(n)) == n
  {
  }

  function Magnitude(i: int): nat {
    if i < 0 then -i else i
  }

  /** Zigzag codes count outwards from zero, negative before positive: 0, -1, 1, -2, 2, ... */
  lemma {:induction false} ZigzagOrder(i: i64, j: i64)
    ensures Zigzag(i) < Zigzag(j) <==> Magnitude(i) < Magnitude(j) || (Magnitude(i) == Magnitude(j) && i < j)
    ensures Zigzag(0) == 0 && Zigzag(-1) == 1 && Zigzag(1) == 2 && Zigzag(-2) == 3
  {
  }

  lemma {:induction false} WrapRange(x: int, half: int)
    requires half == 0x80 || half == 0x8000 || half == 0x8000_0000
    ensures -half <= Wrap(x, half) < half
    ensures -half <= x < half ==> Wrap(x, half) == x
  {
    if half == 0x80 {
      assert Wrap(x, half) == (x + 0x80) % 0x100 - 0x80;
    } else if half == 0x8000 {
      assert Wrap(x, half) == (x + 0x8000) % 0x1_0000 - 0x8000;
    } else {
      assert Wrap(x, half) == (x + 0x8000_0000) % 0x1_0000_0000 - 0x8000_0000;
    }
  }

  /** A narrow signed decode wraps out-of-range values instead of rejecting them; it never needs a
      larger code than the one it was given, and the code survives exactly when it was in range. */
  lemma {:induction false} WrapShrinks(n: u64, half: int)
    requires half == 0x80 || half == 0x8000 || half == 0x8000_0000
    ensures -half <= Wrap(Unzigzag(n), half) < half
    ensures Zigzag(Wrap(Unzigzag(n), half)) <= n
    ensures Zigzag(Wrap(Unzigzag(n), half)) == n <==> n < 2 * half
  {
    var x := Unzigzag(n);
    var w := Wrap(x, half);
    WrapRange(x, half);
    if n < 2 * half {
      assert -half <= x < half;
      assert Zigzag(x) == n;
    } else {
      assert Zigzag(w) == if w >= 0 then 2 * w else -2 * w - 1;
      assert Zigzag(w) < 2 * half <= n;
    }
  }

  // -------------------------------------------------------------- encoding

  function EncChars(s: seq<char>): Bytes {
    if s == [] then [] else EncVarnat(s[0] as int) + EncChars(s[1..])
  }

  /** The varint an integer value is written as. */
  function Code(v: Value): u64
    requires v.VU16? || v.VU32? || v.VU64? || v.VI8? || v.VI16? || v.VI32? || v.VI64?
  {
    match v
    case VU16(x) => x
    case VU32(x) => x
    case VU64(x) => x
    case VI8(x) => Zigzag(x)
    case VI16(x) => Zigzag(x)
    case VI32(x) => Zigzag(x)
    case VI64(x) => Zigzag(x)
  }

  /** A mismatched pair writes nothing (the source asserts in debug builds only). */
  function EncValue(ty: Ty, v: Value): Bytes
    decreases ty, 0
  {
    match (ty, v)
    case (Bool, VBool(b)) => EncBool(b)
    case (U8, VU8(x)) => [x]
    case (U16, VU16(_)) => EncVarnat(Code(v))
    case (U32, VU32(_)) => EncVarnat(Code(v))
    case (U64, VU64(_)) => EncVarnat(Code(v))
    case (I8, VI8(_)) => EncVarnat(Code(v))
    case (I16, VI16(_)) => EncVarnat(Code(v))
    case (I32, VI32(_)) => EncVarnat(Code(v))
    case (I64, VI64(_)) => EncVarnat(Code(v))
    case (Str, VStr(s)) => EncVarnat(|s|) + EncChars(s)
    case (Blob, VBlob(bs)) => EncBytes(bs)
    case (Opt(t), VOpt(o)) => if o.None? then [0] else [1] + EncValue(t, o.value)
    case (Res(ok, err), VRes(r)) =>
      (match r case Success(x) => [0] + EncValue(ok, x) case Failure(e) => [1] + EncValue(err, e))
    case (List(t), VList(xs)) => EncVarnat(|xs|) + EncList(t, xs)
    case _ => []
  }

  function EncList(t: Ty, xs: seq<Value>): Bytes
    decreases t, |xs| + 1
  {
    if xs == [] then [] else EncValue(t, xs[0]) + EncList(t, xs[1..])
  }

  // -------------------------------------------------------------- decoding

  predicate ScalarValue(cp: int) {
    0 <= cp < 0xD800 || 0xE000 <= cp < 0x11_0000
  }

  function DecChar(bs: Bytes): (r: Dec<char>)
    ensures r.Ok? ==> 0 < r.used <= |bs|
  {
    var (cp, used) :- DecVarnat(bs);
    if ScalarValue(cp) then Ok(cp as char, used) else Fail(Corrupt)
  }

  function DecChars(count: nat, bs: Bytes): (r: Dec<seq<char>>)
    ensures r.Ok? ==> r.used <= |bs| && |r.value| == count
    decreases count
  {
    if count == 0 then Ok([], 0) else
    var (c, u) :- DecChar(bs);
    var (cs, us) :- DecChars(count - 1, bs[u..]);
    Ok([c] + cs, u + us)
  }

  predicate VarintTy(ty: Ty) {
    ty.U16? || ty.U32? || ty.U64? || ty.I8? || ty.I16? || ty.I32? || ty.I64?
  }

  /** Unsigned types check their range; narrow signed ones wrap into it. */
  function IntegerOf(ty: Ty, n: u64): (v: Option<Value>)
    requires VarintTy(ty)
    ensures v.Some? ==> Matches(ty, v.value)
  {
    match ty
    case U16 => if n < 0x1_0000 then Some(VU16(n)) else None
    case U32 => if n < 0x1_0000_0000 then Some(VU32(n)) else None
    case U64 => Some(VU64(n))
    case I8 => Some(VI8(Wrap(Unzigzag(n), 0x80)))
    case I16 => Some(VI16(Wrap(Unzigzag(n), 0x8000)))
    case I32 => Some(VI32(Wrap(Unzigzag(n), 0x8000_0000)))
    case I64 => Some(VI64(Unzigzag(n)))
  }

  function DecInteger(ty: Ty, bs: Bytes): (r: Dec<Value>)
    requires VarintTy(ty)
    ensures r.Ok? ==> 0 < r.used <= |bs| && Matches(ty, r.value)
  {
    var (n, used) :- DecVarnat(bs);
    var v := IntegerOf(ty, n);
    if v.Some? then Ok(v.value, used) else Fail(Corrupt)
  }

  function DecValue(ty: Ty, bs: Bytes): (r: Dec<Value>)
    ensures r.Ok? ==> 0 < r.used <= |bs| && Matches(ty, r.value)
    decreases ty, 0
  {
    match ty
    case Bool => var (b, u) :- DecBool(bs); Ok(VBool(b), u)
    case U8 => if bs == [] then Fail(Torn) else Ok(VU8(bs[0]), 1)
    case U16 | U32 | U64 | I8 | I16 | I32 | I64 => DecInteger(ty, bs)
    case Str =>
      var (count, u) :- DecVarnat(bs);
      var (s, us) :- DecChars(count, bs[u..]);
      Ok(VStr(s), u + us)
    case Blob => var (payload, u) :- DecBytes(bs); Ok(VBlob(payload), u)
    case Opt(t) =>
      if bs == [] then Fail(Torn)
      else if bs[0] == 0 then Ok(VOpt(None), 1)
      else if bs[0] == 1 then var (x, u) :- DecValue(t, bs[1..]); Ok(VOpt(Some(x)), 1 + u)
      else Fail(Corrupt)
    case Res(ok, err) =>
      if bs == [] then Fail(Torn)
      else if bs[0] == 0 then var (x, u) :- DecValue(ok, bs[1..]); Ok(VRes(Success(x)), 1 + u)
      else if bs[0] == 1 then var (e, u) :- DecValue(err, bs[1..]); Ok(VRes(Failure(e)), 1 + u)
      else Fail(Corrupt)
    case List(t) =>
      var (count, u) :- DecVarnat(bs);
      var (xs, us) :- DecList(t, count, bs[u..]);
      Ok(VList(xs), u + us)
  }

  function DecList(t: Ty, count: nat, bs: Bytes): (r: Dec<seq<Value>>)
    ensures r.Ok? ==> r.used <= |bs| && |r.value| == count && forall x :: x in r.value ==> Matches(t, x)
    decreases t, count + 1
  {
    if count == 0 then Ok([], 0) else
    var (x, u) :- DecValue(t, bs);
    var (xs, us) :- DecList(t, count - 1, bs[u..]);
    Ok([x] + xs, u + us)
  }
}
