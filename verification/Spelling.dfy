/** What the value decoder accepts, exactly: the bytes that spell a value. A spelling is the value's
    encoding with every varint written by any digit string of the right value, padding included. */
module Spelling {
  import opened Wire
  import opened Codec
  import opened Values
  import opened ValueLaws

  // ------------------------------------------------------------- the spellings

  /** One to ten digits, continuation bits on all but the last, worth `n` modulo 2^64. */
  predicate SpellsNat(e: Bytes, n: int) {
    && 1 <= |e| <= 10
    && (forall i | 0 <= i < |e| - 1 :: 128 <= e[i])
    && e[|e| - 1] < 128
    && n == DigitSum(e) % 0x1_0000_0000_0000_0000
  }

  /** The integer a code stands for: itself if unsigned and in range; if signed, the zigzag value cut to
      the type's width. */
  predicate Means(ty: Ty, code: u64, v: Value) {
    match (ty, v)
    case (U16, VU16(x)) => x == code
    case (U32, VU32(x)) => x == code
    case (U64, VU64(x)) => x == code
    case (I8, VI8(x)) => (Unzigzag(code) - x) % 0x100 == 0
    case (I16, VI16(x)) => (Unzigzag(code) - x) % 0x1_0000 == 0
    case (I32, VI32(x)) => (Unzigzag(code) - x) % 0x1_0000_0000 == 0
    case (I64, VI64(x)) => x == Unzigzag(code)
    case _ => false
  }

  ghost predicate SpellsInteger(ty: Ty, v: Value, e: Bytes) {
    exists code: u64 :: SpellsNat(e, code) && Means(ty, code, v)
  }

  ghost predicate SpellsChars(s: seq<char>, e: Bytes) {
    if s == [] then e == []
    else exists k: nat | k <= |e| :: SpellsNat(e[..k], s[0] as int) && SpellsChars(s[1..], e[k..])
  }

  ghost predicate SpellsBytes(payload: Bytes, e: Bytes) {
    exists k: nat | k <= |e| :: SpellsNat(e[..k], |payload|) && e[k..] == payload
  }

  ghost predicate Spells(ty: Ty, v: Value, e: Bytes)
    decreases ty, 0
  {
    match ty
    case Bool => v.VBool? && e == (if v.b then [1] else [0])
    case U8 => v.VU8? && e == [v.u8]
    case U16 | U32 | U64 | I8 | I16 | I32 | I64 => SpellsInteger(ty, v, e)
    case Str => v.VStr? && exists k: nat | k <= |e| :: SpellsNat(e[..k], |v.s|) && SpellsChars(v.s, e[k..])
    case Blob => v.VBlob? && SpellsBytes(v.bs, e)
    case Opt(t) =>
      && v.VOpt?
      && (match v.o
          case None => e == [0]
          case Some(x) => e != [] && e[0] == 1 && Spells(t, x, e[1..]))
    case Res(ok, err) =>
      && v.VRes? && e != []
      && (match v.r
          case Success(x) => e[0] == 0 && Spells(ok, x, e[1..])
          case Failure(x) => e[0] == 1 && Spells(err, x, e[1..]))
    case List(t) =>
      && v.VList?
      && exists k: nat | k <= |e| :: SpellsNat(e[..k], |v.xs|) && SpellsList(t, v.xs, e[k..])
  }

  ghost predicate SpellsList(t: Ty, xs: seq<Value>, e: Bytes)
    decreases t, |xs| + 1
  {
    if xs == [] then e == []
    else exists k: nat | k <= |e| :: Spells(t, xs[0], e[..k]) && SpellsList(t, xs[1..], e[k..])
  }

  // ----------------------------------------------------------------- varints

  /** Exactly which bytes a varint is read from, and as what. */
  lemma {:induction false} NatIff(bs: Bytes, n: u64, used: nat)
    ensures DecVarnat(bs) == Ok(n, used) <==> used <= |bs| && SpellsNat(bs[..used], n)
  {
    hide DigitSum;
    var k := DigitRun(bs);
    if used <= |bs| && SpellsNat(bs[..used], n) {
      var e := bs[..used];
      assert forall i | 0 <= i < used - 1 :: 128 <= bs[i] by {
        forall i | 0 <= i < used - 1 ensures 128 <= bs[i] { assert e[i] == bs[i]; }
      }
      assert e[used - 1] == bs[used - 1] < 128;
      RunLength(bs, used - 1);
    }
  }

  lemma {:induction false} RunLength(bs: Bytes, k: nat)
    requires k < |bs| && bs[k] < 128 && forall i | 0 <= i < k :: 128 <= bs[i]
    ensures DigitRun(bs) == k
  {
    if k == 0 {
    } else {
      assert bs[0] >= 128;
      RunLength(bs[1..], k - 1);
    }
  }

  lemma {:induction false} NatDecodes(e: Bytes, n: u64, bs: Bytes)
    requires SpellsNat(e, n) && e <= bs
    ensures DecVarnat(bs) == Ok(n, |e|)
  {
    hide SpellsNat, DecVarnat;
    assert bs[..|e|] == e;
    NatIff(bs, n, |e|);
  }

  lemma {:induction false} NatSpelled(bs: Bytes)
    requires DecVarnat(bs).Ok?
    ensures SpellsNat(bs[..DecVarnat(bs).used], DecVarnat(bs).value)
  {
    hide SpellsNat, DecVarnat;
    NatIff(bs, DecVarnat(bs).value, DecVarnat(bs).used);
  }

  // ----------------------------------------------------------------- integers

  lemma {:induction false} WrapMeans(x: int, half: int, y: int)
    requires half == 0x80 || half == 0x8000 || half == 0x8000_0000
    requires -half <= y < half
    ensures Wrap(x, half) == y <==> (x - y) % (2 * half) == 0
  {
    if half == 0x80 {
      CutMeans8(x, y);
    } else if half == 0x8000 {
      CutMeans16(x, y);
    } else {
      CutMeans32(x, y);
    }
  }

  lemma {:induction false} CutMeans8(x: int, y: int)
    requires -0x80 <= y < 0x80
    ensures (x + 0x80) % 0x100 - 0x80 == y <==> (x - y) % 0x100 == 0
  {
  }

  lemma {:induction false} CutMeans16(x: int, y: int)
    requires -0x8000 <= y < 0x8000
    ensures (x + 0x8000) % 0x1_0000 - 0x8000 == y <==> (x - y) % 0x1_0000 == 0
  {
  }

  lemma {:induction false} CutMeans32(x: int, y: int)
    requires -0x8000_0000 <= y < 0x8000_0000
    ensures (x + 0x8000_0000) % 0x1_0000_0000 - 0x8000_0000 == y <==> (x - y) % 0x1_0000_0000 == 0
  {
  }

  /** The decoder makes of a code exactly what it means, and nothing else means that. */
  lemma {:induction false} IntegerMeans(ty: Ty, code: u64, v: Value)
    requires VarintTy(ty)
    ensures IntegerOf(ty, code) == Some(v) <==> Means(ty, code, v)
  {
    hide Wrap, Unzigzag;
    match (ty, v) {
      case (I8, VI8(x)) => WrapMeans(Unzigzag(code), 0x80, x);
      case (I16, VI16(x)) => WrapMeans(Unzigzag(code), 0x8000, x);
      case (I32, VI32(x)) => WrapMeans(Unzigzag(code), 0x8000_0000, x);
      case _ =>
    }
  }

  // ------------------------------------------------------------ spelled, so read

  lemma {:induction false} CharsDecode(s: seq<char>, e: Bytes, bs: Bytes)
    requires SpellsChars(s, e) && e <= bs
    ensures DecChars(|s|, bs) == Ok(s, |e|)
  {
    hide SpellsNat, DecVarnat;
    if s == [] {
    } else {
      var k: nat :| k <= |e| && SpellsNat(e[..k], s[0] as int) && SpellsChars(s[1..], e[k..]);
      NatDecodes(e[..k], s[0] as int, bs);
      CharsDecode(s[1..], e[k..], bs[k..]);
      assert DecChar(bs) == Ok(s[0], k);
      assert [s[0]] + s[1..] == s;
    }
  }

  lemma {:induction false} BytesDecode(payload: Bytes, e: Bytes, bs: Bytes)
    requires SpellsBytes(payload, e) && e <= bs
    ensures DecBytes(bs) == Ok(payload, |e|)
  {
    hide SpellsNat, DecVarnat;
    var k: nat :| k <= |e| && SpellsNat(e[..k], |payload|) && e[k..] == payload;
    NatLimit(e[..k], |payload|);
    NatDecodes(e[..k], |payload|, bs);
    assert bs[k..][..|payload|] == payload;
  }

  lemma {:induction false} NatLimit(e: Bytes, n: int)
    requires SpellsNat(e, n)
    ensures 0 <= n < U64_LIMIT
  {
  }

  /** Bytes that spell a value are read as that value, whatever follows. */
  lemma {:induction false} SpelledDecodes(ty: Ty, v: Value, e: Bytes, bs: Bytes)
    requires Spells(ty, v, e) && e <= bs
    ensures DecValue(ty, bs) == Ok(v, |e|)
    decreases ty, 0
  {
    hide SpellsNat, DecVarnat, SpellsChars, DecChars, SpellsBytes, DecBytes, SpellsList, DecList, IntegerOf, Means;
    match ty {
      case Bool | U8 =>
      case U16 | U32 | U64 | I8 | I16 | I32 | I64 =>
        var code: u64 :| SpellsNat(e, code) && Means(ty, code, v);
        NatDecodes(e, code, bs);
        IntegerMeans(ty, code, v);
      case Str =>
        var k: nat :| k <= |e| && SpellsNat(e[..k], |v.s|) && SpellsChars(v.s, e[k..]);
        NatDecodes(e[..k], |v.s|, bs);
        CharsDecode(v.s, e[k..], bs[k..]);
      case Blob => BytesDecode(v.bs, e, bs);
      case Opt(t) =>
        if v.o.Some? { SpelledDecodes(t, v.o.value, e[1..], bs[1..]); }
      case Res(ok, err) =>
        match v.r {
          case Success(x) => SpelledDecodes(ok, x, e[1..], bs[1..]);
          case Failure(x) => SpelledDecodes(err, x, e[1..], bs[1..]);
        }
      case List(t) =>
        var k: nat :| k <= |e| && SpellsNat(e[..k], |v.xs|) && SpellsList(t, v.xs, e[k..]);
        NatDecodes(e[..k], |v.xs|, bs);
        ListDecodes(t, v.xs, e[k..], bs[k..]);
    }
  }

  lemma {:induction false} ListDecodes(t: Ty, xs: seq<Value>, e: Bytes, bs: Bytes)
    requires SpellsList(t, xs, e) && e <= bs
    ensures DecList(t, |xs|, bs) == Ok(xs, |e|)
    decreases t, |xs| + 1
  {
    hide Spells, DecValue, DecList, Matches;
    if xs == [] {
      ListNone(t, bs);
    } else {
      var k: nat :| k <= |e| && Spells(t, xs[0], e[..k]) && SpellsList(t, xs[1..], e[k..]);
      SpelledDecodes(t, xs[0], e[..k], bs);
      ListDecodes(t, xs[1..], e[k..], bs[k..]);
      ListUnfold(t, |xs|, bs);
      assert [xs[0]] + xs[1..] == xs;
    }
  }

  // ------------------------------------------------------------ read, so spelled

  lemma {:induction false} CharsSpelled(count: nat, bs: Bytes)
    requires DecChars(count, bs).Ok?
    ensures var r := DecChars(count, bs); SpellsChars(r.value, bs[..r.used])
    decreases count
  {
    hide SpellsNat, DecVarnat;
    if count == 0 {
    } else {
      var r, c := DecChars(count, bs), DecChar(bs);
      var e := bs[..r.used];
      NatSpelled(bs);
      CharsSpelled(count - 1, bs[c.used..]);
      assert e[..c.used] == bs[..c.used];
      assert e[c.used..] == bs[c.used..][..r.used - c.used];
      assert r.value[1..] == DecChars(count - 1, bs[c.used..]).value;
      assert SpellsNat(e[..c.used], r.value[0] as int) && SpellsChars(r.value[1..], e[c.used..]);
    }
  }

  lemma {:induction false} BytesSpelled(bs: Bytes)
    requires DecBytes(bs).Ok?
    ensures var r := DecBytes(bs); SpellsBytes(r.value, bs[..r.used])
  {
    hide SpellsNat, DecVarnat;
    var r, u := DecBytes(bs), DecVarnat(bs).used;
    var e := bs[..r.used];
    NatSpelled(bs);
    assert e[..u] == bs[..u] && e[u..] == r.value;
  }

  lemma {:induction false} IntegerSpelled(ty: Ty, bs: Bytes)
    requires VarintTy(ty) && DecInteger(ty, bs).Ok?
    ensures var r := DecInteger(ty, bs); SpellsInteger(ty, r.value, bs[..r.used])
  {
    hide SpellsNat, DecVarnat, IntegerOf, Means;
    NatSpelled(bs);
    IntegerMeans(ty, DecVarnat(bs).value, DecInteger(ty, bs).value);
  }

  /** Whatever the decoder reads a value from spells that value. */
  lemma {:induction false} DecodedSpelled(ty: Ty, bs: Bytes)
    requires DecValue(ty, bs).Ok?
    ensures var r := DecValue(ty, bs); Spells(ty, r.value, bs[..r.used])
    decreases ty, 0
  {
    hide SpellsNat, DecVarnat, SpellsChars, DecChars, SpellsBytes, DecBytes, SpellsList, DecList;
    hide DecInteger, SpellsInteger;
    var r := DecValue(ty, bs);
    var e := bs[..r.used];
    match ty {
      case Bool => assert e == [bs[0]];
      case U8 => assert e == [bs[0]];
      case U16 | U32 | U64 | I8 | I16 | I32 | I64 => IntegerSpelled(ty, bs);
      case Str =>
        var n := DecVarnat(bs);
        NatSpelled(bs);
        CharsSpelled(n.value, bs[n.used..]);
        HeadSplit(bs, n.used, r.used);
      case Blob => BytesSpelled(bs);
      case Opt(t) =>
        if bs[0] == 0 { assert e == [0]; } else { DecodedSpelled(t, bs[1..]); HeadSplit(bs, 1, r.used); }
      case Res(ok, err) =>
        DecodedSpelled(if bs[0] == 0 then ok else err, bs[1..]);
        HeadSplit(bs, 1, r.used);
      case List(t) =>
        var n := DecVarnat(bs);
        NatSpelled(bs);
        ListSpelled(t, n.value, bs[n.used..]);
        HeadSplit(bs, n.used, r.used);
    }
  }

  lemma {:induction false} HeadSplit(bs: Bytes, head: nat, used: nat)
    requires head <= used <= |bs|
    ensures bs[..used][..head] == bs[..head] && bs[..used][head..] == bs[head..][..used - head]
  {
  }

  lemma {:induction false} ListSpelled(t: Ty, count: nat, bs: Bytes)
    requires DecList(t, count, bs).Ok?
    ensures var r := DecList(t, count, bs); SpellsList(t, r.value, bs[..r.used])
    decreases t, count + 1
  {
    hide Spells, DecValue, DecList;
    if count == 0 {
      ListNone(t, bs);
    } else {
      ListUnfold(t, count, bs);
      var r, x := DecList(t, count, bs), DecValue(t, bs);
      var e := bs[..r.used];
      DecodedSpelled(t, bs);
      ListSpelled(t, count - 1, bs[x.used..]);
      HeadSplit(bs, x.used, r.used);
      assert r.value[1..] == DecList(t, count - 1, bs[x.used..]).value;
      assert Spells(t, r.value[0], e[..x.used]) && SpellsList(t, r.value[1..], e[x.used..]);
    }
  }

  /** The decoder, exactly: it reads a value from the front of some bytes if and only if the bytes it used
      spell that value. */
  lemma {:induction false} ValueIff(ty: Ty, bs: Bytes, v: Value, used: nat)
    ensures DecValue(ty, bs) == Ok(v, used) <==> used <= |bs| && Spells(ty, v, bs[..used])
  {
    hide DecValue, Spells;
    if DecValue(ty, bs) == Ok(v, used) {
      DecodedSpelled(ty, bs);
    }
    if used <= |bs| && Spells(ty, v, bs[..used]) {
      SpelledDecodes(ty, v, bs[..used], bs);
    }
  }

  /** The encoding is a spelling, and no spelling is shorter. */
  lemma {:induction false} EncShortest(ty: Ty, v: Value, e: Bytes)
    requires Spells(ty, v, e)
    ensures Matches(ty, v) && Spells(ty, v, EncValue(ty, v)) && |EncValue(ty, v)| <= |e|
  {
    hide DecValue, Spells, EncValue;
    SpelledDecodes(ty, v, e, e);
    ValueSound(ty, e);
    ValueFaithful(ty, v, EncValue(ty, v));
    DecodedSpelled(ty, EncValue(ty, v));
    assert EncValue(ty, v)[..|EncValue(ty, v)|] == EncValue(ty, v);
  }

  // ---------------------------------------------------------------- verdicts

  /** Bytes that settle any unfinished varint: eleven that all go on. */
  const RUNAWAY: Bytes := seq(11, _ => 0xff)

  lemma {:induction false} NatRunaway(bs: Bytes)
    ensures DecVarnat(bs + RUNAWAY) != Fail(Torn)
  {
    hide DecVarnat;
    VarnatVerdict(bs + RUNAWAY);
  }

  lemma {:induction false} CharsUndecided(count: nat, bs: Bytes)
    requires DecChars(count, bs) == Fail(Torn)
    ensures DecChars(count, bs + RUNAWAY) != Fail(Torn)
    decreases count
  {
    hide DecVarnat;
    VarnatVerdict(bs + RUNAWAY);
    var c := DecChar(bs);
    if DecVarnat(bs) == Fail(Torn) {
      VarnatVerdict(bs);
      assert forall i :: 0 <= i < 10 ==> 128 <= (bs + RUNAWAY)[i];
    } else {
      VarnatStable(bs, bs + RUNAWAY);
      assert (bs + RUNAWAY)[c.used..] == bs[c.used..] + RUNAWAY;
      CharsUndecided(count - 1, bs[c.used..]);
    }
  }

  lemma {:induction false} BytesUndecided(bs: Bytes) returns (more: Bytes)
    requires DecBytes(bs) == Fail(Torn)
    ensures DecBytes(bs + more) != Fail(Torn)
  {
    hide DecVarnat;
    if DecVarnat(bs) == Fail(Torn) {
      more := RUNAWAY;
      VarnatVerdict(bs);
      VarnatVerdict(bs + more);
      assert forall i :: 0 <= i < 10 ==> 128 <= (bs + more)[i];
    } else {
      more := seq(DecVarnat(bs).value, _ => 0);
      VarnatStable(bs, bs + more);
    }
  }

  /** A torn verdict is never the last word: some bytes to follow would settle it. */
  lemma {:induction false} ValueUndecided(ty: Ty, bs: Bytes) returns (more: Bytes)
    requires DecValue(ty, bs) == Fail(Torn)
    ensures DecValue(ty, bs + more) != Fail(Torn)
    decreases ty, 0
  {
    hide DecVarnat, DecChars, DecBytes, DecList, IntegerOf, Matches;
    match ty {
      case Bool | U8 => more := [0];
      case U16 | U32 | U64 | I8 | I16 | I32 | I64 =>
        more := RUNAWAY;
        NatRunaway(bs);
      case Str =>
        more := RUNAWAY;
        TextUndecided(bs);
      case Blob => more := BytesUndecided(bs);
      case Opt(t) =>
        if bs == [] {
          more := [0];
        } else {
          more := ValueUndecided(t, bs[1..]);
          TaggedUndecided(ty, t, bs, more);
        }
      case Res(ok, err) =>
        if bs == [] {
          more := [2];
        } else {
          var t := if bs[0] == 0 then ok else err;
          more := ValueUndecided(t, bs[1..]);
          TaggedUndecided(ty, t, bs, more);
        }
      case List(t) =>
        var n := DecVarnat(bs);
        more := RUNAWAY;
        if n.Ok? { more := ListUndecided(t, n.value, bs[n.used..]); }
        CountedUndecided(t, bs, more);
    }
  }

  lemma {:induction false} TaggedUndecided(ty: Ty, t: Ty, bs: Bytes, more: Bytes)
    requires bs != [] && bs[0] <= 1
    requires (ty == Opt(t) && bs[0] == 1) || (ty.Res? && t == if bs[0] == 0 then ty.ok else ty.err)
    requires DecValue(t, bs[1..] + more) != Fail(Torn)
    ensures DecValue(ty, bs + more) != Fail(Torn)
  {
    hide DecVarnat, DecChars, DecBytes, DecList, IntegerOf, Matches;
    assert (bs + more)[1..] == bs[1..] + more;
  }

  lemma {:induction false} TextUndecided(bs: Bytes)
    requires DecValue(Str, bs) == Fail(Torn)
    ensures DecValue(Str, bs + RUNAWAY) != Fail(Torn)
  {
    hide DecVarnat, DecChars;
    var n := DecVarnat(bs);
    if n.Ok? {
      VarnatStable(bs, bs + RUNAWAY);
      assert (bs + RUNAWAY)[n.used..] == bs[n.used..] + RUNAWAY;
      CharsUndecided(n.value, bs[n.used..]);
    } else {
      RunawayCorrupt(bs);
    }
  }

  lemma {:induction false} CountedUndecided(t: Ty, bs: Bytes, more: Bytes)
    requires DecValue(List(t), bs) == Fail(Torn)
    requires var n := DecVarnat(bs);
      if n.Ok? then DecList(t, n.value, bs[n.used..] + more) != Fail(Torn) else more == RUNAWAY
    ensures DecValue(List(t), bs + more) != Fail(Torn)
  {
    hide DecVarnat, DecList;
    var n := DecVarnat(bs);
    if n.Ok? {
      VarnatStable(bs, bs + more);
      assert (bs + more)[n.used..] == bs[n.used..] + more;
    } else {
      RunawayCorrupt(bs);
    }
  }

  lemma {:induction false} RunawayCorrupt(bs: Bytes)
    requires DecVarnat(bs) == Fail(Torn)
    ensures DecVarnat(bs + RUNAWAY) == Fail(Corrupt)
  {
    hide DecVarnat;
    VarnatVerdict(bs);
    VarnatVerdict(bs + RUNAWAY);
    assert forall i :: 0 <= i < 10 ==> 128 <= (bs + RUNAWAY)[i];
  }

  lemma {:induction false} ListUndecided(t: Ty, count: nat, bs: Bytes) returns (more: Bytes)
    requires DecList(t, count, bs) == Fail(Torn)
    ensures DecList(t, count, bs + more) != Fail(Torn)
    decreases t, count + 1
  {
    hide DecValue, DecList, Matches;
    if count == 0 {
      ListNone(t, bs);
      more := [];
    } else {
      ListUnfold(t, count, bs);
      var first := [];
      if DecValue(t, bs) == Fail(Torn) {
        first := ValueUndecided(t, bs);
      } else {
        assert bs + first == bs;
      }
      var longer := bs + first;
      var x := DecValue(t, longer);
      var rest := [];
      if x.Ok? && DecList(t, count - 1, longer[x.used..]) == Fail(Torn) {
        rest := ListUndecided(t, count - 1, longer[x.used..]);
      } else if x.Ok? {
        assert longer[x.used..] + rest == longer[x.used..];
      }
      more := first + rest;
      assert bs + more == longer + rest;
      ElementSettled(t, count, longer, rest);
    }
  }

  /** A list whose first element is settled, and whose other elements are by `rest`. */
  lemma {:induction false} ElementSettled(t: Ty, count: nat, bs: Bytes, rest: Bytes)
    requires count > 0 && DecValue(t, bs) != Fail(Torn)
    requires DecValue(t, bs).Ok? ==> DecList(t, count - 1, bs[DecValue(t, bs).used..] + rest) != Fail(Torn)
    ensures DecList(t, count, bs + rest) != Fail(Torn)
  {
    hide DecValue, DecList, Matches;
    var x := DecValue(t, bs);
    ValueStable(t, bs, bs + rest);
    ListUnfold(t, count, bs + rest);
    if x.Ok? {
      assert (bs + rest)[x.used..] == bs[x.used..] + rest;
    }
  }

  /** The torn verdict, exactly: it is the one that later bytes would change. */
  lemma {:induction false} TornIff(ty: Ty, bs: Bytes)
    ensures DecValue(ty, bs) == Fail(Torn) <==> exists more: Bytes :: DecValue(ty, bs + more) != DecValue(ty, bs)
  {
    hide DecValue;
    if DecValue(ty, bs) == Fail(Torn) {
      var more := ValueUndecided(ty, bs);
      assert DecValue(ty, bs + more) != DecValue(ty, bs);
    } else {
      forall more: Bytes
        ensures DecValue(ty, bs + more) == DecValue(ty, bs)
      {
        ValueStable(ty, bs, bs + more);
      }
    }
  }

  /** Faults are told at the byte they show: a flag or tag above 1, a code outside an unsigned type, a
      number that is no codepoint, a varint that fails in front of anything. */
  lemma {:induction false} FirstFault(ty: Ty, bs: Bytes)
    ensures (ty.Bool? || ty.Opt? || ty.Res?) && bs != [] && bs[0] > 1 ==> DecValue(ty, bs) == Fail(Corrupt)
    ensures var n := DecVarnat(bs);
      && (ty.U16? && n.Ok? && n.value >= 0x1_0000 ==> DecValue(ty, bs) == Fail(Corrupt))
      && (ty.U32? && n.Ok? && n.value >= 0x1_0000_0000 ==> DecValue(ty, bs) == Fail(Corrupt))
      && (n.Fail? && (VarintTy(ty) || ty.Str? || ty.Blob? || ty.List?) ==> DecValue(ty, bs) == Fail(n.why))
      && (n.Ok? && (0xD800 <= n.value < 0xE000 || 0x11_0000 <= n.value) ==>
            forall count: nat | 0 < count :: DecChars(count, bs) == Fail(Corrupt))
  {
    hide DecVarnat, DecList;
  }
}
