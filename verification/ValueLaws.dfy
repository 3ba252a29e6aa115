/** What the value codec promises: append-form round trips, prefix-freedom, decided verdicts that
    later bytes cannot change, and decoded values that match their type and re-encode no longer. */
module ValueLaws {
  import opened Wire
  import opened Codec
  import opened Values

  // ------------------------------------------- round trip and strict prefixes

  lemma {:induction false} IntegerRoundTrip(ty: Ty, v: Value)
    requires VarintTy(ty) && Matches(ty, v)
    ensures IntegerOf(ty, Code(v)) == Some(v)
    ensures EncValue(ty, v) == EncVarnat(Code(v))
  {
    hide EncVarnat;
    match v {
      case VI8(x) => ZigzagBijection(x, 0); assert Wrap(x, 0x80) == x;
      case VI16(x) => ZigzagBijection(x, 0); assert Wrap(x, 0x8000) == x;
      case VI32(x) => ZigzagBijection(x, 0); assert Wrap(x, 0x8000_0000) == x;
      case VI64(x) => ZigzagBijection(x, 0);
      case _ =>
    }
  }

  lemma {:induction false} CharFaithful(c: char, bs: Bytes)
    ensures Faithful(DecChar(bs), bs, EncVarnat(c as int), c)
  {
    hide EncVarnat, DecVarnat;
    VarnatFaithful(c as int, bs);
  }

  lemma {:induction false} CharsFaithful(s: seq<char>, bs: Bytes)
    ensures Faithful(DecChars(|s|, bs), bs, EncChars(s), s)
  {
    hide EncVarnat, DecVarnat, DecChar;
    if s == [] {
    } else {
      var head := EncVarnat(s[0] as int);
      SplitPrefix(head, EncChars(s[1..]), bs);
      CharFaithful(s[0], bs);
      if head <= bs {
        CharsFaithful(s[1..], bs[|head|..]);
        assert [s[0]] + s[1..] == s;
      }
    }
  }

  /** A count-prefixed block: what its head and its body promise, the whole promises. */
  ghost predicate Block<T>(r: Dec<T>, bs: Bytes, head: Bytes, body: Bytes, v: T) {
    && (head <= bs && body <= bs[|head|..] ==> r == Ok(v, |head| + |body|))
    && (head <= bs && bs[|head|..] < body ==> r == Fail(Torn))
    && (bs < head ==> r == Fail(Torn))
  }

  lemma {:induction false} BlockFaithful<T>(r: Dec<T>, bs: Bytes, head: Bytes, body: Bytes, v: T)
    requires Block(r, bs, head, body, v)
    ensures Faithful(r, bs, head + body, v)
  {
    SplitPrefix(head, body, bs);
  }

  /** Round trip in append form and prefix-freedom, for every type and matching value. */
  lemma {:induction false} ValueFaithful(ty: Ty, v: Value, bs: Bytes)
    requires Matches(ty, v)
    ensures Faithful(DecValue(ty, bs), bs, EncValue(ty, v), v)
    decreases ty, 0
  {
    hide EncVarnat, DecVarnat, EncChars, DecChars, EncBytes, DecBytes, EncList, DecList;
    match ty {
      case Bool | U8 =>
      case U16 | U32 | U64 | I8 | I16 | I32 | I64 =>
        IntegerRoundTrip(ty, v);
        VarnatFaithful(Code(v), bs);
      case Blob =>
        BytesFaithful(v.bs, bs);
      case Str =>
        var head := EncVarnat(|v.s|);
        VarnatFaithful(|v.s|, bs);
        if head <= bs { CharsFaithful(v.s, bs[|head|..]); }
        BlockFaithful(DecValue(ty, bs), bs, head, EncChars(v.s), v);
      case Opt(t) =>
        if v.o.Some? {
          TagFaithful(ty, v, t, v.o.value, 1, bs);
        }
      case Res(ok, err) =>
        match v.r {
          case Success(x) => TagFaithful(ty, v, ok, x, 0, bs);
          case Failure(e) => TagFaithful(ty, v, err, e, 1, bs);
        }
      case List(t) =>
        var head := EncVarnat(|v.xs|);
        VarnatFaithful(|v.xs|, bs);
        if head <= bs { ListFaithful(t, v.xs, bs[|head|..]); }
        BlockFaithful(DecValue(ty, bs), bs, head, EncList(t, v.xs), v);
    }
  }

  /** A one-byte tag in front of an inner value. */
  ghost predicate Tagged(ty: Ty, v: Value, t: Ty, x: Value, tag: byte) {
    || (ty == Opt(t) && v == VOpt(Some(x)) && tag == 1)
    || (ty.Res? && ty.ok == t && v == VRes(Success(x)) && tag == 0)
    || (ty.Res? && ty.err == t && v == VRes(Failure(x)) && tag == 1)
  }

  lemma {:induction false} TagFaithful(ty: Ty, v: Value, t: Ty, x: Value, tag: byte, bs: Bytes)
    requires Tagged(ty, v, t, x, tag) && Matches(t, x)
    ensures Faithful(DecValue(ty, bs), bs, EncValue(ty, v), v)
    decreases t, 1
  {
    hide EncVarnat, DecVarnat, EncChars, DecChars, EncBytes, DecBytes, EncList, DecList;
    hide DecInteger, DecBool, EncBool, DecValue;
    assert EncValue(ty, v) == [tag] + EncValue(t, x);
    if bs != [] && bs[0] == tag {
      ValueFaithful(t, x, bs[1..]);
      TaggedDecode(ty, v, t, x, tag, bs);
    } else {
      TaggedTorn(ty, bs);
    }
  }

  lemma {:induction false} TaggedTorn(ty: Ty, bs: Bytes)
    requires ty.Opt? || ty.Res?
    ensures bs == [] ==> DecValue(ty, bs) == Fail(Torn)
  {
  }

  lemma {:induction false} TaggedDecode(ty: Ty, v: Value, t: Ty, x: Value, tag: byte, bs: Bytes)
    requires Tagged(ty, v, t, x, tag) && bs != [] && bs[0] == tag
    ensures DecValue(t, bs[1..]).Fail? ==> DecValue(ty, bs) == DecValue(t, bs[1..])
    ensures DecValue(t, bs[1..]).Ok? && DecValue(t, bs[1..]).value == x ==>
              DecValue(ty, bs) == Ok(v, 1 + DecValue(t, bs[1..]).used)
  {
    hide EncVarnat, DecVarnat, EncChars, DecChars, EncBytes, DecBytes, EncList, DecList, DecInteger, DecBool, EncBool;
  }

  lemma {:induction false} ListFaithful(t: Ty, xs: seq<Value>, bs: Bytes)
    requires forall x :: x in xs ==> Matches(t, x)
    ensures Faithful(DecList(t, |xs|, bs), bs, EncList(t, xs), xs)
    decreases t, |xs| + 1
  {
    hide EncValue, DecValue;
    if xs == [] {
    } else {
      var head := EncValue(t, xs[0]);
      SplitPrefix(head, EncList(t, xs[1..]), bs);
      ValueFaithful(t, xs[0], bs);
      if head <= bs {
        ListFaithful(t, xs[1..], bs[|head|..]);
        assert [xs[0]] + xs[1..] == xs;
      }
    }
  }

  // ------------------------------------------------------- decided verdicts

  lemma {:induction false} CharsStable(count: nat, bs: Bytes, more: Bytes)
    requires bs <= more && DecChars(count, bs) != Fail(Torn)
    ensures DecChars(count, more) == DecChars(count, bs)
    decreases count
  {
    hide DecVarnat;
    if count == 0 {
    } else {
      VarnatStable(bs, more);
      var c := DecChar(bs);
      if c.Ok? {
        assert bs[c.used..] <= more[c.used..];
        CharsStable(count - 1, bs[c.used..], more[c.used..]);
      }
    }
  }

  /** Only TORN is provisional: a value, or CORRUPT, is the verdict on every extension too. */
  lemma {:induction false} ValueStable(ty: Ty, bs: Bytes, more: Bytes)
    requires bs <= more && DecValue(ty, bs) != Fail(Torn)
    ensures DecValue(ty, more) == DecValue(ty, bs)
    decreases ty, 0
  {
    hide DecVarnat, DecChars, DecBytes, DecList;
    match ty {
      case Bool | U8 =>
      case U16 | U32 | U64 | I8 | I16 | I32 | I64 => VarnatStable(bs, more);
      case Blob => BytesStable(bs, more);
      case Str =>
        VarnatStable(bs, more);
        var n := DecVarnat(bs);
        if n.Ok? { CharsStable(n.value, bs[n.used..], more[n.used..]); }
      case Opt(t) =>
        if bs[0] == 1 { ValueStable(t, bs[1..], more[1..]); }
      case Res(ok, err) =>
        if bs[0] == 0 { ValueStable(ok, bs[1..], more[1..]); }
        if bs[0] == 1 { ValueStable(err, bs[1..], more[1..]); }
      case List(t) =>
        VarnatStable(bs, more);
        var n := DecVarnat(bs);
        if n.Ok? { ListStable(t, n.value, bs[n.used..], more[n.used..]); }
    }
  }

  lemma {:induction false} ListUnfold(t: Ty, count: nat, bs: Bytes)
    requires count > 0
    ensures DecList(t, count, bs) ==
      match DecValue(t, bs)
      case Fail(why) => Fail(why)
      case Ok(x, u) => Resumed([x], u, DecList(t, count - 1, bs[u..]))
  {
    hide DecValue, Matches;
  }

  lemma {:induction false} ListNone(t: Ty, bs: Bytes)
    ensures DecList(t, 0, bs) == Ok([], 0)
  {
  }

  lemma {:induction false} ListStable(t: Ty, count: nat, bs: Bytes, more: Bytes)
    requires bs <= more && DecList(t, count, bs) != Fail(Torn)
    ensures DecList(t, count, more) == DecList(t, count, bs)
    decreases t, count + 1
  {
    hide DecValue, DecList, Matches;
    if count == 0 {
      ListNone(t, bs);
      ListNone(t, more);
    } else {
      ListUnfold(t, count, bs);
      ListUnfold(t, count, more);
      ValueStable(t, bs, more);
      var x := DecValue(t, bs);
      if x.Ok? {
        ListStable(t, count - 1, bs[x.used..], more[x.used..]);
      }
    }
  }

  // ------------------------------------------------------ accepted encodings

  /** The bytes an item used decide it alone, and it re-encodes in no more than them. */
  ghost predicate Exact<T>(r: Dec<T>, onUsed: Dec<T>, enc: Bytes) {
    r.Ok? && onUsed == r && |enc| <= r.used
  }

  lemma {:induction false} CharSound(bs: Bytes, used: nat)
    requires DecChar(bs).Ok? && DecChar(bs).used <= used <= |bs|
    ensures DecChar(bs[..used]) == DecChar(bs)
    ensures |EncVarnat(DecChar(bs).value as int)| <= DecChar(bs).used
  {
    hide DecVarnat, EncVarnat;
    var c := DecChar(bs);
    VarnatSound(bs);
    assert bs[..used][..c.used] == bs[..c.used];
    VarnatStable(bs[..c.used], bs[..used]);
  }

  lemma {:induction false} CharsSound(count: nat, bs: Bytes)
    requires DecChars(count, bs).Ok?
    ensures var r := DecChars(count, bs); Exact(r, DecChars(count, bs[..r.used]), EncChars(r.value))
    decreases count
  {
    hide DecVarnat, EncVarnat, DecChar;
    if count == 0 {
    } else {
      var r, c := DecChars(count, bs), DecChar(bs);
      var kept, rest := bs[..r.used], bs[c.used..];
      CharSound(bs, r.used);
      CharsSound(count - 1, rest);
      assert kept[c.used..] == rest[..r.used - c.used];
      assert r.value[1..] == DecChars(count - 1, rest).value;
    }
  }

  lemma {:induction false} IntegerShrinks(ty: Ty, n: u64)
    requires VarintTy(ty) && IntegerOf(ty, n).Some?
    ensures Code(IntegerOf(ty, n).value) <= n
  {
    match ty {
      case I8 => WrapShrinks(n, 0x80);
      case I16 => WrapShrinks(n, 0x8000);
      case I32 => WrapShrinks(n, 0x8000_0000);
      case _ =>
    }
  }

  lemma {:induction false} IntegerSound(ty: Ty, bs: Bytes)
    requires VarintTy(ty) && DecInteger(ty, bs).Ok?
    ensures var r := DecInteger(ty, bs); Exact(r, DecInteger(ty, bs[..r.used]), EncVarnat(Code(r.value)))
  {
    hide EncVarnat, DecVarnat;
    VarnatSound(bs);
    var n := DecVarnat(bs);
    IntegerShrinks(ty, n.value);
    EncVarnatLength(Code(DecInteger(ty, bs).value), n.used);
  }

  lemma {:induction false} HeadSound(bs: Bytes, used: nat)
    requires DecVarnat(bs).Ok? && DecVarnat(bs).used <= used <= |bs|
    ensures DecVarnat(bs[..used]) == DecVarnat(bs)
    ensures bs[..used][DecVarnat(bs).used..] == bs[DecVarnat(bs).used..][..used - DecVarnat(bs).used]
    ensures |EncVarnat(DecVarnat(bs).value)| <= DecVarnat(bs).used
  {
    hide EncVarnat, DecVarnat;
    var n := DecVarnat(bs);
    VarnatSound(bs);
    assert bs[..used][..n.used] == bs[..n.used];
    VarnatStable(bs[..n.used], bs[..used]);
  }

  lemma {:induction false} TagSound(bs: Bytes, used: nat)
    requires 0 < used <= |bs|
    ensures bs[..used][0] == bs[0] && bs[..used][1..] == bs[1..][..used - 1]
  {
  }

  /** Whatever bytes the decoder accepts (minimal or not): the value has the type (the decoder's
      own contract), depends only on the bytes used, and re-encodes in no more of them. */
  lemma {:induction false} ValueSound(ty: Ty, bs: Bytes)
    requires DecValue(ty, bs).Ok?
    ensures var r := DecValue(ty, bs); Exact(r, DecValue(ty, bs[..r.used]), EncValue(ty, r.value))
    decreases ty, 1
  {
    hide EncVarnat, DecVarnat, EncChars, DecChars, EncBytes, DecBytes, EncList, DecList, DecInteger;
    var r := DecValue(ty, bs);
    match ty {
      case Bool | U8 =>
      case U16 | U32 | U64 | I8 | I16 | I32 | I64 => IntegerSound(ty, bs);
      case Blob => BytesSound(bs);
      case Str =>
        HeadSound(bs, r.used);
        CharsSound(DecVarnat(bs).value, bs[DecVarnat(bs).used..]);
      case Opt(_) | Res(_, _) => TaggedSound(ty, bs);
      case List(t) =>
        HeadSound(bs, r.used);
        ListSound(t, DecVarnat(bs).value, bs[DecVarnat(bs).used..]);
    }
  }

  lemma {:induction false} TaggedSound(ty: Ty, bs: Bytes)
    requires (ty.Opt? || ty.Res?) && DecValue(ty, bs).Ok?
    ensures var r := DecValue(ty, bs); Exact(r, DecValue(ty, bs[..r.used]), EncValue(ty, r.value))
    decreases ty, 0
  {
    hide EncVarnat, DecVarnat, EncChars, DecChars, EncBytes, DecBytes, EncList, DecList, DecInteger, DecBool, EncBool;
    TagSound(bs, DecValue(ty, bs).used);
    match ty {
      case Opt(t) =>
        if bs[0] == 1 { ValueSound(t, bs[1..]); }
      case Res(ok, err) =>
        if bs[0] == 0 { ValueSound(ok, bs[1..]); } else { ValueSound(err, bs[1..]); }
    }
  }

  lemma {:induction false} ListSound(t: Ty, count: nat, bs: Bytes)
    requires DecList(t, count, bs).Ok?
    ensures var r := DecList(t, count, bs); Exact(r, DecList(t, count, bs[..r.used]), EncList(t, r.value))
    decreases t, count + 2
  {
    hide DecValue, EncValue;
    if count == 0 {
    } else {
      var r, x := DecList(t, count, bs), DecValue(t, bs);
      var kept, rest := bs[..r.used], bs[x.used..];
      ValueSound(t, bs);
      assert kept[..x.used] == bs[..x.used];
      ValueStable(t, kept[..x.used], kept);
      ListSound(t, count - 1, rest);
      assert kept[x.used..] == rest[..r.used - x.used];
      assert r.value[1..] == DecList(t, count - 1, rest).value;
    }
  }

  /** Locality: two inputs that agree on the bytes used decode alike. */
  lemma {:induction false} ValueLocal(ty: Ty, bs: Bytes, other: Bytes)
    requires DecValue(ty, bs).Ok? && bs[..DecValue(ty, bs).used] <= other
    ensures DecValue(ty, other) == DecValue(ty, bs)
  {
    hide DecValue;
    ValueSound(ty, bs);
    ValueStable(ty, bs[..DecValue(ty, bs).used], other);
  }

  /** The encodings of a type are prefix-free. */
  lemma {:induction false} EncValuePrefixFree(ty: Ty, v: Value, w: Value)
    requires Matches(ty, v) && Matches(ty, w) && EncValue(ty, v) <= EncValue(ty, w)
    ensures v == w
  {
    hide EncValue, DecValue;
    ValueFaithful(ty, v, EncValue(ty, w));
    ValueFaithful(ty, w, EncValue(ty, w));
  }

  /** Byte keys are canonical: equal encodings come from equal values. */
  lemma {:induction false} EncValueInjective(ty: Ty, v: Value, w: Value)
    requires Matches(ty, v) && Matches(ty, w) && EncValue(ty, v) == EncValue(ty, w)
    ensures v == w
  {
    hide EncValue;
    EncValuePrefixFree(ty, v, w);
  }
}
