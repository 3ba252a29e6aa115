/** The decoders that loop, as the source runs them. Each computes its decoding function. */
module Readers {
  import opened Wire
  import opened Codec
  import opened Values
  import opened ValueLaws
  import opened Rows

  function Pow2(k: nat): (p: nat)
    ensures 0 < p
  {
    if k == 0 then 1 else 2 * Pow2(k - 1)
  }

  /** `u64::checked_shl`: only the shift amount is checked, bits shifted out are dropped. */
  function CheckedShl(digit: u64, shift: nat): Option<u64> {
    if shift >= 64 then None else Some(digit * Pow2(shift) % U64_LIMIT)
  }

  lemma {:induction false} Pow2Seven(i: nat)
    ensures Pow2(7 * i) == Pow128(i)
  {
    if i == 0 {
    } else {
      Pow2Seven(i - 1);
      var k := 7 * (i - 1);
      assert Pow2(k + 7) == 2 * Pow2(k + 6) == 4 * Pow2(k + 5) == 8 * Pow2(k + 4);
      assert Pow2(k + 4) == 2 * Pow2(k + 3) == 4 * Pow2(k + 2) == 8 * Pow2(k + 1);
    }
  }

  /** One turn of the varint loop: neither check can fire, and the accumulator stays the digit sum
      modulo 2^64 (exact for the first nine digits). */
  lemma {:induction false} ShiftStep(bs: Bytes, i: nat)
    requires i < VARNAT_MAX_BYTES && i < |bs|
    ensures var acc, shifted := DigitSum(bs[..i]), CheckedShl(bs[i] % 128, 7 * i);
      && shifted.Some?
      && acc + shifted.value < U64_LIMIT
      && acc + shifted.value == DigitSum(bs[..i + 1]) % U64_LIMIT
    ensures i < 9 ==> DigitSum(bs[..i + 1]) < U64_LIMIT
  {
    hide Pow2, DigitSum, Pow128;
    Pow2Seven(i);
    Pow128Ten();
    DigitSumBound(bs[..i]);
    DigitSumBound(bs[..i + 1]);
    assert bs[..i + 1] == bs[..i] + [bs[i]];
    DigitSumSnoc(bs[..i], bs[i]);
    if i < 9 {
      Pow128Monotone(i + 1, 9);
      var term := bs[i] % 128 * Pow128(i);
      assert 0 <= term <= DigitSum(bs[..i + 1]) < U64_LIMIT;
      assert term % U64_LIMIT == term;
    } else {
      TopDigit(DigitSum(bs[..9]), bs[i] % 128);
    }
  }

  lemma {:induction false} TopDigit(low: nat, digit: nat)
    requires low < 0x8000_0000_0000_0000 && digit < 128
    ensures var top := digit * 0x8000_0000_0000_0000 % U64_LIMIT;
      low + top < U64_LIMIT && low + top == (low + digit * 0x8000_0000_0000_0000) % U64_LIMIT
  {
    assert digit == 2 * (digit / 2) + digit % 2;
  }

  /** The varint loop. The source also rejects an oversized shift and an overflowing sum; it never
      gets to. */
  method ReadVarnat(bs: Bytes) returns (r: Dec<u64>)
    ensures r == DecVarnat(bs)
  {
    hide CheckedShl;
    assert DigitSum(bs[..0]) == 0;
    hide DigitSum;
    var acc: u64, shift := 0, 0;
    for i := 0 to |bs|
      invariant i <= VARNAT_MAX_BYTES && shift == 7 * i
      invariant DigitRun(bs) >= i
      invariant acc == DigitSum(bs[..i]) % U64_LIMIT
      invariant i <= 9 ==> acc == DigitSum(bs[..i])
    {
      if i == VARNAT_MAX_BYTES {
        return Fail(Corrupt);
      }
      ShiftStep(bs, i);
      var shifted := CheckedShl(bs[i] % 128, shift);
      if shifted.None? || acc + shifted.value >= U64_LIMIT {
        assert false;
      }
      acc := acc + shifted.value;
      if bs[i] < 128 {
        return Ok(acc, i + 1);
      }
      assert DigitRun(bs) > i;
      shift := shift + 7;
    }
    return Fail(Torn);
  }

  lemma {:induction false} ResumedEnds<T>(done: seq<T>, used: nat, r: Dec<seq<T>>)
    ensures Resumed([], 0, r) == r
    ensures Resumed(done, used, Ok([], 0)) == Ok(done, used)
  {
    match r {
      case Ok(rest, u) => assert [] + rest == rest;
      case Fail(_) =>
    }
    assert done + [] == done;
  }

  lemma {:induction false} ResumedStep<T>(done: seq<T>, used: nat, x: T, u: nat, r: Dec<seq<T>>)
    ensures Resumed(done, used, Resumed([x], u, r)) == Resumed(done + [x], used + u, r)
  {
    match r {
      case Ok(rest, _) => assert done + ([x] + rest) == done + [x] + rest;
      case Fail(_) =>
    }
  }

  lemma {:induction false} ResumedFails<T>(done: seq<T>, used: nat, why: DecFail)
    ensures Resumed(done, used, Fail(why)) == Fail(why)
  {
  }

  method ReadChars(count: u64, bs: Bytes) returns (r: Dec<seq<char>>)
    ensures r == DecChars(count, bs)
  {
    hide DecVarnat;
    var s, u: nat := [], 0;
    assert bs[0..] == bs;
    ResumedEnds(s, 0, DecChars(count, bs));
    for i := 0 to count
      invariant |s| == i && u <= |bs|
      invariant DecChars(count, bs) == Resumed(s, u, DecChars(count - i, bs[u..]))
    {
      var cp := ReadVarnat(bs[u..]);
      if cp.Fail? {
        return Fail(cp.why);
      }
      if !ScalarValue(cp.value) {
        return Fail(Corrupt);
      }
      ghost var at := bs[u..];
      ResumedStep(s, u, cp.value as char, cp.used, DecChars(count - i - 1, at[cp.used..]));
      assert at[cp.used..] == bs[u + cp.used..];
      s, u := s + [cp.value as char], u + cp.used;
    }
    ResumedEnds(s, u, Fail(Torn));
    return Ok(s, u);
  }

  method ReadList(t: Ty, count: u64, bs: Bytes) returns (r: Dec<seq<Value>>)
    ensures r == DecList(t, count, bs)
    decreases t, 1
  {
    hide DecValue, DecList, Resumed;
    var xs, u: nat := [], 0;
    assert bs[0..] == bs;
    ResumedEnds(xs, 0, DecList(t, count, bs));
    for i := 0 to count
      invariant |xs| == i && u <= |bs|
      invariant DecList(t, count, bs) == Resumed(xs, u, DecList(t, count - i, bs[u..]))
    {
      ListUnfold(t, count - i, bs[u..]);
      var x := ReadValue(t, bs[u..]);
      if x.Fail? {
        ResumedFails(xs, u, x.why);
        return Fail(x.why);
      }
      ghost var at := bs[u..];
      ResumedStep(xs, u, x.value, x.used, DecList(t, count - i - 1, at[x.used..]));
      assert at[x.used..] == bs[u + x.used..];
      xs, u := xs + [x.value], u + x.used;
    }
    ListNone(t, bs[u..]);
    ResumedEnds(xs, u, Fail(Torn));
    return Ok(xs, u);
  }

  method ReadValue(ty: Ty, bs: Bytes) returns (r: Dec<Value>)
    ensures r == DecValue(ty, bs)
    decreases ty, 0
  {
    hide DecVarnat, DecChars, DecList, DecBytes;
    match ty {
      case Bool => return match DecBool(bs) case Ok(b, u) => Ok(VBool(b), u) case Fail(why) => Fail(why);
      case U8 => return if bs == [] then Fail(Torn) else Ok(VU8(bs[0]), 1);
      case U16 | U32 | U64 | I8 | I16 | I32 | I64 =>
        var n := ReadVarnat(bs);
        if n.Fail? {
          return Fail(n.why);
        }
        var v := IntegerOf(ty, n.value);
        return if v.Some? then Ok(v.value, n.used) else Fail(Corrupt);
      case Str =>
        var n := ReadVarnat(bs);
        if n.Fail? {
          return Fail(n.why);
        }
        var s := ReadChars(n.value, bs[n.used..]);
        return match s case Ok(cs, u) => Ok(VStr(cs), n.used + u) case Fail(why) => Fail(why);
      case Blob => return match DecBytes(bs) case Ok(b, u) => Ok(VBlob(b), u) case Fail(why) => Fail(why);
      case Opt(t) =>
        if bs == [] {
          return Fail(Torn);
        } else if bs[0] == 0 {
          return Ok(VOpt(None), 1);
        } else if bs[0] == 1 {
          var x := ReadValue(t, bs[1..]);
          return match x case Ok(v, u) => Ok(VOpt(Some(v)), 1 + u) case Fail(why) => Fail(why);
        } else {
          return Fail(Corrupt);
        }
      case Res(ok, err) =>
        if bs == [] {
          return Fail(Torn);
        } else if bs[0] == 0 {
          var x := ReadValue(ok, bs[1..]);
          return match x case Ok(v, u) => Ok(VRes(Success(v)), 1 + u) case Fail(why) => Fail(why);
        } else if bs[0] == 1 {
          var x := ReadValue(err, bs[1..]);
          return match x case Ok(v, u) => Ok(VRes(Failure(v)), 1 + u) case Fail(why) => Fail(why);
        } else {
          return Fail(Corrupt);
        }
      case List(t) =>
        var n := ReadVarnat(bs);
        if n.Fail? {
          return Fail(n.why);
        }
        var xs := ReadList(t, n.value, bs[n.used..]);
        return match xs case Ok(vs, u) => Ok(VList(vs), n.used + u) case Fail(why) => Fail(why);
    }
  }

  lemma {:induction false} DecFieldsUnfold(fields: seq<Field>, bs: Bytes)
    ensures DecFields([], bs) == Ok([], 0)
    ensures fields != [] ==>
      DecFields(fields, bs) == match DecValue(fields[0].ty, bs)
        case Ok(v, u) => Resumed([v], u, DecFields(fields[1..], bs[u..]))
        case Fail(why) => Fail(why)
  {
    hide DecValue;
  }

  method ReadRow(schema: Schema, bs: Bytes) returns (r: Dec<Row>)
    ensures r == DecRow(schema, bs)
  {
    hide DecValue, DecFields, Resumed;
    var fields := schema.fields;
    var values, u: nat := [], 0;
    assert bs[0..] == bs && fields[0..] == fields;
    ResumedEnds(values, 0, DecFields(fields, bs));
    for i := 0 to |fields|
      invariant |values| == i && u <= |bs|
      invariant DecFields(fields, bs) == Resumed(values, u, DecFields(fields[i..], bs[u..]))
    {
      DecFieldsUnfold(fields[i..], bs[u..]);
      var v := ReadValue(fields[i].ty, bs[u..]);
      if v.Fail? {
        ResumedFails(values, u, v.why);
        return Fail(v.why);
      }
      ghost var at := bs[u..];
      assert fields[i..][1..] == fields[i + 1..];
      ResumedStep(values, u, v.value, v.used, DecFields(fields[i + 1..], at[v.used..]));
      assert at[v.used..] == bs[u + v.used..];
      values, u := values + [v.value], u + v.used;
    }
    DecFieldsUnfold(fields[|fields|..], bs[u..]);
    ResumedEnds(values, u, Fail(Torn));
    return Ok(Row(values), u);
  }
}
