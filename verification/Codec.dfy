/** The wire codec: unsigned LEB128 (section 7.6 of DWARF 5) capped at ten digits, one-byte
    booleans, length-prefixed bytes and the versioned envelope. */
module Codec {
  import opened Wire

  const VARNAT_MAX_BYTES: nat := 10

  // ---------------------------------------------------------------- varint

  function EncVarnat(n: u64): (r: Bytes)
    ensures 0 < |r|
    decreases n
  {
    if n < 128 then [n] else [128 + n % 128] + EncVarnat(n / 128)
  }

  /** How many continuation bytes lead `bs`. */
  function DigitRun(bs: Bytes): (k: nat)
    ensures k <= |bs|
    ensures forall i :: 0 <= i < k ==> 128 <= bs[i]
    ensures k < |bs| ==> bs[k] < 128
  {
    if bs == [] || bs[0] < 128 then 0 else 1 + DigitRun(bs[1..])
  }

  /** The little-endian base-128 value of a run of digits. */
  function DigitSum(bs: Bytes): nat {
    if bs == [] then 0 else bs[0] % 128 + 128 * DigitSum(bs[1..])
  }

  /** What the decoder accepts and what it makes of it: up to ten digits, the last one without a
      continuation bit, valued at their digit sum modulo 2^64. */
  function DecVarnat(bs: Bytes): (r: Dec<u64>)
    ensures r.Ok? ==> 0 < r.used <= |bs| && r.used <= VARNAT_MAX_BYTES
  {
    var k := DigitRun(bs);
    if k >= VARNAT_MAX_BYTES then
      Fail(if |bs| > VARNAT_MAX_BYTES then Corrupt else Torn)
    else if k == |bs| then
      Fail(Torn)
    else
      Ok(DigitSum(bs[..k + 1]) % U64_LIMIT, k + 1)
  }

  function Pow128(k: nat): (p: nat)
    ensures 0 < p
  {
    if k == 0 then 1 else 128 * Pow128(k - 1)
  }

  /** The encoder's output: continuation bits on all digits but the last, digit sum `n`, and one
      digit per started power of 128. */
  lemma {:induction false} EncVarnatShape(n: u64)
    ensures DigitRun(EncVarnat(n)) == |EncVarnat(n)| - 1
    ensures DigitSum(EncVarnat(n)) == n
    ensures |EncVarnat(n)| > 1 ==> EncVarnat(n)[|EncVarnat(n)| - 1] != 0
    decreases n
  {
    var e := EncVarnat(n);
    if n >= 128 {
      EncVarnatShape(n / 128);
      assert e[1..] == EncVarnat(n / 128);
    } else {
      assert DigitSum(e) == n by { assert DigitSum(e[1..]) == 0; }
    }
  }

  lemma {:induction false} EncVarnatLength(n: u64, k: nat)
    requires 0 < k && n < Pow128(k)
    ensures |EncVarnat(n)| <= k
    decreases k
  {
    if n < 128 {
    } else {
      assert Pow128(k) == 128 * Pow128(k - 1);
      assert k > 1 by { assert Pow128(0) == 1; }
      assert n / 128 < Pow128(k - 1);
      EncVarnatLength(n / 128, k - 1);
    }
  }

  lemma {:induction false} Pow128Ten()
    ensures Pow128(9) == 0x8000_0000_0000_0000
    ensures Pow128(10) == 128 * 0x8000_0000_0000_0000
  {
    assert Pow128(4) == 0x1000_0000;
    assert Pow128(8) == 0x1000_0000 * 0x1000_0000;
  }

  /** Every u64 fits in ten digits. */
  lemma {:induction false} EncVarnatAtMostTen(n: u64)
    ensures |EncVarnat(n)| <= VARNAT_MAX_BYTES
  {
    Pow128Ten();
    EncVarnatLength(n, 10);
  }

  /** The digits before position `k` do not depend on what follows. */
  lemma {:induction false} DigitRunPrefix(bs: Bytes, more: Bytes)
    requires bs <= more
    ensures DigitRun(bs) < |bs| ==> DigitRun(more) == DigitRun(bs)
    ensures DigitRun(bs) == |bs| ==> DigitRun(more) >= |bs|
  {
    if bs == [] || bs[0] < 128 {
    } else {
      DigitRunPrefix(bs[1..], more[1..]);
    }
  }

  /** Round trip in append form, and every strict prefix torn. */
  lemma {:induction false} VarnatFaithful(n: u64, bs: Bytes)
    ensures Faithful(DecVarnat(bs), bs, EncVarnat(n), n)
  {
    hide EncVarnat, DigitSum, DigitRun;
    var e := EncVarnat(n);
    EncVarnatShape(n);
    EncVarnatAtMostTen(n);
    if e <= bs {
      DigitRunPrefix(e, bs);
      assert bs[..|e|] == e;
    }
    if bs < e {
      DigitRunPrefix(bs, e);
    }
  }

  /** The verdicts, read off the bytes: TORN while at most ten bytes are there and all continue,
      CORRUPT once there is an eleventh, a value otherwise. Nothing else is ever rejected. */
  lemma {:induction false} VarnatVerdict(bs: Bytes)
    ensures DecVarnat(bs) == Fail(Torn) <==>
            |bs| <= VARNAT_MAX_BYTES && forall i :: 0 <= i < |bs| ==> 128 <= bs[i]
    ensures DecVarnat(bs) == Fail(Corrupt) <==>
            |bs| > VARNAT_MAX_BYTES && forall i :: 0 <= i < VARNAT_MAX_BYTES ==> 128 <= bs[i]
  {
    hide DigitSum;
    var k := DigitRun(bs);
    hide DigitRun;
    assert k < |bs| ==> bs[k] < 128;
  }

  /** A decided varint stays decided, the same way, however the input is extended. */
  lemma {:induction false} VarnatStable(bs: Bytes, more: Bytes)
    requires bs <= more && DecVarnat(bs) != Fail(Torn)
    ensures DecVarnat(more) == DecVarnat(bs)
  {
    DigitRunPrefix(bs, more);
    var k := DigitRun(bs);
    if k < VARNAT_MAX_BYTES {
      assert bs[..k + 1] == more[..k + 1];
    }
  }

  lemma {:induction false} DigitSumBound(bs: Bytes)
    ensures DigitSum(bs) < Pow128(|bs|)
  {
    if bs == [] {
    } else {
      DigitSumBound(bs[1..]);
    }
  }

  lemma {:induction false} DigitSumSnoc(bs: Bytes, b: byte)
    ensures DigitSum(bs + [b]) == DigitSum(bs) + b % 128 * Pow128(|bs|)
  {
    var s := bs + [b];
    if bs == [] {
      assert s[1..] == [];
      assert DigitSum(s) == b % 128 + 128 * DigitSum([]);
    } else {
      assert s[1..] == bs[1..] + [b];
      DigitSumSnoc(bs[1..], b);
      assert 128 * (b % 128 * Pow128(|bs| - 1)) == b % 128 * (128 * Pow128(|bs| - 1));
    }
  }

  /** What an accepted varint was: its bytes decide it alone, its value never needs more digits
      than it came with, and the value is exact (no lost bits) on fewer than ten digits. */
  lemma {:induction false} VarnatSound(bs: Bytes)
    requires DecVarnat(bs).Ok?
    ensures var r := DecVarnat(bs);
      && DecVarnat(bs[..r.used]) == r
      && |EncVarnat(r.value)| <= r.used
      && r.value < Pow128(r.used)
      && (r.used < VARNAT_MAX_BYTES ==> r.value == DigitSum(bs[..r.used]))
  {
    var r := DecVarnat(bs);
    var s := bs[..r.used];
    DigitSumBound(s);
    Pow128Ten();
    DigitRunPrefix(s, bs);
    assert s[..r.used] == s;
    if r.used < VARNAT_MAX_BYTES {
      Pow128Monotone(r.used, 9);
    }
    EncVarnatLength(r.value, r.used);
  }

  lemma {:induction false} Pow128Monotone(i: nat, j: nat)
    requires i <= j
    ensures Pow128(i) <= Pow128(j)
    decreases j
  {
    if i == j {
    } else {
      Pow128Monotone(i, j - 1);
    }
  }

  lemma {:induction false} EncCons(d: nat, n: nat)
    requires d < 128 && 0 < n && d + 128 * n < U64_LIMIT
    ensures EncVarnat(d + 128 * n) == [128 + d] + EncVarnat(n)
  {
    var m := d + 128 * n;
    assert m % 128 == d && m / 128 == n;
  }

  lemma {:induction false} EncDigitSum(bs: Bytes)
    requires bs != [] && DigitRun(bs) == |bs| - 1
    requires |bs| > 1 ==> bs[|bs| - 1] != 0
    requires DigitSum(bs) < U64_LIMIT
    ensures EncVarnat(DigitSum(bs)) == bs
    ensures DigitSum(bs) > 0 || (|bs| == 1 && bs[0] == 0)
  {
    hide EncVarnat, DigitSum, DigitRun;
    DigitStep(bs);
    if |bs| == 1 {
      assert bs == [bs[0]];
      OneDigit(bs[0]);
    } else {
      EncDigitSum(bs[1..]);
      EncCons(bs[0] % 128, DigitSum(bs[1..]));
      assert bs == [bs[0]] + bs[1..];
    }
  }

  lemma {:induction false} OneDigit(b: byte)
    requires b < 128
    ensures DigitSum([b]) == b && EncVarnat(b) == [b]
  {
    assert DigitSum([b][1..]) == 0;
  }

  lemma {:induction false} DigitStep(bs: Bytes)
    requires bs != []
    ensures DigitSum(bs) == bs[0] % 128 + 128 * DigitSum(bs[1..])
    ensures 128 <= bs[0] ==> DigitRun(bs) == 1 + DigitRun(bs[1..])
  {
  }

  /** A digit run sums below 2^64 unless its tenth digit carries bits that do not fit. */
  lemma {:induction false} DigitSumFits(s: Bytes)
    requires 0 < |s| <= VARNAT_MAX_BYTES && s[|s| - 1] < 128
    ensures DigitSum(s) < U64_LIMIT <==> (|s| == VARNAT_MAX_BYTES ==> s[9] <= 1)
  {
    Pow128Ten();
    if |s| == VARNAT_MAX_BYTES {
      assert s == s[..9] + [s[9]];
      DigitSumSnoc(s[..9], s[9]);
      DigitSumBound(s[..9]);
    } else {
      DigitSumBound(s);
      Pow128Monotone(|s|, 9);
    }
  }

  /** Decoding is not injective: padded and overlong digit strings are accepted too. Exactly when
      the accepted bytes are the ones the encoder writes: the last digit is not a padding zero
      (unless it is the only digit), and a tenth digit carries just the one bit that fits. */
  lemma {:induction false} VarnatCanonicalIff(bs: Bytes)
    requires DecVarnat(bs).Ok?
    ensures var r := DecVarnat(bs);
      EncVarnat(r.value) == bs[..r.used] <==>
      (r.used == 1 || bs[r.used - 1] != 0) && (r.used == VARNAT_MAX_BYTES ==> bs[9] <= 1)
  {
    var s := bs[..DecVarnat(bs).used];
    DigitRunPrefix(s, bs);
    CanonicalRunIff(s);
  }

  lemma {:induction false} CanonicalRunIff(s: Bytes)
    requires 0 < |s| <= VARNAT_MAX_BYTES && DigitRun(s) == |s| - 1
    ensures EncVarnat(DigitSum(s) % U64_LIMIT) == s <==>
            (|s| == 1 || s[|s| - 1] != 0) && (|s| == VARNAT_MAX_BYTES ==> s[9] <= 1)
  {
    hide EncVarnat, DigitSum, Pow128;
    DigitSumFits(s);
    var n := DigitSum(s) % U64_LIMIT;
    if EncVarnat(n) == s {
      EncVarnatShape(n);
    } else if (|s| == 1 || s[|s| - 1] != 0) && (|s| == VARNAT_MAX_BYTES ==> s[9] <= 1) {
      EncDigitSum(s);
    }
  }

  /** The two ways to lose injectivity, at their plainest: zero digits in front of a last digit
      `b`. `b == 0` is a padded zero of any length; nine of them in front of an even `b` shift every
      bit of `b` out of the 64, with no error. */
  lemma {:induction false} PaddedVarnat(s: Bytes, b: byte)
    requires |s| < VARNAT_MAX_BYTES && forall i :: 0 <= i < |s| ==> s[i] == 0x80
    requires b < 128
    ensures DecVarnat(s + [b]) == Ok(b * Pow128(|s|) % U64_LIMIT, |s| + 1)
    ensures b == 0 || (|s| == 9 && b % 2 == 0) ==> DecVarnat(s + [b]) == Ok(0, |s| + 1)
  {
    var t := s + [b];
    assert t[..|t|] == t;
    AllPadding(s);
    DigitRunPrefix(s, t);
    DigitSumSnoc(s, b);
    hide DigitRun, DigitSum, Pow128;
    assert t[|s|] == b;
    assert DigitRun(t) == |s|;
    assert b % 128 == b;
    assert DigitSum(t) == b * Pow128(|s|);
    assert DecVarnat(t) == Ok(b * Pow128(|s|) % U64_LIMIT, |s| + 1);
    if b == 0 {
      assert b * Pow128(|s|) == 0;
    } else if |s| == 9 && b % 2 == 0 {
      Pow128Ten();
      assert b * Pow128(9) == b / 2 * U64_LIMIT;
    }
  }

  lemma {:induction false} AllPadding(s: Bytes)
    requires forall i :: 0 <= i < |s| ==> s[i] == 0x80
    ensures DigitRun(s) == |s| && DigitSum(s) == 0
  {
    if s == [] {
    } else {
      AllPadding(s[1..]);
    }
  }

  // ------------------------------------------------- booleans, bytes, envelope

  function EncBool(b: bool): Bytes {
    if b then [1] else [0]
  }

  function DecBool(bs: Bytes): (r: Dec<bool>)
    ensures r.Ok? ==> 0 < r.used <= |bs|
  {
    if bs == [] then Fail(Torn)
    else if bs[0] == 0 then Ok(false, 1)
    else if bs[0] == 1 then Ok(true, 1)
    else Fail(Corrupt)
  }

  function EncBytes(payload: Vec<byte>): (r: Bytes)
    ensures 0 < |r|
  {
    EncVarnat(|payload|) + payload
  }

  function DecBytes(bs: Bytes): (r: Dec<Vec<byte>>)
    ensures r.Ok? ==> 0 < r.used <= |bs|
  {
    var (n, used) :- DecVarnat(bs);
    var rest := bs[used..];
    if |rest| < n then Fail(Torn) else Ok(rest[..n], used + n)
  }

  lemma {:induction false} BytesFaithful(payload: Vec<byte>, bs: Bytes)
    ensures Faithful(DecBytes(bs), bs, EncBytes(payload), payload)
  {
    hide DecVarnat, EncVarnat;
    var head := EncVarnat(|payload|);
    SplitPrefix(head, payload, bs);
    VarnatFaithful(|payload|, bs);
    if head + payload <= bs {
      assert bs[|head|..][..|payload|] == payload;
    }
  }

  lemma {:induction false} BytesStable(bs: Bytes, more: Bytes)
    requires bs <= more && DecBytes(bs) != Fail(Torn)
    ensures DecBytes(more) == DecBytes(bs)
  {
    hide DecVarnat;
    VarnatStable(bs, more);
    var head := DecVarnat(bs);
    if head.Ok? && head.value <= |bs| - head.used {
      assert bs[head.used..][..head.value] == more[head.used..][..head.value];
    }
  }

  lemma {:induction false} BytesSound(bs: Bytes)
    requires DecBytes(bs).Ok?
    ensures DecBytes(bs[..DecBytes(bs).used]) == DecBytes(bs)
    ensures |EncBytes(DecBytes(bs).value)| <= DecBytes(bs).used
  {
    hide DecVarnat, EncVarnat;
    VarnatSound(bs);
    var head := DecVarnat(bs);
    var r := DecBytes(bs);
    var kept := bs[..r.used];
    assert kept[..head.used] == bs[..head.used];
    VarnatStable(bs[..head.used], kept);
    assert |kept| - head.used == head.value;
    assert kept[head.used..] == bs[head.used..][..head.value];
    assert kept[head.used..][..head.value] == kept[head.used..];
  }

  /** A record's frame; `used` of the decode result is the length of the whole envelope. */
  datatype Envelope = Envelope(version: u64, fingerprint: u64, payload: Vec<byte>)

  function EncEnvelope(env: Envelope): (r: Bytes)
    ensures 0 < |r|
  {
    EncVarnat(env.version) + (EncVarnat(env.fingerprint) + EncBytes(env.payload))
  }

  function DecEnvelope(bs: Bytes): (r: Dec<Envelope>)
    ensures r.Ok? ==> 0 < r.used <= |bs|
  {
    var (version, u1) :- DecVarnat(bs);
    var (fingerprint, u2) :- DecVarnat(bs[u1..]);
    var (payload, u3) :- DecBytes(bs[u1 + u2..]);
    Ok(Envelope(version, fingerprint, payload), u1 + u2 + u3)
  }

  /** The crash-recovery mechanism: a record cut short anywhere is torn. */
  lemma {:induction false} EnvelopeFaithful(env: Envelope, bs: Bytes)
    ensures Faithful(DecEnvelope(bs), bs, EncEnvelope(env), env)
  {
    hide DecVarnat, EncVarnat, DecBytes, EncBytes;
    var a, b, c := EncVarnat(env.version), EncVarnat(env.fingerprint), EncBytes(env.payload);
    SplitPrefix(a, b + c, bs);
    VarnatFaithful(env.version, bs);
    if a <= bs {
      SplitPrefix(b, c, bs[|a|..]);
      VarnatFaithful(env.fingerprint, bs[|a|..]);
      if b <= bs[|a|..] {
        assert bs[|a|..][|b|..] == bs[|a| + |b|..];
        BytesFaithful(env.payload, bs[|a| + |b|..]);
      }
    }
  }

  lemma {:induction false} EnvelopeStable(bs: Bytes, more: Bytes)
    requires bs <= more && DecEnvelope(bs) != Fail(Torn)
    ensures DecEnvelope(more) == DecEnvelope(bs)
  {
    hide DecVarnat, DecBytes;
    VarnatStable(bs, more);
    var a := DecVarnat(bs);
    if a.Ok? {
      VarnatStable(bs[a.used..], more[a.used..]);
      var b := DecVarnat(bs[a.used..]);
      if b.Ok? {
        BytesStable(bs[a.used + b.used..], more[a.used + b.used..]);
      }
    }
  }

  lemma {:induction false} EnvelopeSound(bs: Bytes)
    requires DecEnvelope(bs).Ok?
    ensures var r := DecEnvelope(bs); DecEnvelope(bs[..r.used]) == r && |EncEnvelope(r.value)| <= r.used
  {
    hide DecVarnat, EncVarnat, DecBytes, EncBytes;
    var r := DecEnvelope(bs);
    var kept := bs[..r.used];
    var a := DecVarnat(bs);
    VarnatSound(bs);
    assert kept[..a.used] == bs[..a.used];
    VarnatStable(bs[..a.used], kept);
    var b := DecVarnat(bs[a.used..]);
    VarnatSound(bs[a.used..]);
    assert kept[a.used..][..b.used] == bs[a.used..][..b.used];
    VarnatStable(bs[a.used..][..b.used], kept[a.used..]);
    var c := DecBytes(bs[a.used + b.used..]);
    BytesSound(bs[a.used + b.used..]);
    assert kept[a.used + b.used..] == bs[a.used + b.used..][..c.used];
  }

  /** The published vectors, as written. */
  lemma {:induction false} GoldenEncodings()
    ensures EncVarnat(0) == [0x00] && EncVarnat(127) == [0x7f] && EncVarnat(128) == [0x80, 0x01]
    ensures EncEnvelope(Envelope(1, 42, [9, 9])) == [0x01, 0x2a, 0x02, 0x09, 0x09]
  {
    assert EncBytes([9, 9]) == [2] + [9, 9];
  }

  /** The published vectors, read back: 127 and 128 on either side of the second digit, the strict
      verdicts, and an envelope of version 1, fingerprint 42 and payload 9 9. */
  lemma {:induction false} GoldenVectors()
    ensures EncVarnat(0) + EncVarnat(127) + EncVarnat(128) == [0x00, 0x7f, 0x80, 0x01]
    ensures DecVarnat([0x00, 0x7f, 0x80, 0x01]) == Ok(0, 1)
    ensures DecVarnat([0x7f, 0x80, 0x01]) == Ok(127, 1)
    ensures DecVarnat([0x80, 0x01]) == Ok(128, 2)
    ensures DecVarnat([]) == DecVarnat([0x80]) == Fail(Torn)
    ensures DecVarnat(seq(11, _ => 0xff)) == Fail(Corrupt)
    ensures EncEnvelope(Envelope(1, 42, [9, 9])) == [0x01, 0x2a, 0x02, 0x09, 0x09]
    ensures DecEnvelope(EncEnvelope(Envelope(1, 42, [9, 9]))) == Ok(Envelope(1, 42, [9, 9]), 5)
  {
    GoldenEncodings();
    hide EncVarnat, DecVarnat, EncEnvelope, DecEnvelope;
    VarnatFaithful(0, [0x00, 0x7f, 0x80, 0x01]);
    VarnatFaithful(127, [0x7f, 0x80, 0x01]);
    VarnatFaithful(128, [0x80, 0x01]);
    VarnatVerdict([]);
    VarnatVerdict([0x80]);
    VarnatVerdict(seq(11, _ => 0xff));
    EnvelopeFaithful(Envelope(1, 42, [9, 9]), EncEnvelope(Envelope(1, 42, [9, 9])));
  }
}
