/** Machine-sized types, decode results and the prefix vocabulary every codec law is stated in. */
module Wire {

  const U64_LIMIT: int := 0x1_0000_0000_0000_0000

  type byte = b: int | 0 <= b < 256
  type u64 = n: int | 0 <= n < U64_LIMIT
  type i64 = x: int | -0x8000_0000_0000_0000 <= x < 0x8000_0000_0000_0000

  /** A heap vector: its length is a `usize`. */
  type Vec<T> = s: seq<T> | |s| < U64_LIMIT witness []

  type Bytes = seq<byte>

  datatype Option<+T> = None | Some(value: T)

  datatype Result<+T, +E> = Success(value: T) | Failure(error: E)

  /** TORN: the input ended mid-item. CORRUPT: the bytes are there but invalid. */
  datatype DecFail = Torn | Corrupt

  /** A decoded item with the number of bytes it took, or why there is none. */
  datatype Dec<+T> = Ok(value: T, used: nat) | Fail(why: DecFail) {
    predicate IsFailure() { Fail? }

    function PropagateFailure<U>(): Dec<U>
      requires Fail?
    {
      Fail(why)
    }

    function Extract(): (T, nat)
      requires Ok?
    {
      (value, used)
    }
  }

  /** `r` after `done` items already read from `used` bytes. */
  function Resumed<T>(done: seq<T>, used: nat, r: Dec<seq<T>>): Dec<seq<T>> {
    match r case Ok(rest, u) => Ok(done + rest, used + u) case Fail(why) => Fail(why)
  }

  /** `r`, read off `bs`, is faithful to the encoding `enc` of `v`: whatever follows a complete
      encoding is left alone, and a strict prefix of the encoding is torn, never anything else. */
  ghost predicate Faithful<T>(r: Dec<T>, bs: Bytes, enc: Bytes, v: T) {
    && (enc <= bs ==> r == Ok(v, |enc|))
    && (bs < enc ==> r == Fail(Torn))
  }

  /** How a prefix comparison against a concatenation splits at the seam. */
  lemma {:induction false} SplitPrefix(a: Bytes, b: Bytes, bs: Bytes)
    ensures a + b <= bs ==> a <= bs && b <= bs[|a|..]
    ensures bs < a + b ==> bs < a || (a <= bs && bs[|a|..] < b)
  {
    if a + b <= bs {
      assert a == (a + b)[..|a|] == bs[..|a|];
      assert b == (a + b)[|a|..] == bs[|a|..|a| + |b|];
    }
    if bs < a + b {
      assert bs == (a + b)[..|bs|];
      if |bs| < |a| {
        assert bs == a[..|bs|];
      } else {
        assert a == bs[..|a|];
        assert bs[|a|..] == b[..|bs| - |a|];
      }
    }
  }
}
