/** The two loops of the snapshot parser, as the source runs them. */
module SnapshotReader {
  import opened Wire
  import opened SnapshotTypes
  import opened Snapshots

  /** `r` with `done` dimensions already read. */
  ghost function DimsAfter(done: seq<u64>, r: Parse<seq<u64>>): Parse<seq<u64>> {
    match r case Done(dims, rest) => Done(done + dims, rest) case Error(e) => Error(e)
  }

  lemma {:induction false} DimsAfterLaws(done: seq<u64>, dim: u64, r: Parse<seq<u64>>)
    ensures DimsAfter([], r) == r
    ensures DimsAfter(done, DimsAfter([dim], r)) == DimsAfter(done + [dim], r)
  {
    if r.Done? {
      assert [] + r.value == r.value;
      assert done + ([dim] + r.value) == done + [dim] + r.value;
    }
  }

  /** The dimension loop: digits and a semicolon, until there are no digits. */
  method ReadDims(cs: string) returns (r: Parse<seq<u64>>)
    ensures r == ParseDims(cs)
  {
    hide Decimal, Span;
    var dims: seq<u64>, rest := [], cs;
    DimsAfterLaws([], 0, ParseDims(cs));
    while true
      invariant ParseDims(cs) == DimsAfter(dims, ParseDims(rest))
      decreases |rest|
    {
      var n := Span(rest, Digit);
      if n == 0 {
        assert dims + [] == dims;
        return Done(dims, rest);
      }
      var dim := Decimal(rest[..n]);
      if dim >= U64_LIMIT {
        return Error("snapshot: bad tensor dim: number too large to fit in target type");
      }
      if !Starts(rest[n..], ';') {
        return Error("snapshot: expected ';' after tensor dim");
      }
      assert ParseDims(rest) == DimsAfter([dim], ParseDims(rest[n + 1..]));
      DimsAfterLaws(dims, dim, ParseDims(rest[n + 1..]));
      dims, rest := dims + [dim], rest[n + 1..];
    }
  }

  /** The line loop: the closed items, the open one, and the last line that was not blank. */
  method ReadSnapshot(text: string) returns (r: Result<seq<Item>, ParseError>)
    ensures r == ParseSnapshot(text)
  {
    hide Step, Split, Close;
    var lines := Split(text, '\n');
    var done: seq<Item>, cur: Option<Open>, lastLine := [], None, 0;
    assert lines[0..] == lines;
    for idx := 0 to |lines|
      invariant Feed(START, 1, lines) == Feed(State(done, cur), idx + 1, lines[idx..])
      invariant LastLine(1, lines, 0) == LastLine(idx + 1, lines[idx..], lastLine)
    {
      var line := lines[idx];
      assert lines[idx..][0] == line && lines[idx..][1..] == lines[idx + 1..];
      if line != "" {
        lastLine := idx + 1;
        var next := Step(State(done, cur), Split(line, ' '), line);
        if next.Failure? {
          return Failure(ParseError(idx + 1, next.error));
        }
        done, cur := next.value.done, next.value.cur;
      }
    }
    assert lines[|lines|..] == [];
    if cur.Some? {
      var item := Close(cur.value);
      if item.Failure? {
        return Failure(ParseError(lastLine, item.error));
      }
      done := done + [item.value];
    }
    return Success(done);
  }
}
