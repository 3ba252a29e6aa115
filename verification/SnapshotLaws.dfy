/** Parsing a rendered universe gives it back, exactly on the universes the format can hold. */
module SnapshotLaws {
  import opened Wire
  import opened SnapshotTypes
  import opened SnapshotTypeLaws
  import opened SnapshotTypeSpelling
  import opened Snapshots

  // --------------------------------------------------------------- splitting

  lemma {:induction false} SplitNone(s: string, sep: char)
    requires sep !in s
    ensures Split(s, sep) == [s]
  {
    SpanExact(s, "", Other(sep));
    assert s + "" == s;
  }

  lemma {:induction false} SplitFirst(a: string, sep: char, rest: string)
    requires sep !in a
    ensures Split(a + ([sep] + rest), sep) == [a] + Split(rest, sep)
  {
    hide Span;
    var s := a + ([sep] + rest);
    SpanExact(a, [sep] + rest, Other(sep));
    assert s[|a| + 1..] == rest;
  }

  /** Joined lines split back, with the empty piece after the last newline. */
  lemma {:induction false} SplitJoined(lines: seq<string>)
    requires forall l | l in lines :: '\n' !in l
    ensures Split(JoinLines(lines), '\n') == lines + [""]
  {
    hide Split;
    if lines == [] {
      SplitNone("", '\n');
    } else {
      assert "\n" == ['\n'];
      SplitFirst(lines[0], '\n', JoinLines(lines[1..]));
      SplitJoined(lines[1..]);
      assert lines + [""] == [lines[0]] + (lines[1..] + [""]);
    }
  }

  lemma {:induction false} TwoTokens(a: string, b: string)
    requires ' ' !in a && ' ' !in b
    ensures Split(a + (" " + b), ' ') == [a, b]
  {
    hide Split;
    assert " " == [' '];
    SplitFirst(a, ' ', b);
    SplitNone(b, ' ');
  }

  lemma {:induction false} ThreeTokens(a: string, b: string, c: string)
    requires ' ' !in a && ' ' !in b && ' ' !in c
    ensures Split(a + (" " + (b + (" " + c))), ' ') == [a, b, c]
  {
    hide Split;
    assert " " == [' '];
    SplitFirst(a, ' ', b + (" " + c));
    TwoTokens(b, c);
  }

  /** Every piece is free of the separator, and made of characters of the text. */
  lemma {:induction false} SplitPieces(s: string, sep: char)
    ensures forall p | p in Split(s, sep) :: sep !in p && Chars(p) <= Chars(s)
    decreases |s|
  {
    var n := Span(s, Other(sep));
    SuffixChars(s, n);
    if n == |s| {
    } else {
      SuffixChars(s, n + 1);
      SplitPieces(s[n + 1..], sep);
    }
  }

  /** A type the format holds reads back from its own token. */
  lemma {:induction false} TyToken(ty: Ty)
    requires TyHeld(ty)
    ensures ParseTyText(RenderTy(ty)) == Done(ty, "")
    ensures ' ' !in RenderTy(ty) && '\n' !in RenderTy(ty)
  {
    hide RenderTy, ParseTyText, Gated, NameChars, SpellsTy;
    TyRoundTripIff(ty);
    RenderSpells(ty);
    SpelledClean(ty, RenderTy(ty), ' ');
    SpelledClean(ty, RenderTy(ty), '\n');
  }

  lemma {:induction false} KindWord(kind: Kind)
    ensures KindOf(KindText(kind)) == Some(kind)
    ensures KindText(kind) != "" && ' ' !in KindText(kind) && '\n' !in KindText(kind)
  {
  }

  // ------------------------------------------------------------- feeding lines

  lemma {:induction false} FeedSplit(st: State, n: nat, a: seq<string>, b: seq<string>)
    ensures Feed(st, n, a + b) ==
      match Feed(st, n, a) case Failure(e) => Failure(e) case Success(mid) => Feed(mid, n + |a|, b)
    decreases |a|
  {
    hide Step, Split;
    if a == [] {
      assert a + b == b;
    } else {
      assert (a + b)[1..] == a[1..] + b;
      if a[0] == "" {
        FeedSplit(st, n + 1, a[1..], b);
      } else {
        var next := Step(st, Split(a[0], ' '), a[0]);
        if next.Success? { FeedSplit(next.value, n + 1, a[1..], b); }
      }
    }
  }

  lemma {:induction false} FeedOne(st: State, n: nat, line: string, next: State)
    requires line != "" && Step(st, Split(line, ' '), line) == Success(next)
    ensures Feed(st, n, [line]) == Success(next)
  {
    hide Step, Split;
    assert [line][1..] == [];
  }

  lemma {:induction false} FeedCons(st: State, n: nat, line: string, next: State, lines: seq<string>)
    requires Feed(st, n, [line]) == Success(next)
    ensures Feed(st, n, [line] + lines) == Feed(next, n + 1, lines)
  {
    FeedSplit(st, n, [line], lines);
  }

  /** A two-token line. */
  lemma {:induction false} FeedTwo(st: State, n: nat, kind: Kind, b: string, next: State)
    requires ' ' !in b
    requires forall line :: Step(st, [KindText(kind), b], line) == Success(next)
    ensures Feed(st, n, [KindText(kind) + (" " + b)]) == Success(next)
  {
    hide Step, KindText, Split;
    KindWord(kind);
    TwoTokens(KindText(kind), b);
    FeedOne(st, n, KindText(kind) + (" " + b), next);
  }

  lemma {:induction false} FeedThree(st: State, n: nat, kind: Kind, b: string, c: string, next: State)
    requires ' ' !in b && ' ' !in c
    requires forall line :: Step(st, [KindText(kind), b, c], line) == Success(next)
    ensures Feed(st, n, [KindText(kind) + (" " + (b + (" " + c)))]) == Success(next)
  {
    hide Step, KindText, Split;
    KindWord(kind);
    ThreeTokens(KindText(kind), b, c);
    FeedOne(st, n, KindText(kind) + (" " + (b + (" " + c))), next);
  }

  /** The item a header opens, still empty. */
  function Header(item: Item): Open {
    match item
    case Record(name, _) => OpenRecord(name, [])
    case Variant(name, _) => OpenVariant(name, [])
    case Func(name, _, _, _) => OpenFunc(name, [], None, None)
    case Resource(name) => OpenResource(name)
  }

  function HeaderKind(item: Item): Kind {
    match item
    case Record(_, _) => KRecord
    case Variant(_, _) => KVariant
    case Func(_, _, _, _) => KFunc
    case Resource(_) => KResource
  }

  /** The item, open, with all its members in. */
  function OpenOf(item: Item): Open {
    match item
    case Record(name, fields) => OpenRecord(name, fields)
    case Variant(name, cases) => OpenVariant(name, cases)
    case Func(name, params, ret, sem) => OpenFunc(name, params, Some(ret), sem)
    case Resource(name) => OpenResource(name)
  }

  lemma {:induction false} CloseOpenOf(item: Item)
    ensures Close(OpenOf(item)) == Success(item)
  {
  }

  lemma {:induction false} FeedHeader(st: State, n: nat, item: Item, next: State)
    requires Clean(item.name) && Restart(st, Header(item)) == Success(next)
    ensures Feed(st, n, [KindText(HeaderKind(item)) + (" " + item.name)]) == Success(next)
  {
    hide KindOf, KindText, Restart;
    var kind := HeaderKind(item);
    KindWord(kind);
    FeedTwo(st, n, kind, item.name, next);
  }

  lemma {:induction false} FeedNothing(st: State, n: nat)
    ensures Feed(st, n, []) == Success(st)
  {
  }

  /** A record collecting fields, or a function collecting parameters. */
  function Collecting(kind: Kind, name: string, members: seq<Member>): Open {
    if kind.KField? then OpenRecord(name, members) else OpenFunc(name, members, None, None)
  }

  lemma {:induction false} FeedMemberLines(done: seq<Item>, n: nat, kind: Kind, name: string, before: seq<Member>,
                                           members: seq<Member>)
    requires (kind.KField? || kind.KParam?) && MembersHeld(members)
    ensures Feed(State(done, Some(Collecting(kind, name, before))), n, MemberLines(KindText(kind), members)) ==
            Success(State(done, Some(Collecting(kind, name, before + members))))
    decreases |members|
  {
    hide Feed, RenderTy, TyHeld, ParseTyText, KindOf, KindText;
    var st := State(done, Some(Collecting(kind, name, before)));
    if members == [] {
      FeedNothing(st, n);
      assert before + members == before;
    } else {
      var f := members[0];
      var next := State(done, Some(Collecting(kind, name, before + [f])));
      KindWord(kind);
      TyToken(f.1);
      FeedThree(st, n, kind, f.0, RenderTy(f.1), next);
      FeedCons(st, n, KindText(kind) + (" " + (f.0 + (" " + RenderTy(f.1)))), next,
               MemberLines(KindText(kind), members[1..]));
      FeedMemberLines(done, n + 1, kind, name, before + [f], members[1..]);
      assert before + [f] + members[1..] == before + members;
    }
  }

  lemma {:induction false} FeedCase(done: seq<Item>, n: nat, name: string, before: seq<Case>, c: Case)
    requires CaseHeld(c)
    ensures Feed(State(done, Some(OpenVariant(name, before))), n, [CaseLine(c)]) ==
            Success(State(done, Some(OpenVariant(name, before + [c]))))
  {
    hide Feed, RenderTy, TyHeld, ParseTyText, KindOf;
    var st := State(done, Some(OpenVariant(name, before)));
    var next := State(done, Some(OpenVariant(name, before + [c])));
    KindWord(KCase);
    if c.payload.None? {
      FeedTwo(st, n, KCase, c.name, next);
    } else {
      TyToken(c.payload.value);
      FeedThree(st, n, KCase, c.name, RenderTy(c.payload.value), next);
    }
  }

  lemma {:induction false} FeedCases(done: seq<Item>, n: nat, name: string, before: seq<Case>, cases: seq<Case>)
    requires CasesHeld(cases)
    ensures Feed(State(done, Some(OpenVariant(name, before))), n, CaseLines(cases)) ==
            Success(State(done, Some(OpenVariant(name, before + cases))))
    decreases |cases|
  {
    hide Feed, CaseHeld, CaseLine;
    var st := State(done, Some(OpenVariant(name, before)));
    if cases == [] {
      FeedNothing(st, n);
      assert before + cases == before;
    } else {
      var c := cases[0];
      assert CaseHeld(c);
      FeedCase(done, n, name, before, c);
      FeedCons(st, n, CaseLine(c), State(done, Some(OpenVariant(name, before + [c]))), CaseLines(cases[1..]));
      FeedCases(done, n + 1, name, before + [c], cases[1..]);
      assert before + [c] + cases[1..] == before + cases;
    }
  }

  lemma {:induction false} SemTokens(sem: FuncSem)
    requires SemHeld(sem)
    ensures SemLine(sem) != "" && '\n' !in SemLine(sem)
    ensures Split(SemLine(sem), ' ') ==
            ["sem", sem.nullSem, sem.determinism] + if sem.stream then ["stream"] else []
  {
    hide Split;
    assert ' ' !in sem.nullSem && ' ' !in sem.determinism && '\n' !in sem.nullSem && '\n' !in sem.determinism;
    hide NullSem, Determinism;
    if sem.stream {
      assert " " == [' '];
      SplitFirst("sem", ' ', sem.nullSem + (" " + (sem.determinism + (" " + "stream"))));
      ThreeTokens(sem.nullSem, sem.determinism, "stream");
    } else {
      ThreeTokens("sem", sem.nullSem, sem.determinism);
    }
  }

  lemma {:induction false} FeedSem(done: seq<Item>, n: nat, name: string, params: seq<Member>, ret: Ty, sem: FuncSem)
    requires SemHeld(sem)
    ensures Feed(State(done, Some(OpenFunc(name, params, Some(ret), None))), n, [SemLine(sem)]) ==
            Success(State(done, Some(OpenFunc(name, params, Some(ret), Some(sem)))))
  {
    hide Feed, Split, SemLine, NullSem, Determinism, KindOf;
    SemTokens(sem);
    KindWord(KSem);
    FeedOne(State(done, Some(OpenFunc(name, params, Some(ret), None))), n, SemLine(sem),
            State(done, Some(OpenFunc(name, params, Some(ret), Some(sem)))));
  }

  lemma {:induction false} FeedRet(done: seq<Item>, n: nat, name: string, params: seq<Member>, ret: Ty)
    requires TyHeld(ret)
    ensures Feed(State(done, Some(OpenFunc(name, params, None, None))), n, ["ret" + (" " + RenderTy(ret))]) ==
            Success(State(done, Some(OpenFunc(name, params, Some(ret), None))))
  {
    hide Feed, RenderTy, TyHeld, ParseTyText, KindOf;
    KindWord(KRet);
    TyToken(ret);
    FeedTwo(State(done, Some(OpenFunc(name, params, None, None))), n, KRet, RenderTy(ret),
            State(done, Some(OpenFunc(name, params, Some(ret), None))));
  }

  lemma {:induction false} FeedFuncTail(done: seq<Item>, n: nat, name: string, params: seq<Member>, ret: Ty,
                                        sem: Option<FuncSem>)
    requires TyHeld(ret) && (sem.Some? ==> SemHeld(sem.value))
    ensures Feed(State(done, Some(OpenFunc(name, params, None, None))), n,
                 ["ret" + (" " + RenderTy(ret))] + if sem.None? then [] else [SemLine(sem.value)]) ==
            Success(State(done, Some(OpenFunc(name, params, Some(ret), sem))))
  {
    hide Feed, RenderTy, TyHeld, SemHeld, SemLine;
    var st := State(done, Some(OpenFunc(name, params, None, None)));
    var mid := State(done, Some(OpenFunc(name, params, Some(ret), None)));
    FeedRet(done, n, name, params, ret);
    FeedCons(st, n, "ret" + (" " + RenderTy(ret)), mid, if sem.None? then [] else [SemLine(sem.value)]);
    if sem.None? { FeedNothing(mid, n + 1); } else { FeedSem(done, n + 1, name, params, ret, sem.value); }
  }

  /** The members of an item, fed after its header. */
  lemma {:induction false} FeedMembers(done: seq<Item>, n: nat, item: Item)
    requires Held(item)
    ensures Feed(State(done, Some(Header(item))), n, ItemLines(item)[1..]) == Success(State(done, Some(OpenOf(item))))
  {
    hide Feed, MemberLines, CaseLines, RenderTy, TyHeld, SemLine, SemHeld, MembersHeld, CasesHeld;
    match item {
      case Record(name, fields) =>
        assert ItemLines(item)[1..] == MemberLines("field", fields);
        FeedMemberLines(done, n, KField, name, [], fields);
        assert [] + fields == fields;
      case Variant(name, cases) =>
        assert ItemLines(item)[1..] == CaseLines(cases);
        FeedCases(done, n, name, [], cases);
        assert [] + cases == cases;
      case Func(name, params, ret, sem) =>
        var lines := MemberLines("param", params);
        var tail := ["ret" + (" " + RenderTy(ret))] + if sem.None? then [] else [SemLine(sem.value)];
        assert ItemLines(item)[1..] == lines + tail;
        FeedMemberLines(done, n, KParam, name, [], params);
        assert [] + params == params;
        FeedSplit(State(done, Some(Header(item))), n, lines, tail);
        FeedFuncTail(done, n + |lines|, name, params, ret, sem);
      case Resource(_) =>
        assert ItemLines(item)[1..] == [];
        FeedNothing(State(done, Some(Header(item))), n);
    }
  }

  /** The closed items once the open one is closed too. */
  function Flushed(st: State): Option<seq<Item>> {
    if st.cur.None? then Some(st.done)
    else match Close(st.cur.value) case Success(item) => Some(st.done + [item]) case Failure(_) => None
  }

  /** An item's lines, wherever they come: the items before are closed, this one is open. */
  lemma {:induction false} FeedItem(st: State, n: nat, item: Item)
    requires Held(item) && Flushed(st).Some?
    ensures Feed(st, n, ItemLines(item)) == Success(State(Flushed(st).value, Some(OpenOf(item))))
  {
    hide Feed, Clean;
    var next := State(Flushed(st).value, Some(Header(item)));
    var lines := ItemLines(item);
    assert lines[0] == KindText(HeaderKind(item)) + (" " + item.name);
    hide ItemLines, Held;
    assert Clean(item.name) by { HeldName(item); }
    FeedHeader(st, n, item, next);
    FeedCons(st, n, lines[0], next, lines[1..]);
    assert [lines[0]] + lines[1..] == lines;
    FeedMembers(Flushed(st).value, n + 1, item);
  }

  lemma {:induction false} HeldName(item: Item)
    requires Held(item)
    ensures Clean(item.name)
  {
  }

  lemma {:induction false} FeedItems(st: State, n: nat, items: seq<Item>)
    requires (forall item | item in items :: Held(item)) && Flushed(st).Some?
    ensures var r := Feed(st, n, AllLines(items));
      r.Success? && Flushed(r.value) == Some(Flushed(st).value + items)
    decreases |items|
  {
    hide Feed, Held, ItemLines, Close;
    if items == [] {
      FeedNothing(st, n);
      assert Flushed(st).value + items == Flushed(st).value;
    } else {
      var lines := ItemLines(items[0]);
      var next := State(Flushed(st).value, Some(OpenOf(items[0])));
      FeedItem(st, n, items[0]);
      CloseOpenOf(items[0]);
      FeedSplit(st, n, lines, AllLines(items[1..]));
      FeedItems(next, n + |lines|, items[1..]);
      assert Flushed(st).value + [items[0]] + items[1..] == Flushed(st).value + items;
    }
  }

  // ----------------------------------------------------------- lines hold no newline

  ghost predicate NoNewlines(lines: seq<string>) {
    forall l | l in lines :: '\n' !in l
  }

  lemma {:induction false} MemberLinesClean(word: string, members: seq<Member>)
    requires '\n' !in word && MembersHeld(members)
    ensures NoNewlines(MemberLines(word, members))
  {
    hide RenderTy, TyHeld;
    if members == [] {
    } else {
      assert members[0] in members;
      TyToken(members[0].1);
      MemberLinesClean(word, members[1..]);
    }
  }

  lemma {:induction false} CaseLinesClean(cases: seq<Case>)
    requires CasesHeld(cases)
    ensures NoNewlines(CaseLines(cases))
  {
    hide RenderTy, TyHeld;
    if cases == [] {
    } else {
      assert CaseHeld(cases[0]);
      if cases[0].payload.Some? { TyToken(cases[0].payload.value); }
      CaseLinesClean(cases[1..]);
    }
  }

  lemma {:induction false} WordLineClean(word: string, text: string)
    requires '\n' !in word && '\n' !in text
    ensures NoNewlines([word + (" " + text)])
  {
    assert '\n' !in " ";
  }

  lemma {:induction false} JoinedClean(a: seq<string>, b: seq<string>)
    requires NoNewlines(a) && NoNewlines(b)
    ensures NoNewlines(a + b)
  {
  }

  lemma {:induction false} FuncTailClean(ret: Ty, sem: Option<FuncSem>)
    requires TyHeld(ret) && (sem.Some? ==> SemHeld(sem.value))
    ensures NoNewlines(["ret" + (" " + RenderTy(ret))] + if sem.None? then [] else [SemLine(sem.value)])
  {
    hide RenderTy, TyHeld, SemLine, SemHeld;
    TyToken(ret);
    WordLineClean("ret", RenderTy(ret));
    if sem.Some? { SemTokens(sem.value); }
    JoinedClean(["ret" + (" " + RenderTy(ret))], if sem.None? then [] else [SemLine(sem.value)]);
  }

  lemma {:induction false} ItemLinesClean(item: Item)
    requires Held(item)
    ensures NoNewlines(ItemLines(item))
  {
    hide RenderTy, TyHeld, MemberLines, CaseLines, SemLine, SemHeld, MembersHeld, CasesHeld, NoNewlines;
    match item {
      case Record(name, fields) =>
        WordLineClean("record", name);
        MemberLinesClean("field", fields);
        JoinedClean(["record" + (" " + name)], MemberLines("field", fields));
      case Variant(name, cases) =>
        WordLineClean("variant", name);
        CaseLinesClean(cases);
        JoinedClean(["variant" + (" " + name)], CaseLines(cases));
      case Func(name, params, ret, sem) =>
        var tail := ["ret" + (" " + RenderTy(ret))] + if sem.None? then [] else [SemLine(sem.value)];
        WordLineClean("func", name);
        MemberLinesClean("param", params);
        FuncTailClean(ret, sem);
        JoinedClean(MemberLines("param", params), tail);
        JoinedClean(["func" + (" " + name)], MemberLines("param", params) + tail);
      case Resource(name) => WordLineClean("resource", name);
    }
  }

  lemma {:induction false} AllLinesClean(items: seq<Item>)
    requires forall item | item in items :: Held(item)
    ensures NoNewlines(AllLines(items))
  {
    hide Held, ItemLines;
    if items == [] {
    } else {
      ItemLinesClean(items[0]);
      AllLinesClean(items[1..]);
    }
  }

  /** Parsing inverts rendering on every universe the format can hold: items, members, payloads,
      return types and semantics, in order and verbatim. */
  lemma {:induction false} ParseRender(items: seq<Item>)
    requires forall item | item in items :: Held(item)
    ensures ParseSnapshot(Render(items)) == Success(items)
  {
    hide Feed, Held, AllLines, Split, LastLine;
    var lines := AllLines(items);
    AllLinesClean(items);
    SplitJoined(lines);
    FeedItems(START, 1, items);
    var st := Feed(START, 1, lines).value;
    FeedSplit(START, 1, lines, [""]);
    FeedBlank(st, 1 + |lines|);
    assert [] + items == items;
  }

  lemma {:induction false} FeedBlank(st: State, n: nat)
    ensures Feed(st, n, [""]) == Success(st)
  {
    assert [""][1..] == [];
  }

  // ---------------------------------------------------------------- soundness

  ghost predicate OpenHeld(open: Open) {
    && Clean(open.name)
    && match open
       case OpenRecord(_, fields) => MembersHeld(fields)
       case OpenVariant(_, cases) => CasesHeld(cases)
       case OpenFunc(_, params, ret, sem) =>
         MembersHeld(params) && (ret.Some? ==> TyHeld(ret.value)) && (sem.Some? ==> SemHeld(sem.value))
       case OpenResource(_) => true
  }

  ghost predicate StateHeld(st: State) {
    && (forall item | item in st.done :: Held(item))
    && (st.cur.Some? ==> OpenHeld(st.cur.value))
  }

  lemma {:induction false} CloseHeld(open: Open)
    requires OpenHeld(open) && Close(open).Success?
    ensures Held(Close(open).value)
  {
    hide MembersHeld, CasesHeld, TyHeld, SemHeld, Clean;
  }

  lemma {:induction false} TextHeld(text: string)
    requires Clean(text) && ParseTyText(text).Done?
    ensures TyHeld(ParseTyText(text).value)
  {
    hide ParseTyAt, Gated, NameChars;
    ParseSound(text, 0);
  }

  lemma {:induction false} SnocHeld(members: seq<Member>, m: Member)
    requires MembersHeld(members) && Clean(m.0) && TyHeld(m.1)
    ensures MembersHeld(members + [m])
  {
    hide Clean, TyHeld;
  }

  /** No line takes the state outside what the format holds. */
  lemma {:induction false} StepHeld(st: State, tokens: seq<string>, line: string)
    requires tokens != [] && StateHeld(st) && forall t | t in tokens :: Clean(t)
    requires Step(st, tokens, line).Success?
    ensures StateHeld(Step(st, tokens, line).value)
  {
    hide Clean, TyHeld, MembersHeld, CasesHeld, SemHeld, Held, KindOf, ParseTyText, NullSem, Determinism;
    match KindOf(tokens[0]) {
      case Some(KRecord) => EmptyHeld(); RestartHeld(st, OpenRecord(tokens[1], []));
      case Some(KVariant) => EmptyHeld(); RestartHeld(st, OpenVariant(tokens[1], []));
      case Some(KFunc) => EmptyHeld(); RestartHeld(st, OpenFunc(tokens[1], [], None, None));
      case Some(KResource) => RestartHeld(st, OpenResource(tokens[1]));
      case Some(KField) =>
        TextHeld(tokens[2]);
        SnocHeld(st.cur.value.fields, (tokens[1], ParseTyText(tokens[2]).value));
      case Some(KCase) =>
        if |tokens| == 3 { TextHeld(tokens[2]); }
        CaseSnocHeld(st.cur.value.cases,
          Case(tokens[1], if |tokens| == 3 then Some(ParseTyText(tokens[2]).value) else None));
      case Some(KParam) =>
        TextHeld(tokens[2]);
        SnocHeld(st.cur.value.params, (tokens[1], ParseTyText(tokens[2]).value));
      case Some(KRet) => TextHeld(tokens[1]);
      case Some(KSem) => SemParsedHeld(tokens);
    }
  }

  lemma {:induction false} EmptyHeld()
    ensures MembersHeld([]) && CasesHeld([])
  {
  }

  lemma {:induction false} CaseSnocHeld(cases: seq<Case>, c: Case)
    requires CasesHeld(cases) && Clean(c.name) && (c.payload.Some? ==> TyHeld(c.payload.value))
    ensures CasesHeld(cases + [c])
  {
    hide Clean, TyHeld;
  }

  lemma {:induction false} SemParsedHeld(tokens: seq<string>)
    requires |tokens| == 3 || (|tokens| == 4 && tokens[3] == "stream")
    requires ParseSem(tokens).Success?
    ensures SemHeld(ParseSem(tokens).value)
  {
    hide NullSem, Determinism;
  }

  lemma {:induction false} RestartHeld(st: State, open: Open)
    requires StateHeld(st) && OpenHeld(open) && Restart(st, open).Success?
    ensures StateHeld(Restart(st, open).value)
  {
    hide OpenHeld, Held, Close;
    if st.cur.Some? { CloseHeld(st.cur.value); }
  }

  lemma {:induction false} FeedHeld(st: State, n: nat, lines: seq<string>)
    requires StateHeld(st) && NoNewlines(lines) && Feed(st, n, lines).Success?
    ensures StateHeld(Feed(st, n, lines).value)
    decreases |lines|
  {
    hide StateHeld, Step, Split;
    if lines == [] {
    } else {
      if lines[0] == "" {
        FeedHeld(st, n + 1, lines[1..]);
      } else {
        var tokens := Split(lines[0], ' ');
        SplitPieces(lines[0], ' ');
        assert forall t | t in tokens :: '\n' in t ==> '\n' in Chars(t);
        assert forall t | t in tokens :: Clean(t);
        StepHeld(st, tokens, lines[0]);
        FeedHeld(Step(st, tokens, lines[0]).value, n + 1, lines[1..]);
      }
    }
  }

  /** Whatever text is accepted, what it means is a universe the format can hold. */
  lemma {:induction false} ParsedHeld(text: string)
    requires ParseSnapshot(text).Success?
    ensures forall item | item in ParseSnapshot(text).value :: Held(item)
  {
    hide Feed, Split, Held, OpenHeld, Close, LastLine;
    var lines := Split(text, '\n');
    SplitPieces(text, '\n');
    FeedHeld(START, 1, lines);
    var st := Feed(START, 1, lines).value;
    if st.cur.Some? { CloseHeld(st.cur.value); }
  }

  /** Exactly which universes survive the round trip. */
  lemma {:induction false} ParseRenderIff(items: seq<Item>)
    ensures ParseSnapshot(Render(items)) == Success(items) <==> forall item | item in items :: Held(item)
  {
    hide ParseSnapshot, Render, Held;
    if forall item | item in items :: Held(item) { ParseRender(items); }
    if ParseSnapshot(Render(items)) == Success(items) { ParsedHeld(Render(items)); }
  }

  /** Any accepted text, however it was written, has a rendering that means the same. */
  lemma {:induction false} ParseNormalizes(text: string)
    requires ParseSnapshot(text).Success?
    ensures ParseSnapshot(Render(ParseSnapshot(text).value)) == ParseSnapshot(text)
  {
    hide ParseSnapshot, Render, Held;
    ParsedHeld(text);
    ParseRender(ParseSnapshot(text).value);
  }
}
