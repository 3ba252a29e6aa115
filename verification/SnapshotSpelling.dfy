/** Exactly which texts are universes, and at which line the others are refused. */
module SnapshotSpelling {
  import opened Wire
  import opened SnapshotTypes
  import opened SnapshotTypeSpelling
  import opened Snapshots
  import opened SnapshotLaws

  // ------------------------------------------------------------- the spellings

  /** A field, parameter or payload line: its word, its name, a spelling of its type. */
  ghost predicate MemberLine(word: string, m: Member, line: string) {
    exists e :: SpellsTy(m.1, e) && line == word + (" " + (m.0 + (" " + e)))
  }

  ghost predicate SpellsMembers(word: string, members: seq<Member>, lines: seq<string>) {
    |lines| == |members| && forall i | 0 <= i < |lines| :: MemberLine(word, members[i], lines[i])
  }

  ghost predicate CaseSpelled(c: Case, line: string) {
    if c.payload.None? then line == "case" + (" " + c.name)
    else MemberLine("case", (c.name, c.payload.value), line)
  }

  ghost predicate SpellsCases(cases: seq<Case>, lines: seq<string>) {
    |lines| == |cases| && forall i | 0 <= i < |lines| :: CaseSpelled(cases[i], lines[i])
  }

  ghost predicate RetLine(ret: Ty, line: string) {
    exists e :: SpellsTy(ret, e) && line == "ret" + (" " + e)
  }

  /** The lines of an item so far: the header, the members in order, and for a function one `ret` line
      behind its parameters and at most one `sem` line behind that. */
  ghost predicate SpellsOpen(open: Open, lines: seq<string>) {
    && lines != []
    && match open
       case OpenRecord(name, fields) =>
         lines[0] == "record" + (" " + name) && SpellsMembers("field", fields, lines[1..])
       case OpenVariant(name, cases) => lines[0] == "variant" + (" " + name) && SpellsCases(cases, lines[1..])
       case OpenFunc(name, params, ret, sem) =>
         && lines[0] == "func" + (" " + name)
         && var behind := 1 + |params|;
         && behind <= |lines|
         && SpellsMembers("param", params, lines[1..behind])
         && SpellsTail(ret, sem, lines[behind..])
       case OpenResource(name) => lines == ["resource" + (" " + name)]
  }

  ghost predicate SpellsTail(ret: Option<Ty>, sem: Option<FuncSem>, lines: seq<string>) {
    match (ret, sem)
    case (None, None) => lines == []
    case (Some(t), None) => |lines| == 1 && RetLine(t, lines[0])
    case (Some(t), Some(s)) => |lines| == 2 && RetLine(t, lines[0]) && lines[1] == SemLine(s)
    case _ => false
  }

  /** The lines of the items, one item after the other. */
  ghost predicate SpellsAll(items: seq<Item>, lines: seq<string>) {
    if items == [] then lines == []
    else exists k: nat | k <= |lines| :: SpellsOpen(OpenOf(items[0]), lines[..k]) && SpellsAll(items[1..], lines[k..])
  }

  function NonBlank(lines: seq<string>): seq<string> {
    if lines == [] then []
    else if lines[0] == "" then NonBlank(lines[1..])
    else [lines[0]] + NonBlank(lines[1..])
  }

  // ------------------------------------------------------------ tokens and lines

  function JoinTokens(tokens: seq<string>): string
    requires tokens != []
  {
    if |tokens| == 1 then tokens[0] else tokens[0] + (" " + JoinTokens(tokens[1..]))
  }

  /** A line is its tokens with blanks between. */
  lemma {:induction false} TokensJoin(line: string)
    ensures JoinTokens(Split(line, ' ')) == line
    decreases |line|
  {
    hide Split, Span, JoinTokens;
    var n := Span(line, Other(' '));
    SplitUnfold(line);
    if n == |line| {
      JoinUnfold([line]);
    } else {
      TokensJoin(line[n + 1..]);
      var tokens, rest := Split(line, ' '), Split(line[n + 1..], ' ');
      JoinUnfold(tokens);
      assert tokens[1..] == rest;
      assert line == line[..n] + (" " + line[n + 1..]);
    }
  }

  lemma {:induction false} SplitUnfold(line: string)
    ensures var n := Span(line, Other(' '));
      Split(line, ' ') == if n == |line| then [line] else [line[..n]] + Split(line[n + 1..], ' ')
  {
    hide Span;
  }

  lemma {:induction false} JoinUnfold(tokens: seq<string>)
    requires tokens != []
    ensures JoinTokens(tokens) == if |tokens| == 1 then tokens[0] else tokens[0] + (" " + JoinTokens(tokens[1..]))
  {
  }

  lemma {:induction false} JoinFew(tokens: seq<string>)
    requires tokens != []
    ensures |tokens| == 2 ==> JoinTokens(tokens) == tokens[0] + (" " + tokens[1])
    ensures |tokens| == 3 ==> JoinTokens(tokens) == tokens[0] + (" " + (tokens[1] + (" " + tokens[2])))
    ensures |tokens| == 4 ==>
              JoinTokens(tokens) == tokens[0] + (" " + (tokens[1] + (" " + (tokens[2] + (" " + tokens[3])))))
  {
    if |tokens| > 1 {
      var a := tokens[1..];
      assert |a| == 1 ==> JoinTokens(a) == a[0];
      if |a| > 1 {
        var b := a[1..];
        assert JoinTokens(a) == a[0] + (" " + JoinTokens(b));
        assert |b| == 1 ==> JoinTokens(b) == b[0];
        if |b| > 1 {
          assert JoinTokens(b) == b[0] + (" " + JoinTokens(b[1..]));
          assert |b| == 2 ==> JoinTokens(b[1..]) == b[1];
        }
      }
    }
  }

  lemma {:induction false} KindIs(word: string, kind: Kind)
    requires KindOf(word) == Some(kind)
    ensures word == KindText(kind)
  {
  }

  // ------------------------------------------------------------- read, so spelled

  /** The state so far is spelled by the lines so far. */
  ghost predicate SpellsState(st: State, lines: seq<string>) {
    exists k: nat | k <= |lines| ::
      SpellsAll(st.done, lines[..k]) && (if st.cur.None? then k == |lines| else SpellsOpen(st.cur.value, lines[k..]))
  }

  lemma {:induction false} AllSnoc(items: seq<Item>, a: seq<string>, item: Item, b: seq<string>)
    requires SpellsAll(items, a) && SpellsOpen(OpenOf(item), b)
    ensures SpellsAll(items + [item], a + b)
    decreases |items|
  {
    hide SpellsOpen;
    if items == [] {
      assert a + b == b && [item][1..] == [] && b[..|b|] == b && b[|b|..] == [];
      assert items + [item] == [item];
    } else {
      var k: nat :| k <= |a| && SpellsOpen(OpenOf(items[0]), a[..k]) && SpellsAll(items[1..], a[k..]);
      AllSnoc(items[1..], a[k..], item, b);
      assert (items + [item])[1..] == items[1..] + [item];
      assert (a + b)[..k] == a[..k] && (a + b)[k..] == a[k..] + b;
    }
  }

  lemma {:induction false} ClosedOpen(open: Open)
    requires Close(open).Success?
    ensures OpenOf(Close(open).value) == open
  {
  }

  /** A header closes what was open and starts its own lines. */
  lemma {:induction false} RestartSpelled(st: State, open: Open, lines: seq<string>, line: string)
    requires SpellsState(st, lines) && Restart(st, open).Success? && SpellsOpen(open, [line])
    ensures SpellsState(Restart(st, open).value, lines + [line])
  {
    hide SpellsOpen, SpellsAll, Close;
    var k: nat :| k <= |lines| && SpellsAll(st.done, lines[..k])
                  && (if st.cur.None? then k == |lines| else SpellsOpen(st.cur.value, lines[k..]));
    var next := Restart(st, open).value;
    if st.cur.None? {
      assert lines[..k] == lines;
    } else {
      ClosedOpen(st.cur.value);
      AllSnoc(st.done, lines[..k], Close(st.cur.value).value, lines[k..]);
      assert lines[..k] + lines[k..] == lines;
    }
    assert (lines + [line])[..|lines|] == lines && (lines + [line])[|lines|..] == [line];
  }

  /** A member line goes to the lines of the open item. */
  lemma {:induction false} ReopenSpelled(st: State, open: Open, lines: seq<string>, line: string)
    requires SpellsState(st, lines) && st.cur.Some?
    requires forall ls | SpellsOpen(st.cur.value, ls) :: SpellsOpen(open, ls + [line])
    ensures SpellsState(Reopen(st, open), lines + [line])
  {
    hide SpellsOpen, SpellsAll;
    var k: nat :| k <= |lines| && SpellsAll(st.done, lines[..k]) && SpellsOpen(st.cur.value, lines[k..]);
    var more := lines + [line];
    assert more[..k] == lines[..k] && more[k..] == lines[k..] + [line];
  }

  lemma {:induction false} MembersSnoc(word: string, members: seq<Member>, lines: seq<string>, m: Member, line: string)
    requires SpellsMembers(word, members, lines) && MemberLine(word, m, line)
    ensures SpellsMembers(word, members + [m], lines + [line])
  {
    hide MemberLine;
  }

  lemma {:induction false} FieldSpelled(open: Open, m: Member, line: string)
    requires open.OpenRecord? && MemberLine("field", m, line)
    ensures forall ls | SpellsOpen(open, ls) :: SpellsOpen(open.(fields := open.fields + [m]), ls + [line])
  {
    forall ls | SpellsOpen(open, ls)
      ensures SpellsOpen(open.(fields := open.fields + [m]), ls + [line])
    {
      assert (ls + [line])[1..] == ls[1..] + [line];
      MembersSnoc("field", open.fields, ls[1..], m, line);
      hide MemberLine, SpellsMembers;
    }
  }

  lemma {:induction false} CaseAdded(open: Open, c: Case, line: string)
    requires open.OpenVariant? && CaseSpelled(c, line)
    ensures forall ls | SpellsOpen(open, ls) :: SpellsOpen(open.(cases := open.cases + [c]), ls + [line])
  {
    hide CaseSpelled;
    forall ls | SpellsOpen(open, ls)
      ensures SpellsOpen(open.(cases := open.cases + [c]), ls + [line])
    {
      assert (ls + [line])[1..] == ls[1..] + [line];
    }
  }

  lemma {:induction false} ParamSpelled(open: Open, m: Member, line: string)
    requires open.OpenFunc? && open.ret.None? && MemberLine("param", m, line)
    ensures forall ls | SpellsOpen(open, ls) :: SpellsOpen(open.(params := open.params + [m]), ls + [line])
  {
    forall ls | SpellsOpen(open, ls)
      ensures SpellsOpen(open.(params := open.params + [m]), ls + [line])
    {
      var behind := 1 + |open.params|;
      assert |ls| == behind;
      assert (ls + [line])[1..behind + 1] == ls[1..behind] + [line];
      assert (ls + [line])[behind + 1..] == [];
      MembersSnoc("param", open.params, ls[1..behind], m, line);
      hide MemberLine, SpellsMembers;
    }
  }

  lemma {:induction false} RetSpelled(open: Open, ret: Ty, line: string)
    requires open.OpenFunc? && open.ret.None? && RetLine(ret, line)
    ensures forall ls | SpellsOpen(open, ls) :: SpellsOpen(open.(ret := Some(ret)), ls + [line])
  {
    hide RetLine, SpellsMembers;
    forall ls | SpellsOpen(open, ls)
      ensures SpellsOpen(open.(ret := Some(ret)), ls + [line])
    {
      var behind := 1 + |open.params|;
      assert |ls| == behind;
      assert (ls + [line])[1..behind] == ls[1..behind];
      assert (ls + [line])[behind..] == [line];
    }
  }

  lemma {:induction false} SemSpelled(open: Open, sem: FuncSem)
    requires open.OpenFunc? && open.ret.Some? && open.sem.None?
    ensures forall ls | SpellsOpen(open, ls) :: SpellsOpen(open.(sem := Some(sem)), ls + [SemLine(sem)])
  {
    hide RetLine, SpellsMembers, SemLine;
    var line := SemLine(sem);
    forall ls | SpellsOpen(open, ls)
      ensures SpellsOpen(open.(sem := Some(sem)), ls + [line])
    {
      var behind := 1 + |open.params|;
      assert |ls| == behind + 1;
      assert (ls + [line])[1..behind] == ls[1..behind];
      assert (ls + [line])[behind..] == [ls[behind], line];
    }
  }

  lemma {:induction false} TextRead(name: string, word: string, text: string)
    requires ParseTyText(text).Done?
    ensures MemberLine(word, (name, ParseTyText(text).value), word + (" " + (name + (" " + text))))
    ensures RetLine(ParseTyText(text).value, "ret" + (" " + text))
  {
    hide ParseTyText, SpellsTy;
    TyTextIff(text, ParseTyText(text).value);
  }

  lemma {:induction false} SemRead(tokens: seq<string>)
    requires |tokens| == 3 || (|tokens| == 4 && tokens[3] == "stream")
    requires tokens[0] == "sem" && ParseSem(tokens).Success?
    ensures SemLine(ParseSem(tokens).value) == JoinTokens(tokens)
  {
    JoinFew(tokens);
    hide NullSem, Determinism, JoinTokens;
  }

  lemma {:induction false} HeaderSpelled(open: Open, line: string)
    requires match open
      case OpenRecord(name, fields) => fields == [] && line == "record" + (" " + name)
      case OpenVariant(name, cases) => cases == [] && line == "variant" + (" " + name)
      case OpenFunc(name, params, ret, sem) =>
        params == [] && ret.None? && sem.None? && line == "func" + (" " + name)
      case OpenResource(name) => line == "resource" + (" " + name)
    ensures SpellsOpen(open, [line])
  {
    assert [line][1..] == [];
  }

  lemma {:induction false} FieldStep(st: State, name: string, text: string, lines: seq<string>, line: string)
    requires SpellsState(st, lines) && StepField(st, name, text).Success?
    requires line == "field" + (" " + (name + (" " + text)))
    ensures SpellsState(StepField(st, name, text).value, lines + [line])
  {
    hide SpellsState, SpellsOpen, ParseTyText, MemberLine;
    TextRead(name, "field", text);
    FieldSpelled(st.cur.value, (name, ParseTyText(text).value), line);
    ReopenSpelled(st, StepField(st, name, text).value.cur.value, lines, line);
  }

  lemma {:induction false} ParamStep(st: State, name: string, text: string, lines: seq<string>, line: string)
    requires SpellsState(st, lines) && StepParam(st, name, text).Success?
    requires line == "param" + (" " + (name + (" " + text)))
    ensures SpellsState(StepParam(st, name, text).value, lines + [line])
  {
    hide SpellsState, SpellsOpen, ParseTyText, MemberLine;
    TextRead(name, "param", text);
    ParamSpelled(st.cur.value, (name, ParseTyText(text).value), line);
    ReopenSpelled(st, StepParam(st, name, text).value.cur.value, lines, line);
  }

  lemma {:induction false} CaseStep(st: State, name: string, text: Option<string>, lines: seq<string>, line: string)
    requires SpellsState(st, lines) && StepCase(st, name, text).Success?
    requires line == "case" + (" " + if text.None? then name else name + (" " + text.value))
    ensures SpellsState(StepCase(st, name, text).value, lines + [line])
  {
    hide SpellsState, SpellsOpen, ParseTyText, MemberLine;
    if text.Some? { TextRead(name, "case", text.value); }
    var c := Case(name, if text.Some? then Some(ParseTyText(text.value).value) else None);
    CaseAdded(st.cur.value, c, line);
    ReopenSpelled(st, StepCase(st, name, text).value.cur.value, lines, line);
  }

  lemma {:induction false} RetStep(st: State, text: string, lines: seq<string>, line: string)
    requires SpellsState(st, lines) && StepRet(st, text).Success? && line == "ret" + (" " + text)
    ensures SpellsState(StepRet(st, text).value, lines + [line])
  {
    hide SpellsState, SpellsOpen, ParseTyText, RetLine;
    TextRead("", "", text);
    RetSpelled(st.cur.value, ParseTyText(text).value, line);
    ReopenSpelled(st, StepRet(st, text).value.cur.value, lines, line);
  }

  lemma {:induction false} SemStep(st: State, tokens: seq<string>, lines: seq<string>, line: string)
    requires |tokens| == 3 || (|tokens| == 4 && tokens[3] == "stream")
    requires tokens[0] == "sem" && line == JoinTokens(tokens)
    requires SpellsState(st, lines) && StepSem(st, tokens).Success?
    ensures SpellsState(StepSem(st, tokens).value, lines + [line])
  {
    hide SpellsState, SpellsOpen, ParseSem, SemLine, JoinTokens;
    SemRead(tokens);
    SemSpelled(st.cur.value, ParseSem(tokens).value);
    ReopenSpelled(st, StepSem(st, tokens).value.cur.value, lines, line);
  }

  /** Every line that is taken is spelled: it adds itself to what the state says. */
  lemma {:induction false} StepSpelled(st: State, line: string, lines: seq<string>)
    requires SpellsState(st, lines) && Step(st, Split(line, ' '), line).Success?
    ensures SpellsState(Step(st, Split(line, ' '), line).value, lines + [line])
  {
    hide SpellsState, Split, KindOf, Restart, JoinTokens, StepField, StepCase, StepParam, StepRet, StepSem;
    var tokens := Split(line, ' ');
    TokensJoin(line);
    JoinFew(tokens);
    if KindOf(tokens[0]).Some? { KindIs(tokens[0], KindOf(tokens[0]).value); }
    match KindOf(tokens[0]) {
      case Some(KRecord) => HeaderStep(st, OpenRecord(tokens[1], []), lines, line);
      case Some(KVariant) => HeaderStep(st, OpenVariant(tokens[1], []), lines, line);
      case Some(KFunc) => HeaderStep(st, OpenFunc(tokens[1], [], None, None), lines, line);
      case Some(KResource) => HeaderStep(st, OpenResource(tokens[1]), lines, line);
      case Some(KField) => FieldStep(st, tokens[1], tokens[2], lines, line);
      case Some(KCase) => CaseStep(st, tokens[1], if |tokens| == 3 then Some(tokens[2]) else None, lines, line);
      case Some(KParam) => ParamStep(st, tokens[1], tokens[2], lines, line);
      case Some(KRet) => RetStep(st, tokens[1], lines, line);
      case Some(KSem) => SemStep(st, tokens, lines, line);
    }
  }

  lemma {:induction false} HeaderStep(st: State, open: Open, lines: seq<string>, line: string)
    requires SpellsState(st, lines) && Restart(st, open).Success?
    requires match open
      case OpenRecord(name, fields) => fields == [] && line == "record" + (" " + name)
      case OpenVariant(name, cases) => cases == [] && line == "variant" + (" " + name)
      case OpenFunc(name, params, ret, sem) =>
        params == [] && ret.None? && sem.None? && line == "func" + (" " + name)
      case OpenResource(name) => line == "resource" + (" " + name)
    ensures SpellsState(Restart(st, open).value, lines + [line])
  {
    hide SpellsState, SpellsOpen, Restart;
    HeaderSpelled(open, line);
    RestartSpelled(st, open, lines, line);
  }

  lemma {:induction false} FeedSpelled(st: State, n: nat, lines: seq<string>, before: seq<string>)
    requires SpellsState(st, before) && Feed(st, n, lines).Success?
    ensures SpellsState(Feed(st, n, lines).value, before + NonBlank(lines))
    decreases |lines|
  {
    hide SpellsState, Step, Split;
    if lines == [] {
      assert before + [] == before;
    } else if lines[0] == "" {
      FeedSpelled(st, n + 1, lines[1..], before);
    } else {
      StepSpelled(st, lines[0], before);
      FeedSpelled(Step(st, Split(lines[0], ' '), lines[0]).value, n + 1, lines[1..], before + [lines[0]]);
      assert before + [lines[0]] + NonBlank(lines[1..]) == before + NonBlank(lines);
    }
  }

  // ------------------------------------------------------------ spelled, so read

  /** Wherever the second line is taken, the first is, to the same state. */
  ghost predicate Alike(line: string, model: string) {
    && line != "" && model != ""
    && forall st, next ::
         Step(st, Split(model, ' '), model) == Success(next) ==> Step(st, Split(line, ' '), line) == Success(next)
  }

  ghost predicate AllAlike(lines: seq<string>, models: seq<string>) {
    |lines| == |models| && forall i | 0 <= i < |lines| :: Alike(lines[i], models[i])
  }

  lemma {:induction false} AlikeJoin(a: seq<string>, a': seq<string>, b: seq<string>, b': seq<string>)
    requires AllAlike(a, a') && AllAlike(b, b')
    ensures AllAlike(a + b, a' + b')
  {
    hide Alike;
  }

  lemma {:induction false} AlikeSelf(line: string)
    requires line != ""
    ensures Alike(line, line)
  {
    hide Step, Split;
  }

  lemma {:induction false} SpelledToken(ty: Ty, e: string)
    requires TyHeld(ty) && SpellsTy(ty, e)
    ensures ParseTyText(e) == Done(ty, "") && ' ' !in e
  {
    hide ParseTyText, Gated, NameChars, SpellsTy;
    TyTextIff(e, ty);
    SpelledClean(ty, e, ' ');
  }

  lemma {:induction false} MemberAlike(kind: Kind, m: Member, line: string)
    requires kind.KField? || kind.KParam? || kind.KCase?
    requires Clean(m.0) && TyHeld(m.1) && MemberLine(KindText(kind), m, line)
    ensures Alike(line, KindText(kind) + (" " + (m.0 + (" " + RenderTy(m.1)))))
  {
    hide KindText, KindOf, ParseTyText, SpellsTy, TyHeld, RenderTy, Split;
    var e :| SpellsTy(m.1, e) && line == KindText(kind) + (" " + (m.0 + (" " + e)));
    KindWord(kind);
    SpelledToken(m.1, e);
    RenderSpells(m.1);
    SpelledToken(m.1, RenderTy(m.1));
    ThreeTokens(KindText(kind), m.0, e);
    ThreeTokens(KindText(kind), m.0, RenderTy(m.1));
  }

  lemma {:induction false} RetAlike(ret: Ty, line: string)
    requires TyHeld(ret) && RetLine(ret, line)
    ensures Alike(line, "ret" + (" " + RenderTy(ret)))
  {
    hide KindOf, ParseTyText, SpellsTy, TyHeld, RenderTy, Split;
    var e :| SpellsTy(ret, e) && line == "ret" + (" " + e);
    KindWord(KRet);
    SpelledToken(ret, e);
    RenderSpells(ret);
    SpelledToken(ret, RenderTy(ret));
    TwoTokens("ret", e);
    TwoTokens("ret", RenderTy(ret));
  }

  lemma {:induction false} MembersAlike(kind: Kind, members: seq<Member>, lines: seq<string>)
    requires (kind.KField? || kind.KParam?) && MembersHeld(members) && SpellsMembers(KindText(kind), members, lines)
    ensures AllAlike(lines, MemberLines(KindText(kind), members))
    decreases |members|
  {
    hide Alike, MemberLine, KindText, TyHeld, Clean, RenderTy;
    if members == [] {
    } else {
      assert MemberLine(KindText(kind), members[0], lines[0]) && members[0] in members;
      MemberAlike(kind, members[0], lines[0]);
      assert forall i | 0 <= i < |lines[1..]| :: lines[1..][i] == lines[i + 1] && members[1..][i] == members[i + 1];
      MembersAlike(kind, members[1..], lines[1..]);
      assert lines == [lines[0]] + lines[1..];
    }
  }

  lemma {:induction false} CaseAlike(c: Case, line: string)
    requires CaseHeld(c) && CaseSpelled(c, line)
    ensures Alike(line, CaseLine(c))
  {
    hide Alike, MemberLine, TyHeld, RenderTy;
    if c.payload.None? {
      AlikeSelf(line);
    } else {
      MemberAlike(KCase, (c.name, c.payload.value), line);
    }
  }

  lemma {:induction false} CasesAlike(cases: seq<Case>, lines: seq<string>)
    requires CasesHeld(cases) && SpellsCases(cases, lines)
    ensures AllAlike(lines, CaseLines(cases))
    decreases |cases|
  {
    hide Alike, CaseSpelled, CaseHeld, CaseLine;
    if cases == [] {
    } else {
      assert CaseSpelled(cases[0], lines[0]) && cases[0] in cases;
      CaseAlike(cases[0], lines[0]);
      assert forall i | 0 <= i < |lines[1..]| :: lines[1..][i] == lines[i + 1] && cases[1..][i] == cases[i + 1];
      CasesAlike(cases[1..], lines[1..]);
      assert lines == [lines[0]] + lines[1..];
    }
  }

  lemma {:induction false} OneAlike(line: string, model: string)
    requires Alike(line, model)
    ensures AllAlike([line], [model])
  {
    hide Alike;
  }

  lemma {:induction false} TailAlike(ret: Ty, sem: Option<FuncSem>, lines: seq<string>)
    requires TyHeld(ret) && SpellsTail(Some(ret), sem, lines)
    ensures AllAlike(lines, ["ret" + (" " + RenderTy(ret))] + if sem.None? then [] else [SemLine(sem.value)])
  {
    hide Alike, RetLine, TyHeld, RenderTy;
    RetAlike(ret, lines[0]);
    if sem.Some? {
      assert SemLine(sem.value) != "";
      AlikeSelf(SemLine(sem.value));
    }
  }

  /** An item's spelled lines are taken like its rendered ones. */
  lemma {:induction false} ItemAlike(item: Item, lines: seq<string>)
    requires Held(item) && SpellsOpen(OpenOf(item), lines)
    ensures AllAlike(lines, ItemLines(item))
  {
    hide Alike, MemberLines, CaseLines, RenderTy, SemLine, MembersHeld, CasesHeld, TyHeld, SemHeld, SpellsMembers;
    hide SpellsCases, SpellsTail, Clean, AllAlike;
    assert lines[0] != "";
    AlikeSelf(lines[0]);
    OneAlike(lines[0], lines[0]);
    match item {
      case Record(name, fields) =>
        MembersAlike(KField, fields, lines[1..]);
        AlikeJoin([lines[0]], [lines[0]], lines[1..], MemberLines("field", fields));
        assert lines == [lines[0]] + lines[1..];
      case Variant(name, cases) =>
        CasesAlike(cases, lines[1..]);
        AlikeJoin([lines[0]], [lines[0]], lines[1..], CaseLines(cases));
        assert lines == [lines[0]] + lines[1..];
      case Func(name, params, ret, sem) =>
        var behind := 1 + |params|;
        var tail := ["ret" + (" " + RenderTy(ret))] + if sem.None? then [] else [SemLine(sem.value)];
        MembersAlike(KParam, params, lines[1..behind]);
        TailAlike(ret, sem, lines[behind..]);
        AlikeJoin(lines[1..behind], MemberLines("param", params), lines[behind..], tail);
        AlikeJoin([lines[0]], [lines[0]], lines[1..behind] + lines[behind..], MemberLines("param", params) + tail);
        assert lines == [lines[0]] + (lines[1..behind] + lines[behind..]);
      case Resource(name) =>
    }
  }

  lemma {:induction false} ItemsAlike(items: seq<Item>, lines: seq<string>)
    requires (forall item | item in items :: Held(item)) && SpellsAll(items, lines)
    ensures AllAlike(lines, AllLines(items))
    decreases |items|
  {
    hide Held, SpellsOpen, AllAlike, ItemLines;
    if items == [] {
      NoneAlike();
    } else {
      var k: nat :| k <= |lines| && SpellsOpen(OpenOf(items[0]), lines[..k]) && SpellsAll(items[1..], lines[k..]);
      ItemAlike(items[0], lines[..k]);
      ItemsAlike(items[1..], lines[k..]);
      AlikeJoin(lines[..k], ItemLines(items[0]), lines[k..], AllLines(items[1..]));
      assert lines == lines[..k] + lines[k..];
    }
  }

  lemma {:induction false} NoneAlike()
    ensures AllAlike([], [])
  {
  }

  lemma {:induction false} FeedAlike(st: State, n: nat, lines: seq<string>, models: seq<string>)
    requires AllAlike(lines, models) && Feed(st, n, models).Success?
    ensures Feed(st, n, lines) == Feed(st, n, models)
    decreases |lines|
  {
    hide Step, Split;
    if lines == [] {
    } else {
      assert Alike(lines[0], models[0]);
      assert forall i | 0 <= i < |lines[1..]| :: Alike(lines[1..][i], models[1..][i]) by {
        forall i | 0 <= i < |lines[1..]| ensures Alike(lines[1..][i], models[1..][i]) {
          assert Alike(lines[i + 1], models[i + 1]);
        }
      }
      FeedAlike(Step(st, Split(models[0], ' '), models[0]).value, n + 1, lines[1..], models[1..]);
    }
  }

  /** Blank lines count but change nothing. */
  lemma {:induction false} FeedBlanks(st: State, n: nat, m: nat, lines: seq<string>)
    ensures Feed(st, n, lines).Success? <==> Feed(st, m, NonBlank(lines)).Success?
    ensures Feed(st, n, lines).Success? ==> Feed(st, n, lines) == Feed(st, m, NonBlank(lines))
    decreases |lines|
  {
    hide Step, Split;
    if lines == [] {
    } else if lines[0] == "" {
      FeedBlanks(st, n + 1, m, lines[1..]);
    } else {
      var next := Step(st, Split(lines[0], ' '), lines[0]);
      assert NonBlank(lines)[1..] == NonBlank(lines[1..]);
      if next.Success? { FeedBlanks(next.value, n + 1, m + 1, lines[1..]); }
    }
  }

  /** The parser, exactly: a text is read as these items if and only if its lines, the blank ones left out,
      are the items' lines with their types spelled any way there is, and the format can hold the items. */
  lemma {:induction false} TextIff(text: string, items: seq<Item>)
    ensures ParseSnapshot(text) == Success(items) <==>
            (forall item | item in items :: Held(item)) && SpellsAll(items, NonBlank(Split(text, '\n')))
  {
    hide Feed, Split, Held, SpellsAll, NonBlank, AllLines, SpellsState;
    if ParseSnapshot(text) == Success(items) {
      ParsedHeld(text);
      ParsedSpelled(text);
    }
    if (forall item | item in items :: Held(item)) && SpellsAll(items, NonBlank(Split(text, '\n'))) {
      var lines := Split(text, '\n');
      ItemsAlike(items, NonBlank(lines));
      FeedItems(START, 1, items);
      FeedAlike(START, 1, NonBlank(lines), AllLines(items));
      FeedBlanks(START, 1, 1, lines);
      assert [] + items == items;
    }
  }

  lemma {:induction false} ParsedSpelled(text: string)
    requires ParseSnapshot(text).Success?
    ensures SpellsAll(ParseSnapshot(text).value, NonBlank(Split(text, '\n')))
  {
    hide Feed, Split, NonBlank, SpellsOpen, Close, LastLine;
    var lines := Split(text, '\n');
    var none: seq<string> := [];
    assert none[..0] == [];
    assert SpellsState(START, none);
    FeedSpelled(START, 1, lines, none);
    assert [] + NonBlank(lines) == NonBlank(lines);
    var st, all := Feed(START, 1, lines).value, NonBlank(lines);
    hide SpellsAll;
    var k: nat :| k <= |all| && SpellsAll(st.done, all[..k])
                  && (if st.cur.None? then k == |all| else SpellsOpen(st.cur.value, all[k..]));
    if st.cur.None? {
      assert all[..k] == all;
    } else {
      ClosedOpen(st.cur.value);
      AllSnoc(st.done, all[..k], Close(st.cur.value).value, all[k..]);
      assert all[..k] + all[k..] == all;
    }
  }

  // ---------------------------------------------------------------- refusals

  /** Feeding fails at the first line that is not taken, and says its number. */
  lemma {:induction false} FeedErrorIff(st: State, n: nat, lines: seq<string>, error: ParseError)
    ensures Feed(st, n, lines) == Failure(error) <==>
            exists i: nat | i < |lines| ::
              && lines[i] != "" && error.line == n + i
              && Feed(st, n, lines[..i]).Success?
              && Step(Feed(st, n, lines[..i]).value, Split(lines[i], ' '), lines[i]) == Failure(error.message)
    decreases |lines|
  {
    hide Step, Split, Feed;
    if Feed(st, n, lines) == Failure(error) {
      var i := FeedErrorAt(st, n, lines);
    }
    forall i: nat | i < |lines| && lines[i] != "" && error.line == n + i && Feed(st, n, lines[..i]).Success?
        && Step(Feed(st, n, lines[..i]).value, Split(lines[i], ' '), lines[i]) == Failure(error.message)
      ensures Feed(st, n, lines) == Failure(error)
    {
      assert lines == lines[..i] + ([lines[i]] + lines[i + 1..]);
      FeedSplit(st, n, lines[..i], [lines[i]] + lines[i + 1..]);
      FeedRefused(Feed(st, n, lines[..i]).value, n + i, [lines[i]] + lines[i + 1..]);
    }
  }

  lemma {:induction false} FeedRefused(st: State, n: nat, lines: seq<string>)
    requires lines != [] && lines[0] != "" && Step(st, Split(lines[0], ' '), lines[0]).Failure?
    ensures Feed(st, n, lines) == Failure(ParseError(n, Step(st, Split(lines[0], ' '), lines[0]).error))
  {
    hide Step, Split;
  }

  lemma {:induction false} FeedErrorAt(st: State, n: nat, lines: seq<string>) returns (i: nat)
    requires Feed(st, n, lines).Failure?
    ensures i < |lines| && lines[i] != "" && Feed(st, n, lines).error.line == n + i
    ensures Feed(st, n, lines[..i]).Success?
    ensures Step(Feed(st, n, lines[..i]).value, Split(lines[i], ' '), lines[i]) ==
            Failure(Feed(st, n, lines).error.message)
    decreases |lines|
  {
    hide Step, Split;
    var first := lines[0];
    if first == "" {
      var j := FeedErrorAt(st, n + 1, lines[1..]);
      i := j + 1;
      assert lines[..i][1..] == lines[1..][..j];
    } else {
      var next := Step(st, Split(first, ' '), first);
      if next.Failure? {
        i := 0;
      } else {
        var j := FeedErrorAt(next.value, n + 1, lines[1..]);
        i := j + 1;
        assert lines[..i][1..] == lines[1..][..j];
      }
    }
  }

  /** The number kept for the end of the text is that of the last line that is not blank. */
  lemma {:induction false} LastLineIff(n: nat, lines: seq<string>, last: nat, k: nat)
    requires last < n
    ensures LastLine(n, lines, last) == k <==>
            || (k == last && forall i | 0 <= i < |lines| :: lines[i] == "")
            || (n <= k < n + |lines| && lines[k - n] != "" && forall i | k - n < i < |lines| :: lines[i] == "")
    decreases |lines|
  {
    if lines == [] {
    } else {
      var rest := lines[1..];
      LastLineIff(n + 1, rest, if lines[0] == "" then last else n, k);
      assert forall i | 0 <= i < |rest| :: rest[i] == lines[i + 1];
      assert forall i | 1 <= i < |lines| :: lines[i] == rest[i - 1];
    }
  }

  /** A refused text, exactly: the error names the first line that is not taken; or, if all are taken, the
      last line that is not blank, because the text ends inside a function without its `ret`. */
  lemma {:induction false} ErrorIff(text: string, error: ParseError)
    ensures var lines := Split(text, '\n');
      ParseSnapshot(text) == Failure(error) <==>
        || (exists i: nat | i < |lines| ::
              && lines[i] != "" && error.line == i + 1
              && Feed(START, 1, lines[..i]).Success?
              && Step(Feed(START, 1, lines[..i]).value, Split(lines[i], ' '), lines[i]) == Failure(error.message))
        || (Feed(START, 1, lines).Success? && Unfinished(Feed(START, 1, lines).value, error.message)
            && 1 <= error.line <= |lines| && lines[error.line - 1] != ""
            && forall i | error.line <= i < |lines| :: lines[i] == "")
  {
    hide Step, Feed, Split, LastLine, Close, Unfinished;
    var lines := Split(text, '\n');
    FeedErrorIff(START, 1, lines, error);
    if Feed(START, 1, lines).Success? {
      var st := Feed(START, 1, lines).value;
      UnfinishedIff(st, error.message);
      if Unfinished(st, error.message) {
        LastOfOpen(lines, error.line);
      }
    }
  }

  lemma {:induction false} UnfinishedIff(st: State, message: string)
    ensures Unfinished(st, message) <==> st.cur.Some? && Close(st.cur.value) == Failure(message)
  {
  }

  /** Where an item is open, some line is not blank. */
  lemma {:induction false} LastOfOpen(lines: seq<string>, k: nat)
    requires Feed(START, 1, lines).Success? && Feed(START, 1, lines).value.cur.Some?
    ensures LastLine(1, lines, 0) == k <==>
            1 <= k <= |lines| && lines[k - 1] != "" && forall i | k <= i < |lines| :: lines[i] == ""
  {
    hide Feed, LastLine;
    if forall i | 0 <= i < |lines| :: lines[i] == "" { BlankStart(START, 1, lines); }
    LastLineIff(1, lines, 0, k);
  }

  /** The open item is a function without a `ret`. */
  predicate Unfinished(st: State, message: string) {
    match st.cur
    case Some(OpenFunc(name, _, None, _)) => message == "snapshot: func `" + name + "` has no `ret` line"
    case _ => false
  }

  lemma {:induction false} BlankStart(st: State, n: nat, lines: seq<string>)
    requires forall i | 0 <= i < |lines| :: lines[i] == ""
    ensures Feed(st, n, lines) == Success(st)
    decreases |lines|
  {
    if lines != [] { BlankStart(st, n + 1, lines[1..]); }
  }

  /** The words of function semantics, exactly. */
  lemma {:induction false} SemIff(tokens: seq<string>, sem: FuncSem)
    requires |tokens| == 3 || (|tokens| == 4 && tokens[3] == "stream")
    ensures ParseSem(tokens) == Success(sem) <==>
            && tokens[1] in ["strict", "propagate", "custom"]
            && tokens[2] in ["pure", "stable", "volatile"]
            && sem == FuncSem(tokens[1], tokens[2], |tokens| == 4)
  {
  }

  function GoldenItem(): Item {
    Func("f", [("a", U64)], Opt(Named("T")), Some(FuncSem("strict", "pure", true)))
  }

  function GoldenLines(): seq<string> {
    ["func f", "param a u64", "ret option(ty(T))", "sem strict pure stream"]
  }

  lemma {:induction false} GoldenRet()
    ensures "ret" + (" " + RenderTy(Opt(Named("T")))) == "ret option(ty(T))"
  {
    assert RenderTy(Named("T")) == "ty" + "(" + "T" + ")" == "ty(T)";
    assert RenderTy(Opt(Named("T"))) == "option" + "(" + "ty(T)" + ")" == "option(ty(T))";
    hide RenderTy;
  }

  lemma {:induction false} GoldenParam()
    ensures MemberLines("param", [("a", U64)]) == ["param a u64"]
  {
    var ms: seq<Member> := [("a", U64)];
    assert RenderTy(U64) == "u64";
    hide RenderTy;
    assert ms[1..] == [];
    assert "param" + (" " + ("a" + (" " + "u64"))) == "param a u64";
  }

  lemma {:induction false} GoldenSem()
    ensures SemLine(FuncSem("strict", "pure", true)) == "sem strict pure stream"
  {
    assert "pure" + (" " + "stream") == "pure stream";
    assert "strict" + (" " + "pure stream") == "strict pure stream";
  }

  lemma {:induction false} GoldenHeld()
    ensures Held(GoldenItem())
  {
    assert NameChars(Named("T")) == set c | c in "T";
    assert ' ' !in "T" && '\n' !in "T" && ')' !in "T";
    assert Clean("f") && Clean("a");
  }

  /** One function in full, as written and as read. */
  lemma {:induction false} GoldenText()
    ensures ParseSnapshot(JoinLines(GoldenLines())) == Success([GoldenItem()])
  {
    GoldenHeld();
    GoldenRet();
    GoldenParam();
    GoldenSem();
    hide ParseSnapshot, JoinLines, Held, RenderTy, MemberLines, SemLine;
    var item := GoldenItem();
    assert "func" + (" " + "f") == "func f";
    assert ItemLines(item) == ["func f"] + (["param a u64"] + (["ret option(ty(T))"] + ["sem strict pure stream"]));
    assert ItemLines(item) == GoldenLines();
    hide ItemLines, GoldenLines;
    assert [item][1..] == [];
    assert AllLines([item]) == ItemLines(item) + AllLines([]) == ItemLines(item);
    ParseRender([item]);
  }

  const KIND_ITEMS: seq<Item> :=
    [Record("R", [("a", U64)]), Variant("V", [Case("x", None), Case("y", Some(U64))]), Resource("Q")]

  const KIND_LINES: seq<string> := ["record R", "field a u64", "variant V", "case x", "case y u64", "resource Q"]

  lemma {:induction false} KindRecord()
    ensures ItemLines(KIND_ITEMS[0]) == ["record R", "field a u64"]
  {
    var ms: seq<Member> := [("a", U64)];
    assert RenderTy(U64) == "u64";
    hide RenderTy;
    assert ms[1..] == [];
    assert "record" + (" " + "R") == "record R" && "field" + (" " + ("a" + (" " + "u64"))) == "field a u64";
  }

  lemma {:induction false} KindVariant()
    ensures ItemLines(KIND_ITEMS[1]) == ["variant V", "case x", "case y u64"]
  {
    var cases := [Case("x", None), Case("y", Some(U64))];
    assert RenderTy(U64) == "u64";
    hide RenderTy;
    assert cases[1..] == [Case("y", Some(U64))] && cases[1..][1..] == [];
    assert "variant" + (" " + "V") == "variant V" && "case" + (" " + "x") == "case x";
    assert "case" + (" " + ("y" + (" " + "u64"))) == "case y u64";
  }

  lemma {:induction false} KindLines()
    ensures AllLines(KIND_ITEMS) == KIND_LINES
  {
    KindRecord();
    KindVariant();
    assert ItemLines(KIND_ITEMS[2]) == ["resource Q"] by { assert "resource" + (" " + "Q") == "resource Q"; }
    hide ItemLines;
    var items := KIND_ITEMS;
    assert items[1..][0] == items[1] && items[1..][1..][0] == items[2] && items[1..][1..][1..] == [];
  }

  lemma {:induction false} KindsHeld()
    ensures forall item | item in KIND_ITEMS :: Held(item)
  {
    assert Clean("R") && Clean("V") && Clean("Q") && Clean("a") && Clean("x") && Clean("y");
    assert TyHeld(U64);
    hide TyHeld, Clean;
  }

  /** The other kinds of line: a record, a variant and a resource, as written and as read. */
  lemma {:induction false} GoldenKinds()
    ensures ParseSnapshot(JoinLines(KIND_LINES)) == Success(KIND_ITEMS)
  {
    KindLines();
    KindsHeld();
    hide ParseSnapshot, JoinLines, Held, AllLines;
    ParseRender(KIND_ITEMS);
  }
}
