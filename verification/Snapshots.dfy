/** Universe snapshots: one line per item or member. The renderer and the line-driven parser. */
module Snapshots {
  import opened Wire
  import opened SnapshotTypes

  /** Non-default function semantics. */
  datatype FuncSem = FuncSem(nullSem: string, determinism: string, stream: bool)

  type Member = (string, Ty)

  datatype Case = Case(name: string, payload: Option<Ty>)

  datatype Item =
    | Record(name: string, fields: seq<Member>)
    | Variant(name: string, cases: seq<Case>)
    | Func(name: string, params: seq<Member>, ret: Ty, sem: Option<FuncSem>)
    | Resource(name: string)

  // ------------------------------------------------------------- rendering

  function MemberLines(word: string, members: seq<Member>): seq<string> {
    if members == [] then []
    else [word + (" " + (members[0].0 + (" " + RenderTy(members[0].1))))] + MemberLines(word, members[1..])
  }

  function CaseLine(c: Case): string {
    "case" + (" " + if c.payload.None? then c.name else c.name + (" " + RenderTy(c.payload.value)))
  }

  function CaseLines(cases: seq<Case>): seq<string> {
    if cases == [] then [] else [CaseLine(cases[0])] + CaseLines(cases[1..])
  }

  function SemLine(sem: FuncSem): string {
    "sem" + (" " + (sem.nullSem + (" " + if sem.stream then sem.determinism + (" " + "stream") else sem.determinism)))
  }

  /** Header line first, members after; `ret` follows the parameters and `sem`, if any, comes last. */
  function ItemLines(item: Item): seq<string> {
    match item
    case Record(name, fields) => ["record" + (" " + name)] + MemberLines("field", fields)
    case Variant(name, cases) => ["variant" + (" " + name)] + CaseLines(cases)
    case Func(name, params, ret, sem) =>
      ["func" + (" " + name)] + (MemberLines("param", params) +
        (["ret" + (" " + RenderTy(ret))] + if sem.None? then [] else [SemLine(sem.value)]))
    case Resource(name) => ["resource" + (" " + name)]
  }

  function AllLines(items: seq<Item>): seq<string> {
    if items == [] then [] else ItemLines(items[0]) + AllLines(items[1..])
  }

  /** Every line ended by a newline. */
  function JoinLines(lines: seq<string>): string {
    if lines == [] then "" else lines[0] + ("\n" + JoinLines(lines[1..]))
  }

  function Render(items: seq<Item>): string {
    JoinLines(AllLines(items))
  }

  // --------------------------------------------------------------- parsing

  function Other(sep: char): char -> bool {
    c => c != sep
  }

  /** The pieces between separators; always at least one. */
  function Split(s: string, sep: char): (pieces: seq<string>)
    ensures pieces != []
    decreases |s|
  {
    var n := Span(s, Other(sep));
    if n == |s| then [s] else [s[..n]] + Split(s[n + 1..], sep)
  }

  datatype ParseError = ParseError(line: nat, message: string)

  /** The item being accumulated. */
  datatype Open =
    | OpenRecord(name: string, fields: seq<Member>)
    | OpenVariant(name: string, cases: seq<Case>)
    | OpenFunc(name: string, params: seq<Member>, ret: Option<Ty>, sem: Option<FuncSem>)
    | OpenResource(name: string)

  /** A function without a `ret` line is malformed. */
  function Close(open: Open): Result<Item, string> {
    match open
    case OpenRecord(name, fields) => Success(Record(name, fields))
    case OpenVariant(name, cases) => Success(Variant(name, cases))
    case OpenFunc(name, params, ret, sem) =>
      if ret.Some? then Success(Func(name, params, ret.value, sem))
      else Failure("snapshot: func `" + name + "` has no `ret` line")
    case OpenResource(name) => Success(Resource(name))
  }

  /** Closed items and the open one. */
  datatype State = State(done: seq<Item>, cur: Option<Open>)

  datatype Kind = KRecord | KVariant | KFunc | KResource | KField | KCase | KParam | KRet | KSem

  function KindText(kind: Kind): string {
    match kind
    case KRecord => "record" case KVariant => "variant" case KFunc => "func" case KResource => "resource"
    case KField => "field" case KCase => "case" case KParam => "param" case KRet => "ret" case KSem => "sem"
  }

  function KindOf(word: string): Option<Kind> {
    if word == "record" then Some(KRecord)
    else if word == "variant" then Some(KVariant)
    else if word == "func" then Some(KFunc)
    else if word == "resource" then Some(KResource)
    else if word == "field" then Some(KField)
    else if word == "case" then Some(KCase)
    else if word == "param" then Some(KParam)
    else if word == "ret" then Some(KRet)
    else if word == "sem" then Some(KSem)
    else None
  }

  predicate NullSem(token: string) { token == "strict" || token == "propagate" || token == "custom" }

  predicate Determinism(token: string) { token == "pure" || token == "stable" || token == "volatile" }

  function ParseSem(tokens: seq<string>): Result<FuncSem, string>
    requires |tokens| == 3 || (|tokens| == 4 && tokens[3] == "stream")
  {
    if !NullSem(tokens[1]) then
      Failure("snapshot: unknown nullSem token `" + tokens[1] + "` \U{2014} valid: strict, propagate, custom")
    else if !Determinism(tokens[2]) then
      Failure("snapshot: unknown determinism token `" + tokens[2] + "` \U{2014} valid: pure, stable, volatile")
    else Success(FuncSem(tokens[1], tokens[2], |tokens| == 4))
  }

  /** Close the open item, if any, and start the new one. */
  function Restart(st: State, open: Open): Result<State, string> {
    if st.cur.None? then Success(State(st.done, Some(open)))
    else match Close(st.cur.value)
      case Failure(e) => Failure(e)
      case Success(item) => Success(State(st.done + [item], Some(open)))
  }

  function Reopen(st: State, open: Open): State {
    st.(cur := Some(open))
  }

  /** One line onto the state: what the token pattern selects, given the item that is open. */
  function Step(st: State, tokens: seq<string>, line: string): Result<State, string>
    requires tokens != []
  {
    var n := |tokens|;
    match KindOf(tokens[0])
    case Some(KRecord) =>
      if n == 2 then Restart(st, OpenRecord(tokens[1], [])) else Unrecognized(line)
    case Some(KVariant) =>
      if n == 2 then Restart(st, OpenVariant(tokens[1], [])) else Unrecognized(line)
    case Some(KFunc) =>
      if n == 2 then Restart(st, OpenFunc(tokens[1], [], None, None)) else Unrecognized(line)
    case Some(KResource) =>
      if n == 2 then Restart(st, OpenResource(tokens[1])) else Unrecognized(line)
    case Some(KField) =>
      if n == 3 then StepField(st, tokens[1], tokens[2]) else Unrecognized(line)
    case Some(KCase) =>
      if n == 2 then StepCase(st, tokens[1], None)
      else if n == 3 then StepCase(st, tokens[1], Some(tokens[2]))
      else Unrecognized(line)
    case Some(KParam) =>
      if n == 3 then StepParam(st, tokens[1], tokens[2]) else Unrecognized(line)
    case Some(KRet) =>
      if n == 2 then StepRet(st, tokens[1]) else Unrecognized(line)
    case Some(KSem) =>
      if n == 3 || (n == 4 && tokens[3] == "stream") then StepSem(st, tokens) else Unrecognized(line)
    case None => Unrecognized(line)
  }

  function Unrecognized(line: string): Result<State, string> {
    Failure("snapshot: unrecognized line `" + line + "`")
  }

  function StepField(st: State, name: string, text: string): Result<State, string> {
    if st.cur.None? || !st.cur.value.OpenRecord? then Failure("snapshot: `field` outside a record") else
    match ParseTyText(text)
    case Error(e) => Failure(e)
    case Done(t, _) => Success(Reopen(st, st.cur.value.(fields := st.cur.value.fields + [(name, t)])))
  }

  function StepCase(st: State, name: string, text: Option<string>): Result<State, string> {
    if st.cur.None? || !st.cur.value.OpenVariant? then Failure("snapshot: `case` outside a variant") else
    var cases := st.cur.value.cases;
    if text.None? then Success(Reopen(st, st.cur.value.(cases := cases + [Case(name, None)]))) else
    match ParseTyText(text.value)
    case Error(e) => Failure(e)
    case Done(t, _) => Success(Reopen(st, st.cur.value.(cases := cases + [Case(name, Some(t))])))
  }

  function StepParam(st: State, name: string, text: string): Result<State, string> {
    if st.cur.None? || !st.cur.value.OpenFunc? then Failure("snapshot: `param` outside a func")
    else if st.cur.value.ret.Some? then Failure("snapshot: `param` after `ret`") else
    match ParseTyText(text)
    case Error(e) => Failure(e)
    case Done(t, _) => Success(Reopen(st, st.cur.value.(params := st.cur.value.params + [(name, t)])))
  }

  function StepRet(st: State, text: string): Result<State, string> {
    if st.cur.None? || !st.cur.value.OpenFunc? then Failure("snapshot: `ret` outside a func")
    else if st.cur.value.ret.Some? then Failure("snapshot: duplicate `ret`") else
    match ParseTyText(text)
    case Error(e) => Failure(e)
    case Done(t, _) => Success(Reopen(st, st.cur.value.(ret := Some(t))))
  }

  function StepSem(st: State, tokens: seq<string>): Result<State, string>
    requires |tokens| == 3 || (|tokens| == 4 && tokens[3] == "stream")
  {
    if st.cur.None? || !st.cur.value.OpenFunc? then Failure("snapshot: `sem` outside a func")
    else if st.cur.value.sem.Some? then Failure("snapshot: duplicate `sem`")
    else if st.cur.value.ret.None? then Failure("snapshot: `sem` before `ret`") else
    match ParseSem(tokens)
    case Failure(e) => Failure(e)
    case Success(sem) => Success(Reopen(st, st.cur.value.(sem := Some(sem))))
  }

  /** All lines from number `n` on; blank ones are skipped, the first error sticks. */
  function Feed(st: State, n: nat, lines: seq<string>): Result<State, ParseError>
    decreases |lines|
  {
    if lines == [] then Success(st)
    else if lines[0] == "" then Feed(st, n + 1, lines[1..])
    else match Step(st, Split(lines[0], ' '), lines[0])
      case Failure(e) => Failure(ParseError(n, e))
      case Success(next) => Feed(next, n + 1, lines[1..])
  }

  /** The number of the last line that is not blank, counting from `n`. */
  function LastLine(n: nat, lines: seq<string>, last: nat): nat
    decreases |lines|
  {
    if lines == [] then last
    else LastLine(n + 1, lines[1..], if lines[0] == "" then last else n)
  }

  function Finish(st: State, lastLine: nat): Result<seq<Item>, ParseError> {
    if st.cur.None? then Success(st.done)
    else match Close(st.cur.value)
      case Failure(e) => Failure(ParseError(lastLine, e))
      case Success(item) => Success(st.done + [item])
  }

  const START := State([], None)

  function ParseSnapshot(text: string): Result<seq<Item>, ParseError> {
    var lines := Split(text, '\n');
    match Feed(START, 1, lines)
    case Failure(e) => Failure(e)
    case Success(st) => Finish(st, LastLine(1, lines, 0))
  }

  // ---------------------------------------------------- what the format holds

  /** A name no separator splits. */
  predicate Clean(name: string) { ' ' !in name && '\n' !in name }

  predicate TyHeld(ty: Ty) {
    Gated(ty) && Depth(ty) <= MAX_TY_DEPTH && ' ' !in NameChars(ty) && '\n' !in NameChars(ty)
  }

  predicate MembersHeld(members: seq<Member>) {
    forall m | m in members :: Clean(m.0) && TyHeld(m.1)
  }

  predicate CaseHeld(c: Case) {
    Clean(c.name) && (c.payload.Some? ==> TyHeld(c.payload.value))
  }

  predicate CasesHeld(cases: seq<Case>) {
    forall c | c in cases :: CaseHeld(c)
  }

  predicate SemHeld(sem: FuncSem) {
    NullSem(sem.nullSem) && Determinism(sem.determinism)
  }

  /** Items the text format can hold. */
  predicate Held(item: Item) {
    && Clean(item.name)
    && match item
       case Record(_, fields) => MembersHeld(fields)
       case Variant(_, cases) => CasesHeld(cases)
       case Func(_, params, ret, sem) => MembersHeld(params) && TyHeld(ret) && (sem.Some? ==> SemHeld(sem.value))
       case Resource(_) => true
  }
}
