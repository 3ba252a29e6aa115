/** The append-only delta log as a function of its inputs: entry and record formats, the open-time
    scan, replay, append and rewind. `DeltaLog` in Store.dfy is proved against these. */
module Journal {
  import opened Wire
  import opened Codec
  import opened Values
  import opened Rows
  import opened Deltas

  const VERSION: u64 := 1

  type Name = Vec<char>

  /** Schemas by table name; the fingerprint is the set's fixed identity. */
  datatype SchemaSet = SchemaSet(tables: map<Name, Schema>, fingerprint: u64)

  datatype DeltaError =
    | UnknownTable(table: Name)
    | SchemaMismatch(table: Name, reason: string)
    | WrongVersion(offset: nat, found: u64)
    | FingerprintMismatch(offset: nat)
    | CorruptRecord(offset: nat, reason: string)
      // A record no vector can hold: the allocation the source would abort in.
    | CapacityOverflow

  datatype DeltaEntry = DeltaEntry(table: Name, change: Change, inverse: Change)

  // --------------------------------------------------------- entry payloads

  function EncChange(schema: Schema, change: Change): Option<Bytes> {
    var payload := match change
      case Remove(k) => EncKey(schema, k)
      case _ => Some(EncRow(schema, change.row));
    if payload.None? then None else Some(EncVarnat(change.Tag()) + payload.value)
  }

  function DecChange(schema: Schema, bs: Bytes): (r: Dec<Change>)
    ensures r.Ok? ==> r.used <= |bs| && Typed(schema, r.value)
  {
    var (tag, u) :- DecVarnat(bs);
    if tag == 0 || tag == 1 then
      var (row, used) :- DecRow(schema, bs[u..]);
      Ok(if tag == 0 then Insert(row) else Update(row), u + used)
    else if tag == 2 then
      if schema.Key().None? then Fail(Corrupt) else
      var (key, used) :- DecValue(schema.Key().value.ty, bs[u..]);
      Ok(Remove(key), u + used)
    else
      Fail(Corrupt)
  }

  function EncName(name: Name): Bytes {
    EncValue(Str, VStr(name))
  }

  function EncEntry(schemas: SchemaSet, e: DeltaEntry): Option<Bytes> {
    if e.table !in schemas.tables then None else
    var schema := schemas.tables[e.table];
    var change, inverse := EncChange(schema, e.change), EncChange(schema, e.inverse);
    if change.None? || inverse.None? then None
    else Some(EncName(e.table) + (change.value + inverse.value))
  }

  /** A payload must be consumed to its last byte. */
  function DecEntry(schemas: SchemaSet, payload: Bytes): (r: Option<DeltaEntry>)
    ensures r.Some? ==> TypedEntry(schemas, r.value)
  {
    var name := DecValue(Str, payload);
    if name.Fail? || name.value.s !in schemas.tables then None else
    var schema := schemas.tables[name.value.s];
    var rest := payload[name.used..];
    var change := DecChange(schema, rest);
    if change.Fail? then None else
    var inverse := DecChange(schema, rest[change.used..]);
    if inverse.Fail? || change.used + inverse.used != |rest| then None
    else Some(DeltaEntry(name.value.s, change.value, inverse.value))
  }

  predicate TypedEntry(schemas: SchemaSet, e: DeltaEntry) {
    && e.table in schemas.tables
    && Typed(schemas.tables[e.table], e.change)
    && Typed(schemas.tables[e.table], e.inverse)
  }

  /** An entry as a complete envelope, unless it does not encode or no vector can hold it. */
  function Encode(schemas: SchemaSet, entry: DeltaEntry): Result<Bytes, DeltaError> {
    var payload := EncEntry(schemas, entry);
    if payload.None? then Failure(SchemaMismatch(entry.table, "entry failed to encode"))
    else if |payload.value| >= U64_LIMIT then Failure(CapacityOverflow)
    else Success(EncEnvelope(Envelope(VERSION, schemas.fingerprint, payload.value)))
  }

  /** An entry's journal record; nothing for an entry `append` would refuse. */
  function Record(schemas: SchemaSet, e: DeltaEntry): Bytes {
    match Encode(schemas, e) case Success(rec) => rec case Failure(_) => []
  }

  function Records(schemas: SchemaSet, es: seq<DeltaEntry>): Bytes {
    if es == [] then [] else Record(schemas, es[0]) + Records(schemas, es[1..])
  }

  // ------------------------------------------------------------------- scan

  /** What the open-time scan of some bytes found, or why it refused them. */
  datatype Scan = Scanned(entries: seq<DeltaEntry>, kept: nat) | Refused(error: DeltaError)

  /** Scan `rest`, which starts `offset` bytes into the journal. A torn record ends the scan: it is
      where the journal gets truncated. */
  function ScanFrom(schemas: SchemaSet, rest: Bytes, offset: nat): (r: Scan)
    ensures r.Scanned? ==> offset <= r.kept <= offset + |rest|
    ensures r.Scanned? ==> forall e :: e in r.entries ==> TypedEntry(schemas, e)
    decreases |rest|
  {
    if rest == [] then Scanned([], offset) else
    match DecEnvelope(rest)
    case Fail(Torn) => Scanned([], offset)
    case Fail(Corrupt) => Refused(CorruptRecord(offset, "malformed envelope header"))
    case Ok(env, len) =>
      if env.version != VERSION then Refused(WrongVersion(offset, env.version))
      else if env.fingerprint != schemas.fingerprint then Refused(FingerprintMismatch(offset))
      else
        var entry := DecEntry(schemas, env.payload);
        if entry.None? then Refused(CorruptRecord(offset, "entry payload undecodable")) else
        match ScanFrom(schemas, rest[len..], offset + len)
        case Refused(error) => Refused(error)
        case Scanned(entries, kept) => Scanned([entry.value] + entries, kept)
  }

  // ----------------------------------------------------------------- replay

  /** The materialized tables; a table no entry has touched is absent. */
  type States = map<Name, Slots>

  function RowsOf(states: States, table: Name): Slots {
    if table in states then states[table] else map[]
  }

  function PatchState(schemas: SchemaSet, states: States, table: Name, change: Change): States {
    if table !in schemas.tables then states
    else states[table := Patched(schemas.tables[table], RowsOf(states, table), change)]
  }

  function Rebuild(schemas: SchemaSet, es: seq<DeltaEntry>): States {
    if es == [] then map[] else
    var last := es[|es| - 1];
    PatchState(schemas, Rebuild(schemas, es[..|es| - 1]), last.table, last.change)
  }

  /** One table replayed on its own, skipping the other tables' entries. */
  function Replay(schema: Schema, table: Name, es: seq<DeltaEntry>): Slots {
    if es == [] then map[] else
    var before, last := Replay(schema, table, es[..|es| - 1]), es[|es| - 1];
    if last.table == table then Patched(schema, before, last.change) else before
  }

  /** A table's state after the first `seqno` entries. */
  function StateAt(schemas: SchemaSet, es: seq<DeltaEntry>, table: Name, seqno: nat): Option<Slots> {
    if table !in schemas.tables then None
    else Some(Replay(schemas.tables[table], table, if seqno < |es| then es[..seqno] else es))
  }

  // ------------------------------------------------------- append and rewind

  datatype Log = Log(bytes: Bytes, entries: seq<DeltaEntry>, states: States)

  const EMPTY_LOG := Log([], [], map[])

  function Validate(schema: Schema, table: Name, change: Change): Option<DeltaError> {
    if schema.Key().None? then
      Some(SchemaMismatch(table, "key-less schema has no change type (Delta.lean)"))
    else match change
      case Remove(k) =>
        if schema.KeyMatches(k) then None else Some(SchemaMismatch(table, "remove key type mismatch"))
      case _ =>
        if schema.Check(change.row.values) then None
        else Some(SchemaMismatch(table, "row arity/type mismatch"))
  }

  /** The entry an append would write: the change checked, its inverse computed. */
  function Prepare(schemas: SchemaSet, states: States, table: Name, change: Change): (r: Result<DeltaEntry, DeltaError>)
    ensures r.Success? ==> table in schemas.tables && r.value.table == table && r.value.change == change
  {
    if table !in schemas.tables then Failure(UnknownTable(table)) else
    var schema := schemas.tables[table];
    var invalid := Validate(schema, table, change);
    if invalid.Some? then Failure(invalid.value) else
    var key := change.KeyBytes(schema);
    if key.None? then Failure(SchemaMismatch(table, "no key")) else
    var inverse := Invert(schema, change, Lookup(RowsOf(states, table), key.value));
    if inverse.None? then Failure(SchemaMismatch(table, "not invertible")) else
    Success(DeltaEntry(table, change, inverse.value))
  }

  function Append(schemas: SchemaSet, log: Log, table: Name, change: Change): Result<Log, DeltaError> {
    match Prepare(schemas, log.states, table, change)
    case Failure(error) => Failure(error)
    case Success(entry) =>
      match Encode(schemas, entry)
      case Failure(error) => Failure(error)
      case Success(rec) =>
        Success(Log(log.bytes + rec, log.entries + [entry], PatchState(schemas, log.states, table, change)))
  }

  type Op = (Name, Change)

  /** A log and the error that stopped it, if one did. */
  datatype Outcome = Outcome(log: Log, error: Option<DeltaError>)

  /** Appends one after the other up to the first failure. */
  function AppendAll(schemas: SchemaSet, log: Log, ops: seq<Op>): Outcome
    decreases |ops|
  {
    if ops == [] then Outcome(log, None) else
    match Append(schemas, log, ops[0].0, ops[0].1)
    case Failure(error) => Outcome(log, Some(error))
    case Success(next) => AppendAll(schemas, next, ops[1..])
  }

  /** The stored inverses of entries `lo..hi`, last entry first. */
  function Compensations(es: seq<DeltaEntry>, lo: nat, hi: nat): (ops: seq<Op>)
    requires lo <= hi <= |es|
    ensures |ops| == hi - lo
    decreases hi
  {
    if lo == hi then []
    else [(es[hi - 1].table, es[hi - 1].inverse)] + Compensations(es, lo, hi - 1)
  }

  function RewindTo(schemas: SchemaSet, log: Log, seqno: nat): Outcome {
    var start := if seqno < |log.entries| then seqno else |log.entries|;
    AppendAll(schemas, log, Compensations(log.entries, start, |log.entries|))
  }

  function Open(schemas: SchemaSet, bytes: Bytes): Result<Log, DeltaError> {
    match ScanFrom(schemas, bytes, 0)
    case Refused(error) => Failure(error)
    case Scanned(entries, kept) => Success(Log(bytes[..kept], entries, Rebuild(schemas, entries)))
  }

  // ------------------------------------------------------------------- runs

  /** What can happen to a log: an append, a rewind, or a crash that leaves any prefix of the bytes
      behind, after which the log is opened again. */
  datatype Event = Appended(table: Name, change: Change) | Rewound(seqno: nat) | Crashed(cut: nat)

  function Reopened(schemas: SchemaSet, log: Log, cut: nat): Result<Log, DeltaError> {
    Open(schemas, if cut < |log.bytes| then log.bytes[..cut] else log.bytes)
  }

  /** The log after an event; one that failed without effect leaves it as it was. */
  function Next(schemas: SchemaSet, log: Log, event: Event): Log {
    match event
    case Appended(table, change) =>
      (match Append(schemas, log, table, change) case Success(next) => next case Failure(_) => log)
    case Rewound(seqno) => RewindTo(schemas, log, seqno).log
    case Crashed(cut) =>
      (match Reopened(schemas, log, cut) case Success(next) => next case Failure(_) => log)
  }

  function Run(schemas: SchemaSet, events: seq<Event>): Log {
    if events == [] then EMPTY_LOG
    else Next(schemas, Run(schemas, events[..|events| - 1]), events[|events| - 1])
  }
}
