/** The log as the source keeps it: a byte backend, an entry index and tables patched in place. */
module Store {
  import opened Wire
  import opened Codec
  import opened Rows
  import opened Deltas
  import opened Journal
  import opened JournalLaws
  import opened LogLaws
  import opened Writers

  /** The in-memory backend, the reference for the others. */
  class MemBackend {
    var bytes: Bytes

    constructor (bytes: Bytes)
      ensures this.bytes == bytes
    {
      this.bytes := bytes;
    }

    method Append(rec: Bytes)
      modifies this
      ensures bytes == old(bytes) + rec
    {
      bytes := bytes + rec;
    }

    method Truncate(len: nat)
      modifies this
      ensures bytes == if len < |old(bytes)| then old(bytes)[..len] else old(bytes)
    {
      if len < |bytes| {
        bytes := bytes[..len];
      }
    }
  }

  class Table {
    var rows: Slots

    constructor ()
      ensures rows == map[]
    {
      rows := map[];
    }

    method Patch(schema: Schema, change: Change)
      modifies this
      ensures rows == Patched(schema, old(rows), change)
    {
      match change {
        case Insert(r) =>
          var key := RowKeyBytes(schema, r);
          if key.Some? { rows := rows[key.value := r]; }
        case Update(r) =>
          var key := RowKeyBytes(schema, r);
          if key.Some? { rows := rows[key.value := r]; }
        case Remove(_) =>
          var key := change.KeyBytes(schema);
          if key.Some? { rows := rows - {key.value}; }
      }
    }
  }

  class DeltaLog {
    const backend: MemBackend
    const schemas: SchemaSet
    var entries: seq<DeltaEntry>
    var states: map<Name, Table>

    /** No two names share a table object. */
    ghost predicate Distinct()
      reads this
    {
      forall s, t | s in states && t in states && s != t :: states[s] != states[t]
    }

    ghost function Tables(): States
      reads this, states.Values
    {
      map t | t in states :: states[t].rows
    }

    /** What the log says, with the objects taken away. */
    ghost function View(): Log
      reads this, backend, states.Values
    {
      Log(backend.bytes, entries, Tables())
    }

    ghost predicate Valid()
      reads this, backend, states.Values
    {
      Distinct() && Consistent(schemas, View())
    }

    constructor (backend: MemBackend, schemas: SchemaSet, entries: seq<DeltaEntry>)
      ensures this.backend == backend && this.schemas == schemas && this.entries == entries
      ensures states == map[]
    {
      this.backend, this.schemas, this.entries := backend, schemas, entries;
      states := map[];
    }

    /** A table object for this name, created empty if there is none yet. */
    method EnsureTable(table: Name)
      requires Distinct()
      modifies this`states
      ensures Distinct() && fresh(states.Values - old(states.Values))
      ensures states.Keys == old(states.Keys) + {table}
      ensures forall t | t in states :: states[t].rows == RowsOf(old(Tables()), t)
    {
      if table !in states {
        var created := new Table();
        states := states[table := created];
      }
    }

    /** Patch one table in place, creating it on its first change. */
    method PatchTable(table: Name, change: Change)
      requires Distinct() && table in schemas.tables
      modifies this`states, states.Values
      ensures Distinct() && fresh(states.Values - old(states.Values))
      ensures Tables() == PatchState(schemas, old(Tables()), table, change)
    {
      hide Patched, PatchState, RowsOf;
      ghost var was := Tables();
      EnsureTable(table);
      states[table].Patch(schemas.tables[table], change);
      PatchStateIs(schemas, was, Tables(), table, change);
    }

    /** Rebuild the tables from the entries. */
    method RebuildStates()
      modifies this`states
      ensures Distinct() && fresh(states.Values)
      ensures Tables() == Rebuild(schemas, entries)
    {
      hide PatchState;
      states := map[];
      for i := 0 to |entries|
        invariant Distinct() && fresh(states.Values)
        invariant Tables() == Rebuild(schemas, entries[..i])
      {
        var e := entries[i];
        assert entries[..i + 1] == entries[..i] + [e];
        RebuildSnoc(schemas, entries[..i], e);
        if e.table in schemas.tables {
          PatchTable(e.table, e.change);
        } else {
          UnknownTableIgnored(schemas, Tables(), e);
        }
      }
      assert entries[..|entries|] == entries;
    }

    /** The scan loop: decode record after record; a torn one is cut off the backend. */
    static method Recover(backend: MemBackend, schemas: SchemaSet) returns (r: Scan)
      modifies backend
      ensures r == ScanFrom(schemas, old(backend.bytes), 0)
      ensures backend.bytes == if r.Scanned? then old(backend.bytes)[..r.kept] else old(backend.bytes)
    {
      hide ScanFrom, DecEnvelope, DecEntry, After;
      var bytes := backend.bytes;
      var entries: seq<DeltaEntry>, offset: nat := [], 0;
      assert bytes[0..] == bytes;
      AfterLaws(entries, ScanFrom(schemas, bytes, 0));
      while offset < |bytes|
        invariant offset <= |bytes| && backend.bytes == bytes
        invariant ScanFrom(schemas, bytes, 0) == After(entries, ScanFrom(schemas, bytes[offset..], offset))
        decreases |bytes| - offset
      {
        ScanUnfold(schemas, bytes, offset);
        AfterLaws(entries, ScanFrom(schemas, bytes[offset..], offset));
        match DecEnvelope(bytes[offset..]) {
          case Fail(Torn) =>
            backend.Truncate(offset);
            return Scanned(entries, offset);
          case Fail(Corrupt) =>
            return Refused(CorruptRecord(offset, "malformed envelope header"));
          case Ok(env, len) =>
            if env.version != VERSION {
              return Refused(WrongVersion(offset, env.version));
            }
            if env.fingerprint != schemas.fingerprint {
              return Refused(FingerprintMismatch(offset));
            }
            var entry := DecEntry(schemas, env.payload);
            if entry.None? {
              return Refused(CorruptRecord(offset, "entry payload undecodable"));
            }
            AfterAfter(entries, entry.value, ScanFrom(schemas, bytes[offset + len..], offset + len));
            entries, offset := entries + [entry.value], offset + len;
        }
      }
      assert bytes[offset..] == [] && bytes[..offset] == bytes;
      ScanNothing(schemas, offset);
      AfterLaws(entries, Scanned([], offset));
      return Scanned(entries, offset);
    }

    /** Open a log over a backend: recover the entries, rebuild the tables. The outcome is `Open` of
        the bytes; a refused journal is left untouched. */
    static method OpenWith(backend: MemBackend, schemas: SchemaSet) returns (r: Result<DeltaLog, DeltaError>)
      modifies backend
      ensures r.Success? ==>
                && Open(schemas, old(backend.bytes)) == Success(r.value.View())
                && fresh(r.value) && fresh(r.value.states.Values)
                && r.value.backend == backend && r.value.schemas == schemas
                && r.value.Valid()
      ensures r.Failure? ==>
                && Open(schemas, old(backend.bytes)) == Failure(r.error)
                && backend.bytes == old(backend.bytes)
    {
      hide ScanFrom, Rebuild, Consistent;
      ghost var bytes := backend.bytes;
      var scan := Recover(backend, schemas);
      if scan.Refused? {
        return Failure(scan.error);
      }
      var log := new DeltaLog(backend, schemas, scan.entries);
      log.RebuildStates();
      OpenConsistent(schemas, bytes);
      return Success(log);
    }

    /** The entry to write for a change, or why there is none. */
    method Check(table: Name, change: Change) returns (r: Result<DeltaEntry, DeltaError>)
      ensures r == Prepare(schemas, Tables(), table, change)
    {
      hide Invert, Validate;
      if table !in schemas.tables {
        return Failure(UnknownTable(table));
      }
      var schema := schemas.tables[table];
      var invalid := Validate(schema, table, change);
      if invalid.Some? {
        return Failure(invalid.value);
      }
      var key := change.KeyBytes(schema);
      if key.None? {
        return Failure(SchemaMismatch(table, "no key"));
      }
      var pre := if table in states then Lookup(states[table].rows, key.value) else None;
      var inverse := Invert(schema, change, pre);
      if inverse.None? {
        return Failure(SchemaMismatch(table, "not invertible"));
      }
      return Success(DeltaEntry(table, change, inverse.value));
    }

    /** An entry's record, built in a buffer of its own. */
    method BuildRecord(entry: DeltaEntry) returns (r: Result<Bytes, DeltaError>)
      ensures r == Encode(schemas, entry)
    {
      hide EncEntry, EncEnvelope;
      var payload := new Buffer();
      var ok := PushEntry(schemas, entry, payload);
      if !ok {
        return Failure(SchemaMismatch(entry.table, "entry failed to encode"));
      }
      assert payload.data == EncEntry(schemas, entry).value;
      if |payload.data| >= U64_LIMIT {
        return Failure(CapacityOverflow);
      }
      var rec := new Buffer();
      PushEnvelope(VERSION, schemas.fingerprint, payload.data, rec);
      assert rec.data == EncEnvelope(Envelope(VERSION, schemas.fingerprint, payload.data));
      return Success(rec.data);
    }

    /** Write a record and bring the entry index and the table into step with it. */
    method Commit(entry: DeltaEntry, rec: Bytes)
      requires Distinct() && entry.table in schemas.tables
      modifies this, backend, states.Values
      ensures Distinct() && fresh(states.Values - old(states.Values))
      ensures backend.bytes == old(backend.bytes) + rec
      ensures entries == old(entries) + [entry]
      ensures Tables() == PatchState(schemas, old(Tables()), entry.table, entry.change)
    {
      hide PatchState;
      backend.Append(rec);
      PatchTable(entry.table, entry.change);
      entries := entries + [entry];
    }

    /** Append a change: check it, compute its inverse against the current table, write the record,
        patch the table. A refused change leaves no trace. The laws it keeps come with it. */
    method Append(table: Name, change: Change) returns (r: Result<nat, DeltaError>)
      requires Valid()
      modifies this, backend, states.Values
      ensures Valid() && fresh(states.Values - old(states.Values))
      ensures match Journal.Append(schemas, old(View()), table, change)
              case Success(next) => r == Success(|old(entries)|) && View() == next
              case Failure(error) => r == Failure(error) && View() == old(View())
      ensures old(Authentic(schemas, View())) ==> Authentic(schemas, View())
    {
      hide Consistent, Authentic, Prepare, Encode, PatchState;
      ghost var before := View();
      var entry := Check(table, change);
      if entry.Failure? {
        return Failure(entry.error);
      }
      var rec := BuildRecord(entry.value);
      if rec.Failure? {
        return Failure(rec.error);
      }
      AppendConsistent(schemas, before, table, change);
      if Authentic(schemas, before) {
        AppendAuthentic(schemas, before, table, change);
      }
      Commit(entry.value, rec.value);
      assert Journal.Append(schemas, before, table, change) == Success(View());
      return Success(|entries| - 1);
    }

    /** Rewind by appending the stored inverses of entries `seqno..`, last entry first. On a log grown
        by appends it cannot fail, every table ends at its replay of the first `seqno` entries, and
        nothing already written changes. */
    method RewindTo(seqno: nat) returns (error: Option<DeltaError>)
      requires Valid()
      modifies this, backend, states.Values
      ensures Valid() && fresh(states.Values - old(states.Values))
      ensures Journal.RewindTo(schemas, old(View()), seqno) == Outcome(View(), error)
      ensures old(entries) <= entries && old(backend.bytes) <= backend.bytes
      ensures old(Authentic(schemas, View())) ==>
                && error.None?
                && Authentic(schemas, View())
                && forall t | t in schemas.tables ::
                     Some(RowsOf(View().states, t)) == Journal.StateAt(schemas, old(entries), t, seqno)
    {
      hide Consistent, Authentic, Journal.Append;
      ghost var before := View();
      var start := if seqno < |entries| then seqno else |entries|;
      var ops := Compensations(entries, start, |entries|);
      AppendAllExtends(schemas, before, ops);
      if Authentic(schemas, before) {
        RewindLaw(schemas, before, seqno);
      }
      var i := 0;
      while i < |ops|
        invariant i <= |ops|
        invariant Valid() && fresh(states.Values - old(states.Values))
        invariant AppendAll(schemas, View(), ops[i..]) == AppendAll(schemas, before, ops)
      {
        assert ops[i..][1..] == ops[i + 1..];
        var r := Append(ops[i].0, ops[i].1);
        if r.Failure? {
          return Some(r.error);
        }
        i := i + 1;
      }
      return None;
    }

    /** A table's state after the first `seqno` entries, replayed from nothing into a table of its
        own. */
    method StateAt(table: Name, seqno: nat) returns (r: Option<Table>)
      requires Valid()
      ensures r.Some? ==> fresh(r.value)
      ensures Journal.StateAt(schemas, entries, table, seqno) == if r.Some? then Some(r.value.rows) else None
      ensures table in schemas.tables && |entries| <= seqno ==>
                r.Some? && r.value.rows == RowsOf(Tables(), table)
    {
      hide Consistent, Patched;
      if table !in schemas.tables {
        return None;
      }
      var schema := schemas.tables[table];
      var t := new Table();
      var n := if seqno < |entries| then seqno else |entries|;
      for i := 0 to n
        invariant t.rows == Replay(schema, table, entries[..i])
      {
        assert entries[..i + 1][..i] == entries[..i];
        if entries[i].table == table {
          t.Patch(schema, entries[i].change);
        }
      }
      assert entries[..|entries|] == entries;
      CurrentIsReplay(schemas, View(), table);
      return Some(t);
    }
  }

  lemma {:induction false} CurrentIsReplay(schemas: SchemaSet, log: Log, table: Name)
    requires Consistent(schemas, log) && table in schemas.tables
    ensures RowsOf(log.states, table) == Replay(schemas.tables[table], table, log.entries)
  {
    RebuildIsReplay(schemas, log.entries, table);
  }

  lemma {:induction false} PatchStateIs(schemas: SchemaSet, was: States, now: States, table: Name, change: Change)
    requires table in schemas.tables && now.Keys == was.Keys + {table}
    requires now[table] == Patched(schemas.tables[table], RowsOf(was, table), change)
    requires forall t | t in now && t != table :: now[t] == RowsOf(was, t)
    ensures now == PatchState(schemas, was, table, change)
  {
    hide Patched;
  }

  lemma {:induction false} UnknownTableIgnored(schemas: SchemaSet, states: States, e: DeltaEntry)
    requires e.table !in schemas.tables
    ensures PatchState(schemas, states, e.table, e.change) == states
  {
  }

  // ------------------------------------------------------------- the scan loop

  /** A scan's result with `done` entries in front. */
  ghost function After(done: seq<DeltaEntry>, scan: Scan): Scan {
    match scan case Scanned(es, kept) => Scanned(done + es, kept) case Refused(error) => Refused(error)
  }

  lemma {:induction false} AfterLaws(done: seq<DeltaEntry>, scan: Scan)
    ensures After([], scan) == scan
    ensures scan.Refused? ==> After(done, scan) == scan
    ensures scan.Scanned? && scan.entries == [] ==> After(done, scan) == Scanned(done, scan.kept)
  {
    if scan.Scanned? {
      assert [] + scan.entries == scan.entries;
      assert done + [] == done;
    }
  }

  lemma {:induction false} AfterAfter(done: seq<DeltaEntry>, e: DeltaEntry, scan: Scan)
    ensures After(done, After([e], scan)) == After(done + [e], scan)
  {
    if scan.Scanned? {
      assert done + ([e] + scan.entries) == done + [e] + scan.entries;
    }
  }

  lemma {:induction false} ScanUnfold(schemas: SchemaSet, bytes: Bytes, offset: nat)
    requires offset < |bytes|
    ensures ScanFrom(schemas, bytes[offset..], offset) ==
      match DecEnvelope(bytes[offset..])
      case Fail(Torn) => Scanned([], offset)
      case Fail(Corrupt) => Refused(CorruptRecord(offset, "malformed envelope header"))
      case Ok(env, len) =>
        if env.version != VERSION then Refused(WrongVersion(offset, env.version))
        else if env.fingerprint != schemas.fingerprint then Refused(FingerprintMismatch(offset))
        else
          var entry := DecEntry(schemas, env.payload);
          if entry.None? then Refused(CorruptRecord(offset, "entry payload undecodable"))
          else After([entry.value], ScanFrom(schemas, bytes[offset + len..], offset + len))
  {
    hide DecEnvelope, DecEntry;
    var r := DecEnvelope(bytes[offset..]);
    if r.Ok? {
      assert bytes[offset..][r.used..] == bytes[offset + r.used..];
    }
  }
}
