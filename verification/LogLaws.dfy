/** Laws over whole runs of the log: what every event keeps, crash recovery, replay, and rewind. */
module LogLaws {
  import opened Wire
  import opened Codec
  import opened Values
  import opened Rows
  import opened Deltas
  import opened Journal
  import opened JournalLaws

  // ----------------------------------------------------------------- replay

  /** Two materializations with the same rows in every table (an absent table is an empty one). */
  ghost predicate Same(a: States, b: States) {
    forall t: Name :: RowsOf(a, t) == RowsOf(b, t)
  }

  ghost predicate AllKeyed(schemas: SchemaSet, states: States) {
    forall t | t in states :: t in schemas.tables && Keyed(schemas.tables[t], states[t])
  }

  lemma {:induction false} RebuildKeyed(schemas: SchemaSet, es: seq<DeltaEntry>)
    requires forall e :: e in es ==> TypedEntry(schemas, e)
    ensures AllKeyed(schemas, Rebuild(schemas, es))
  {
    hide Keyed, Patched;
    if es == [] {
    } else {
      var before, last := es[..|es| - 1], es[|es| - 1];
      RebuildKeyed(schemas, before);
      assert TypedEntry(schemas, last);
      EmptyKeyed(schemas.tables[last.table]);
      PatchedKeyed(schemas.tables[last.table], RowsOf(Rebuild(schemas, before), last.table), last.change);
    }
  }

  lemma {:induction false} EmptyKeyed(schema: Schema)
    ensures Keyed(schema, map[])
  {
  }

  /** The table-by-table replay agrees with the rebuild that interleaves them all: a table is
      materialized exactly when some entry names it, with exactly its own replay. */
  lemma {:induction false} RebuildIsReplay(schemas: SchemaSet, es: seq<DeltaEntry>, table: Name)
    ensures table in Rebuild(schemas, es) <==> table in schemas.tables && exists e :: e in es && e.table == table
    ensures table in schemas.tables ==>
              RowsOf(Rebuild(schemas, es), table) == Replay(schemas.tables[table], table, es)
  {
    hide Patched;
    if es == [] {
    } else {
      var before, last := es[..|es| - 1], es[|es| - 1];
      RebuildIsReplay(schemas, before, table);
      assert es == before + [last];
      assert forall e :: e in es <==> e in before || e == last;
    }
  }

  lemma {:induction false} RebuildSnoc(schemas: SchemaSet, es: seq<DeltaEntry>, e: DeltaEntry)
    ensures Rebuild(schemas, es + [e]) == PatchState(schemas, Rebuild(schemas, es), e.table, e.change)
  {
    assert (es + [e])[..|es|] == es;
  }

  // ------------------------------------------------------------- invariants

  /** The invariant of every opened log, whatever bytes it came from: the tables are the replay of
      the entries, and the bytes scan to exactly the entries. */
  ghost predicate Consistent(schemas: SchemaSet, log: Log) {
    && log.states == Rebuild(schemas, log.entries)
    && ScanFrom(schemas, log.bytes, 0) == Scanned(log.entries, |log.bytes|)
  }

  /** An entry `append` made: its inverse was computed against the state before it. */
  ghost predicate EntryLawful(schemas: SchemaSet, before: States, e: DeltaEntry) {
    && Recordable(schemas, e)
    && InverseAt(schemas.tables[e.table], RowsOf(before, e.table), e.change) == Some(e.inverse)
  }

  ghost predicate Lawful(schemas: SchemaSet, es: seq<DeltaEntry>) {
    forall i | 0 <= i < |es| :: EntryLawful(schemas, Rebuild(schemas, es[..i]), es[i])
  }

  /** The invariant of logs grown by appends: every stored inverse is right at its position and the
      bytes are the entries' records, one after the other. */
  ghost predicate Authentic(schemas: SchemaSet, log: Log) {
    && Lawful(schemas, log.entries)
    && log.bytes == Records(schemas, log.entries)
    && log.states == Rebuild(schemas, log.entries)
  }

  lemma {:induction false} LawfulTyped(schemas: SchemaSet, es: seq<DeltaEntry>)
    requires Lawful(schemas, es)
    ensures forall e :: e in es ==> Recordable(schemas, e) && TypedEntry(schemas, e)
  {
    forall e | e in es
      ensures Recordable(schemas, e) && TypedEntry(schemas, e)
    {
      var i :| 0 <= i < |es| && es[i] == e;
      assert EntryLawful(schemas, Rebuild(schemas, es[..i]), es[i]);
    }
  }

  lemma {:induction false} LawfulPrefix(schemas: SchemaSet, es: seq<DeltaEntry>, m: nat)
    requires Lawful(schemas, es) && m <= |es|
    ensures Lawful(schemas, es[..m])
  {
    hide EntryLawful;
    forall i | 0 <= i < m
      ensures EntryLawful(schemas, Rebuild(schemas, es[..m][..i]), es[..m][i])
    {
      assert es[..m][..i] == es[..i];
    }
  }

  lemma {:induction false} LawfulSnoc(schemas: SchemaSet, es: seq<DeltaEntry>, e: DeltaEntry)
    requires Lawful(schemas, es) && EntryLawful(schemas, Rebuild(schemas, es), e)
    ensures Lawful(schemas, es + [e])
  {
    hide EntryLawful;
    forall i | 0 <= i < |es| + 1
      ensures EntryLawful(schemas, Rebuild(schemas, (es + [e])[..i]), (es + [e])[i])
    {
      assert (es + [e])[..i] == es[..i];
      assert es[..|es|] == es;
    }
  }

  // ----------------------------------------------------------------- append

  /** When an append goes through: the table is known and the change fits its keyed schema, and the
      record fits in memory. The later refusals in the code never fire. */
  lemma {:induction false} AppendOutcome(schemas: SchemaSet, log: Log, table: Name, change: Change)
    requires AllKeyed(schemas, log.states)
    ensures var r := Append(schemas, log, table, change);
      && (r.Success? || r.error == CapacityOverflow <==>
            table in schemas.tables && WellTyped(schemas.tables[table], change))
      && (r.Success? ==> EntryLawful(schemas, log.states, r.value.entries[|log.entries|]))
  {
    hide Patched, Keyed, EncChange, Invert, EncValue, PatchState, Record, EncName;
    if table in schemas.tables && WellTyped(schemas.tables[table], change) {
      var schema, rows := schemas.tables[table], RowsOf(log.states, table);
      EmptyKeyed(schema);
      InvertCorrect(schema, rows, change);
      var inverse := InverseAt(schema, rows, change).value;
      ChangeFaithful(schema, change, []);
      ChangeFaithful(schema, inverse, []);
    }
  }

  /** Which refusal it is: an unknown table, a change that does not fit its keyed schema, or a record no
      vector can hold, in that order. */
  lemma {:induction false} AppendRefusal(schemas: SchemaSet, log: Log, table: Name, change: Change)
    requires AllKeyed(schemas, log.states) && Append(schemas, log, table, change).Failure?
    ensures match Append(schemas, log, table, change).error
      case UnknownTable(t) => t == table && table !in schemas.tables
      case SchemaMismatch(t, _) =>
        t == table && table in schemas.tables && !WellTyped(schemas.tables[table], change)
      case CapacityOverflow => table in schemas.tables && WellTyped(schemas.tables[table], change)
      case _ => false
  {
    AppendOutcome(schemas, log, table, change);
    hide Patched, Keyed, EncChange, Invert, EncValue, PatchState, Record, EncName, AllKeyed, WellTyped;
  }

  lemma {:induction false} AppendConsistent(schemas: SchemaSet, log: Log, table: Name, change: Change)
    requires Consistent(schemas, log) && Append(schemas, log, table, change).Success?
    ensures Consistent(schemas, Append(schemas, log, table, change).value)
  {
    hide Rebuild, ScanFrom, Record, Recordable;
    var next := Append(schemas, log, table, change).value;
    var e := next.entries[|log.entries|];
    AppendShape(schemas, log, table, change);
    RebuildKeyed(schemas, log.entries);
    AppendOutcome(schemas, log, table, change);
    hide Append;
    RebuildSnoc(schemas, log.entries, e);
    ScanAppended(schemas, log.bytes, e);
  }

  lemma {:induction false} AppendShape(schemas: SchemaSet, log: Log, table: Name, change: Change)
    requires Append(schemas, log, table, change).Success?
    ensures var next := Append(schemas, log, table, change).value;
      && |next.entries| == |log.entries| + 1
      && var e := next.entries[|log.entries|];
      && e.table == table && e.change == change
      && next.entries == log.entries + [e]
      && next.bytes == log.bytes + Record(schemas, e)
      && next.states == PatchState(schemas, log.states, table, change)
      && table in schemas.tables
  {
    hide PatchState, Encode, Prepare;
  }

  lemma {:induction false} AppendAuthentic(schemas: SchemaSet, log: Log, table: Name, change: Change)
    requires Authentic(schemas, log) && Append(schemas, log, table, change).Success?
    ensures Authentic(schemas, Append(schemas, log, table, change).value)
  {
    hide Rebuild, Records, Record, EntryLawful;
    var next := Append(schemas, log, table, change).value;
    var e := next.entries[|log.entries|];
    AppendShape(schemas, log, table, change);
    LawfulTyped(schemas, log.entries);
    RebuildKeyed(schemas, log.entries);
    AppendOutcome(schemas, log, table, change);
    hide Append, Lawful;
    LawfulSnoc(schemas, log.entries, e);
    RebuildSnoc(schemas, log.entries, e);
    RecordsSnoc(schemas, log.entries, e);
  }

  // ---------------------------------------------------------- crash recovery

  /** Crash recovery of a log grown by appends: cut anywhere, its bytes open without error to
      exactly the entries whose records survive, truncated at the last record boundary, and to a log
      as authentic as the one that was lost. */
  lemma {:induction false} CrashRecovery(schemas: SchemaSet, log: Log, cut: nat)
    requires Authentic(schemas, log)
    ensures var m := Survivors(schemas, log.entries, cut);
      var r := Reopened(schemas, log, cut);
      && r.Success?
      && r.value.entries == log.entries[..m]
      && r.value.bytes == Records(schemas, log.entries[..m]) <= log.bytes
      && Authentic(schemas, r.value)
  {
    hide Rebuild, Records, ScanFrom, Lawful;
    var es := log.entries;
    var m := Survivors(schemas, es, cut);
    var at := if cut < |log.bytes| then cut else |log.bytes|;
    LawfulTyped(schemas, es);
    SurvivorsExact(schemas, es, cut);
    if cut >= |log.bytes| {
      SurvivorsAll(schemas, es, cut);
      SurvivorsAll(schemas, es, at);
      assert es[..m] == es;
    }
    ScanCut(schemas, es, at, 0);
    assert log.bytes[..|log.bytes|] == log.bytes;
    RecordsPrefix(schemas, es, m);
    LawfulPrefix(schemas, es, m);
  }

  /** Journal round trip: reopening the whole bytes gives the same log, entries, inverses, tables
      and all. */
  lemma {:induction false} ReopenIdentity(schemas: SchemaSet, log: Log)
    requires Authentic(schemas, log)
    ensures Open(schemas, log.bytes) == Success(log)
    ensures Consistent(schemas, log)
  {
    hide Rebuild, Records, ScanFrom, Lawful;
    LawfulTyped(schemas, log.entries);
    SurvivorsAll(schemas, log.entries, |log.bytes|);
    ScanCut(schemas, log.entries, |log.bytes|, 0);
    assert log.bytes[..|log.bytes|] == log.bytes;
    assert log.entries[..|log.entries|] == log.entries;
  }

  /** After recovery an append lands behind the survivors, and the journal reopens as that prefix
      plus the new entry. */
  lemma {:induction false} AppendAfterCrash(schemas: SchemaSet, log: Log, cut: nat, table: Name, change: Change)
    requires Authentic(schemas, log)
    requires Reopened(schemas, log, cut).Success? ==>
               Append(schemas, Reopened(schemas, log, cut).value, table, change).Success?
    ensures Reopened(schemas, log, cut).Success?
    ensures var m := Survivors(schemas, log.entries, cut);
      var next := Append(schemas, Reopened(schemas, log, cut).value, table, change).value;
      && Open(schemas, next.bytes) == Success(next)
      && |next.entries| == m + 1
      && next.entries[..m] == log.entries[..m]
      && next.entries[m].table == table && next.entries[m].change == change
  {
    CrashRecovery(schemas, log, cut);
    var recovered := Reopened(schemas, log, cut).value;
    hide Append, Authentic, Reopened;
    AppendShape(schemas, recovered, table, change);
    AppendAuthentic(schemas, recovered, table, change);
    ReopenIdentity(schemas, Append(schemas, recovered, table, change).value);
  }

  /** Opening arbitrary bytes, when it succeeds: the log is consistent, and its bytes are a prefix of
      the input that opens again to the very same log. */
  lemma {:induction false} OpenConsistent(schemas: SchemaSet, bytes: Bytes)
    requires Open(schemas, bytes).Success?
    ensures var log := Open(schemas, bytes).value;
      && Consistent(schemas, log)
      && log.bytes <= bytes
      && Open(schemas, log.bytes) == Success(log)
  {
    hide ScanFrom, Rebuild;
    ScanKept(schemas, bytes);
    var log := Open(schemas, bytes).value;
    assert log.bytes[..|log.bytes|] == log.bytes;
  }

  // ----------------------------------------------------------------- rewind

  /** The stored inverse of entry `i` is right: the table has a key, and patching the inverse onto the
      state after the entry gives the state before it. */
  ghost predicate Undoes(schemas: SchemaSet, es: seq<DeltaEntry>, i: nat)
    requires i < |es|
  {
    && es[i].table in schemas.tables
    && var schema := schemas.tables[es[i].table];
    && WellTyped(schema, es[i].inverse)
    && Patched(schema, RowsOf(Rebuild(schemas, es[..i + 1]), es[i].table), es[i].inverse)
         == RowsOf(Rebuild(schemas, es[..i]), es[i].table)
  }

  lemma {:induction false} PatchStateRows(schemas: SchemaSet, states: States, table: Name, change: Change)
    requires table in schemas.tables
    ensures var next := PatchState(schemas, states, table, change);
      && RowsOf(next, table) == Patched(schemas.tables[table], RowsOf(states, table), change)
      && forall t: Name :: t != table ==> RowsOf(next, t) == RowsOf(states, t)
  {
    hide Patched;
  }

  /** What a lawful entry says about the table it changed, before and after. */
  lemma {:induction false} LawfulAt(schemas: SchemaSet, es: seq<DeltaEntry>, i: nat)
    requires Lawful(schemas, es) && i < |es|
    ensures var e, before := es[i], Rebuild(schemas, es[..i]);
      && Recordable(schemas, e)
      && var schema, rows := schemas.tables[e.table], RowsOf(before, e.table);
      && Keyed(schema, rows)
      && InverseAt(schema, rows, e.change) == Some(e.inverse)
      && Rebuild(schemas, es[..i + 1]) == PatchState(schemas, before, e.table, e.change)
  {
    hide Rebuild, Keyed, InverseAt, Patched, PatchState, WellTyped, EncEntry;
    var e := es[i];
    assert EntryLawful(schemas, Rebuild(schemas, es[..i]), e);
    LawfulPrefix(schemas, es, i);
    LawfulKeyed(schemas, es[..i]);
    hide Lawful;
    RebuildSnoc(schemas, es[..i], e);
    assert es[..i + 1] == es[..i] + [e];
    EmptyKeyed(schemas.tables[e.table]);
  }

  lemma {:induction false} LawfulKeyed(schemas: SchemaSet, es: seq<DeltaEntry>)
    requires Lawful(schemas, es)
    ensures AllKeyed(schemas, Rebuild(schemas, es))
  {
    hide Recordable, TypedEntry, AllKeyed, Rebuild, Lawful;
    LawfulTyped(schemas, es);
    RebuildKeyed(schemas, es);
  }

  /** Appends compute inverses that are right. */
  lemma {:induction false} LawfulUndoes(schemas: SchemaSet, es: seq<DeltaEntry>, i: nat)
    requires Lawful(schemas, es) && i < |es|
    ensures Undoes(schemas, es, i)
  {
    hide Keyed, Patched, InverseAt, Rebuild, PatchState, RowsOf, EncEntry, Lawful;
    LawfulAt(schemas, es, i);
    var e, before := es[i], Rebuild(schemas, es[..i]);
    PatchStateRows(schemas, before, e.table, e.change);
    InvertCorrect(schemas.tables[e.table], RowsOf(before, e.table), e.change);
  }

  /** Compensating a lawful entry writes a record exactly as long as the entry's own, so it fits. */
  lemma {:induction false} CompensationFits(schemas: SchemaSet, es: seq<DeltaEntry>, i: nat, cur: Log)
    requires Lawful(schemas, es) && i < |es|
    requires Same(cur.states, Rebuild(schemas, es[..i + 1]))
    ensures var r := Append(schemas, cur, es[i].table, es[i].inverse);
      r.Success? && |r.value.bytes| == |cur.bytes| + |Record(schemas, es[i])|
  {
    hide Record, Keyed, Patched, InverseAt, Rebuild, PatchState, RowsOf, EncEntry, Lawful, Append;
    LawfulAt(schemas, es, i);
    var e, before := es[i], Rebuild(schemas, es[..i]);
    var schema, rows := schemas.tables[e.table], RowsOf(before, e.table);
    PatchStateRows(schemas, before, e.table, e.change);
    InvertTwice(schema, rows, e.change);
    assert RowsOf(cur.states, e.table) == Patched(schema, rows, e.change);
    CompensationPayload(schemas, cur, e, InverseAt(schema, RowsOf(cur.states, e.table), e.inverse).value);
  }

  lemma {:induction false} CompensationPayload(schemas: SchemaSet, cur: Log, e: DeltaEntry, again: Change)
    requires Recordable(schemas, e)
    requires InverseAt(schemas.tables[e.table], RowsOf(cur.states, e.table), e.inverse) == Some(again)
    requires again == e.change || (again.Update? && e.change.Insert? && again.row == e.change.row)
             || (again.Insert? && e.change.Update? && again.row == e.change.row)
    ensures var r := Append(schemas, cur, e.table, e.inverse);
      r.Success? && |r.value.bytes| == |cur.bytes| + |Record(schemas, e)|
  {
    var schema := schemas.tables[e.table];
    assert EncChange(schema, again).Some? == EncChange(schema, e.change).Some?;
    assert |EncVarnat(again.Tag())| == |EncVarnat(e.change.Tag())| == 1;
    hide EncRow, EncKey, EncVarnat, Patched, PatchState, EncName;
    assert |EncChange(schema, again).value| == |EncChange(schema, e.change).value|;
    hide EncChange;
    var written := DeltaEntry(e.table, e.inverse, again);
    assert |EncEntry(schemas, written).value| == |EncEntry(schemas, e).value|;
    hide EncEntry;
    assert |Record(schemas, written)| == |Record(schemas, e)|;
    assert Append(schemas, cur, e.table, e.inverse).value.bytes == cur.bytes + Record(schemas, written);
  }

  /** One compensation takes the tables back over one entry, unless no record can hold it. */
  lemma {:induction false} UndoStep(schemas: SchemaSet, es: seq<DeltaEntry>, i: nat, cur: Log)
    requires i < |es| && Undoes(schemas, es, i)
    requires Same(cur.states, Rebuild(schemas, es[..i + 1])) && AllKeyed(schemas, cur.states)
    ensures var r := Append(schemas, cur, es[i].table, es[i].inverse);
      if r.Failure? then r.error == CapacityOverflow
      else Same(r.value.states, Rebuild(schemas, es[..i])) && AllKeyed(schemas, r.value.states)
  {
    hide Rebuild, Patched, PatchState, RowsOf, AllKeyed, Append, WellTyped;
    var e := es[i];
    AppendOutcome(schemas, cur, e.table, e.inverse);
    var r := Append(schemas, cur, e.table, e.inverse);
    if r.Success? {
      AppendShape(schemas, cur, e.table, e.inverse);
      PatchStateKeyed(schemas, cur.states, e.table, e.inverse);
      PatchStateRows(schemas, cur.states, e.table, e.inverse);
      RebuildSnoc(schemas, es[..i], e);
      assert es[..i + 1] == es[..i] + [e];
      PatchStateRows(schemas, Rebuild(schemas, es[..i]), e.table, e.change);
    }
  }

  lemma {:induction false} PatchStateKeyed(schemas: SchemaSet, states: States, table: Name, change: Change)
    requires AllKeyed(schemas, states)
    requires table in schemas.tables ==> WellTyped(schemas.tables[table], change)
    ensures AllKeyed(schemas, PatchState(schemas, states, table, change))
  {
    hide Keyed, Patched;
    if table in schemas.tables {
      EmptyKeyed(schemas.tables[table]);
      PatchedKeyed(schemas.tables[table], RowsOf(states, table), change);
    }
  }

  /** Compensations `hi-1, ..., lo` take the tables from the state after `hi` entries to the state
      after `lo`; they go through when the inverses come from appends, or else unless some record
      does not fit. */
  lemma {:induction false} Compensate(schemas: SchemaSet, es: seq<DeltaEntry>, lo: nat, hi: nat, cur: Log)
    requires lo <= hi <= |es|
    requires forall i | lo <= i < hi :: Undoes(schemas, es, i)
    requires Same(cur.states, Rebuild(schemas, es[..hi])) && AllKeyed(schemas, cur.states)
    requires Lawful(schemas, es) ||
             AppendAll(schemas, cur, Compensations(es, lo, hi)).error != Some(CapacityOverflow)
    ensures var r := AppendAll(schemas, cur, Compensations(es, lo, hi));
      && r.error.None?
      && Same(r.log.states, Rebuild(schemas, es[..lo]))
      && AllKeyed(schemas, r.log.states)
    decreases hi
  {
    hide Rebuild, Same, AllKeyed, Lawful, Undoes, Append;
    if lo == hi {
    } else {
      assert es[..hi - 1 + 1] == es[..hi];
      assert Undoes(schemas, es, hi - 1);
      UndoStep(schemas, es, hi - 1, cur);
      if Lawful(schemas, es) {
        CompensationFits(schemas, es, hi - 1, cur);
      }
      CompensationsHead(es, lo, hi);
      var r := Append(schemas, cur, es[hi - 1].table, es[hi - 1].inverse);
      assert r.Success?;
      Compensate(schemas, es, lo, hi - 1, r.value);
    }
  }

  lemma {:induction false} CompensationsHead(es: seq<DeltaEntry>, lo: nat, hi: nat)
    requires lo < hi <= |es|
    ensures var ops := Compensations(es, lo, hi);
      ops != [] && ops[0] == (es[hi - 1].table, es[hi - 1].inverse) && ops[1..] == Compensations(es, lo, hi - 1)
  {
  }

  /** Appends only ever add: the old entries and bytes stay a prefix, one entry per operation. */
  lemma {:induction false} AppendAllExtends(schemas: SchemaSet, log: Log, ops: seq<Op>)
    ensures var r := AppendAll(schemas, log, ops);
      && log.entries <= r.log.entries
      && log.bytes <= r.log.bytes
      && (r.error.None? ==> |r.log.entries| == |log.entries| + |ops|)
      && (Authentic(schemas, log) ==> Authentic(schemas, r.log))
      && (Consistent(schemas, log) ==> Consistent(schemas, r.log))
    decreases |ops|
  {
    hide Append, Authentic, Consistent;
    if ops == [] {
    } else {
      var r := Append(schemas, log, ops[0].0, ops[0].1);
      if r.Success? {
        AppendShape(schemas, log, ops[0].0, ops[0].1);
        if Authentic(schemas, log) { AppendAuthentic(schemas, log, ops[0].0, ops[0].1); }
        if Consistent(schemas, log) { AppendConsistent(schemas, log, ops[0].0, ops[0].1); }
        AppendAllExtends(schemas, r.value, ops[1..]);
      }
    }
  }

  /** The rewind law. On a log grown by appends, over any interleaving of tables, rewinding never
      fails; every table is back at its replay of the first `seqno` entries; the old entries and
      bytes are an exact prefix of the new; and the log is still one grown by appends. */
  lemma {:induction false} RewindLaw(schemas: SchemaSet, log: Log, seqno: nat)
    requires Authentic(schemas, log)
    ensures var r := RewindTo(schemas, log, seqno);
      var start := if seqno < |log.entries| then seqno else |log.entries|;
      && r.error.None?
      && Authentic(schemas, r.log)
      && log.entries <= r.log.entries && log.bytes <= r.log.bytes
      && |r.log.entries| == |log.entries| + (|log.entries| - start)
      && (forall t | t in schemas.tables ::
            Some(RowsOf(r.log.states, t)) == StateAt(schemas, log.entries, t, seqno))
  {
    hide AppendAll, Compensations, Authentic, StateAt;
    var es := log.entries;
    var start := if seqno < |es| then seqno else |es|;
    AppendAllExtends(schemas, log, Compensations(es, start, |es|));
    RewindStates(schemas, log, seqno);
  }

  /** What a rewind writes: behind the old entries one entry per compensated one, last first, each the
      stored inverse of the entry it compensates, on its table. */
  lemma {:induction false} RewindWrites(schemas: SchemaSet, log: Log, seqno: nat, j: nat)
    requires RewindTo(schemas, log, seqno).error.None? && seqno + j < |log.entries|
    ensures var es, after := log.entries, RewindTo(schemas, log, seqno).log.entries;
      && |after| == |es| + (|es| - seqno)
      && after[..|es|] == es
      && after[|es| + j].table == es[|es| - 1 - j].table
      && after[|es| + j].change == es[|es| - 1 - j].inverse
  {
    hide AppendAll, Compensations;
    var ops := Compensations(log.entries, seqno, |log.entries|);
    AppendAllWrites(schemas, log, ops, j);
    CompensationAt(log.entries, seqno, |log.entries|, j);
    AppendAllExtends(schemas, log, ops);
  }

  lemma {:induction false} AppendAllWrites(schemas: SchemaSet, log: Log, ops: seq<Op>, j: nat)
    requires AppendAll(schemas, log, ops).error.None? && j < |ops|
    ensures var after := AppendAll(schemas, log, ops).log.entries;
      && |after| == |log.entries| + |ops|
      && (after[|log.entries| + j].table, after[|log.entries| + j].change) == ops[j]
    decreases |ops|
  {
    hide Append, Consistent, Authentic, PatchState, Record;
    var next := Append(schemas, log, ops[0].0, ops[0].1).value;
    AppendShape(schemas, log, ops[0].0, ops[0].1);
    AppendAllExtends(schemas, next, ops[1..]);
    if j == 0 {
      assert AppendAll(schemas, log, ops).log.entries[|log.entries|] == next.entries[|log.entries|];
    } else {
      AppendAllWrites(schemas, next, ops[1..], j - 1);
    }
  }

  lemma {:induction false} CompensationAt(es: seq<DeltaEntry>, lo: nat, hi: nat, j: nat)
    requires lo + j < hi <= |es|
    ensures Compensations(es, lo, hi)[j] == (es[hi - 1 - j].table, es[hi - 1 - j].inverse)
    decreases j
  {
    if j == 0 {
    } else {
      CompensationAt(es, lo, hi - 1, j - 1);
    }
  }

  lemma {:induction false} RewindStates(schemas: SchemaSet, log: Log, seqno: nat)
    requires Authentic(schemas, log)
    ensures var r := RewindTo(schemas, log, seqno);
      && r.error.None?
      && forall t | t in schemas.tables ::
           Some(RowsOf(r.log.states, t)) == StateAt(schemas, log.entries, t, seqno)
  {
    hide Rebuild, AllKeyed, Undoes, Lawful, Records, AppendAll, Compensations;
    var es := log.entries;
    var start := if seqno < |es| then seqno else |es|;
    LawfulKeyed(schemas, es);
    forall i | start <= i < |es|
      ensures Undoes(schemas, es, i)
    {
      LawfulUndoes(schemas, es, i);
    }
    assert es[..|es|] == es;
    Compensate(schemas, es, start, |es|, log);
    forall t | t in schemas.tables
      ensures RowsOf(RewindTo(schemas, log, seqno).log.states, t) == Replay(schemas.tables[t], t, es[..start])
    {
      RebuildIsReplay(schemas, es[..start], t);
    }
  }

  /** A second rewind, to the length before the first, restores the tables the first one left. */
  lemma {:induction false} RewindUndone(schemas: SchemaSet, log: Log, seqno: nat)
    requires Authentic(schemas, log)
    ensures var there := RewindTo(schemas, log, seqno).log;
      var back := RewindTo(schemas, there, |log.entries|);
      && back.error.None?
      && (forall t | t in schemas.tables :: RowsOf(back.log.states, t) == RowsOf(log.states, t))
  {
    hide RewindTo, Authentic, StateAt;
    var there := RewindTo(schemas, log, seqno).log;
    var n := |log.entries|;
    RewindLaw(schemas, log, seqno);
    RewindLaw(schemas, there, n);
    AuthenticReplays(schemas, log);
    forall t | t in schemas.tables
      ensures StateAt(schemas, there.entries, t, n) == StateAt(schemas, log.entries, t, n)
    {
      StateAtPrefix(schemas, log.entries, there.entries, t);
    }
  }

  lemma {:induction false} StateAtPrefix(schemas: SchemaSet, es: seq<DeltaEntry>, more: seq<DeltaEntry>, table: Name)
    requires es <= more
    ensures StateAt(schemas, more, table, |es|) == StateAt(schemas, es, table, |es|)
  {
    assert more[..|es|] == es;
    assert more[..|more|] == more;
  }

  /** The rewind law survives the byte boundary: a log reopened from any cut of the bytes rewinds just
      as well. */
  lemma {:induction false} RewindAfterCrash(schemas: SchemaSet, log: Log, cut: nat, seqno: nat)
    requires Authentic(schemas, log)
    ensures Reopened(schemas, log, cut).Success?
    ensures var recovered := Reopened(schemas, log, cut).value;
      var r := RewindTo(schemas, recovered, seqno);
      && r.error.None?
      && (forall t | t in schemas.tables ::
            Some(RowsOf(r.log.states, t)) ==
              StateAt(schemas, log.entries[..Survivors(schemas, log.entries, cut)], t, seqno))
  {
    hide Reopened, RewindTo, Authentic;
    CrashRecovery(schemas, log, cut);
    RewindLaw(schemas, Reopened(schemas, log, cut).value, seqno);
  }

  // ------------------------------------------------ rewinding arbitrary journals

  lemma {:induction false} AppendAllSplit(schemas: SchemaSet, log: Log, ops: seq<Op>, last: Op)
    ensures var r := AppendAll(schemas, log, ops);
      AppendAll(schemas, log, ops + [last]) == if r.error.Some? then r else AppendAll(schemas, r.log, [last])
    decreases |ops|
  {
    hide Append;
    if ops == [] {
      assert [] + [last] == [last];
    } else {
      assert (ops + [last])[1..] == ops[1..] + [last];
      var r := Append(schemas, log, ops[0].0, ops[0].1);
      if r.Success? {
        AppendAllSplit(schemas, r.value, ops[1..], last);
      }
    }
  }

  lemma {:induction false} CompensationsSplit(es: seq<DeltaEntry>, lo: nat, hi: nat)
    requires lo < hi <= |es|
    ensures Compensations(es, lo, hi) == Compensations(es, lo + 1, hi) + [(es[lo].table, es[lo].inverse)]
    decreases hi
  {
    if lo + 1 == hi {
    } else {
      CompensationsSplit(es, lo, hi - 1);
    }
  }

  /** A rewind to `seqno` that works: no error, and the tables are back at the state after the first
      `seqno` entries. */
  ghost predicate RewindWorks(schemas: SchemaSet, log: Log, seqno: nat) {
    && RewindTo(schemas, log, seqno).error.None?
    && Same(RewindTo(schemas, log, seqno).log.states,
            Rebuild(schemas, log.entries[..if seqno < |log.entries| then seqno else |log.entries|]))
  }

  /** Opening does not recheck stored inverses, so a journal of arbitrary decodable bytes need not
      rewind. It does, to every position, exactly when each stored inverse is right at its own:
      typed under a keyed schema, and taking the state after its entry to the state before it. The
      bound on the bytes is the largest size a byte vector can have. */
  lemma {:induction false} RewindIff(schemas: SchemaSet, log: Log)
    requires Consistent(schemas, log) && |log.bytes| < U64_LIMIT / 2
    ensures (forall seqno: nat :: RewindWorks(schemas, log, seqno)) <==>
            (forall i | 0 <= i < |log.entries| :: Undoes(schemas, log.entries, i))
  {
    var es := log.entries;
    RebuildKeyed(schemas, es);
    assert es[..|es|] == es;
    hide RewindWorks, Undoes, Consistent, RewindTo, Rebuild, AllKeyed;
    if forall i | 0 <= i < |es| :: Undoes(schemas, es, i) {
      forall seqno: nat
        ensures RewindWorks(schemas, log, seqno)
      {
        UndoesRewinds(schemas, log, seqno);
      }
    }
    if forall seqno: nat :: RewindWorks(schemas, log, seqno) {
      forall i | 0 <= i < |es|
        ensures Undoes(schemas, es, i)
      {
        RewindUndoes(schemas, log, i);
      }
    }
  }

  /** Every row of the tables encodes, tag included, in at most `size` bytes. */
  ghost predicate RowsFit(schemas: SchemaSet, states: States, size: nat) {
    forall t, k | t in states && k in states[t] ::
      t in schemas.tables && 1 + |EncRow(schemas.tables[t], states[t][k])| <= size
  }

  ghost predicate ChangeFits(schema: Schema, change: Change, size: nat) {
    EncChange(schema, change).Some? ==> |EncChange(schema, change).value| <= size
  }

  /** Table name and change together take at most `size` bytes. */
  ghost predicate OpFits(schemas: SchemaSet, op: Op, size: nat) {
    op.0 in schemas.tables ==>
      |EncName(op.0)| <= size && ChangeFits(schemas.tables[op.0], op.1, size - |EncName(op.0)|)
  }

  lemma {:induction false} ChangeSize(schema: Schema, change: Change)
    ensures !change.Remove? ==>
              EncChange(schema, change).Some? &&
              |EncChange(schema, change).value| == 1 + |EncRow(schema, change.row)|
    ensures change.Remove? && EncChange(schema, change).Some? ==>
              EncKey(schema, change.key).Some? &&
              |EncChange(schema, change).value| == 1 + |EncKey(schema, change.key).value|
  {
    assert |EncVarnat(change.Tag())| == 1;
    hide EncRow, EncKey, EncVarnat;
  }

  lemma {:induction false} PatchFits(schemas: SchemaSet, states: States, table: Name, change: Change, size: nat)
    requires RowsFit(schemas, states, size)
    requires table in schemas.tables ==> ChangeFits(schemas.tables[table], change, size)
    ensures RowsFit(schemas, PatchState(schemas, states, table, change), size)
  {
    hide EncChange, EncRow, Change.KeyBytes;
    if table in schemas.tables {
      ChangeSize(schemas.tables[table], change);
    }
  }

  /** An inverse is made of rows that are there already, or of the change's own key. */
  lemma {:induction false} InverseFits(schema: Schema, change: Change, pre: Option<Row>, size: nat)
    requires ChangeFits(schema, change, size)
    requires pre.Some? ==> 1 + |EncRow(schema, pre.value)| <= size
    ensures Invert(schema, change, pre).Some? ==> ChangeFits(schema, Invert(schema, change, pre).value, size)
  {
    hide EncChange, EncRow, EncKey, Change.KeyBytes;
    var inverse := Invert(schema, change, pre);
    if inverse.Some? {
      ChangeSize(schema, change);
      ChangeSize(schema, inverse.value);
      if pre.None? && !change.Remove? {
        KeyFits(schema, change.row);
      }
    }
  }

  lemma {:induction false} KeyFits(schema: Schema, row: Row)
    ensures row.Key().Some? && EncKey(schema, row.Key().value).Some? ==>
              |EncKey(schema, row.Key().value).value| <= |EncRow(schema, row)|
  {
  }

  /** Appending changes of bounded size to tables of bounded rows never writes a record too large for
      a vector: it holds a name, a change and an inverse, at most twice the bound together. */
  lemma {:induction false} AppendFits(schemas: SchemaSet, log: Log, op: Op, size: nat)
    requires 2 * size < U64_LIMIT && RowsFit(schemas, log.states, size) && OpFits(schemas, op, size)
    ensures var r := Append(schemas, log, op.0, op.1);
      if r.Failure? then r.error != CapacityOverflow else RowsFit(schemas, r.value.states, size)
  {
    hide EncChange, EncRow, EncName, EncEnvelope, Invert, Change.KeyBytes, Patched, PatchState;
    if op.0 in schemas.tables {
      var schema, rows := schemas.tables[op.0], RowsOf(log.states, op.0);
      PatchFits(schemas, log.states, op.0, op.1, size);
      var key := op.1.KeyBytes(schema);
      if key.Some? {
        InverseFits(schema, op.1, Lookup(rows, key.value), size);
      }
    }
  }

  lemma {:induction false} NoOverflow(schemas: SchemaSet, log: Log, ops: seq<Op>, size: nat)
    requires 2 * size < U64_LIMIT && RowsFit(schemas, log.states, size)
    requires forall op | op in ops :: OpFits(schemas, op, size)
    ensures AppendAll(schemas, log, ops).error != Some(CapacityOverflow)
    decreases |ops|
  {
    hide Append, RowsFit, OpFits;
    if ops == [] {
    } else {
      AppendFits(schemas, log, ops[0], size);
      var r := Append(schemas, log, ops[0].0, ops[0].1);
      if r.Success? {
        NoOverflow(schemas, r.value, ops[1..], size);
      }
    }
  }

  lemma {:induction false} RebuildFits(schemas: SchemaSet, es: seq<DeltaEntry>, size: nat)
    requires forall e | e in es :: e.table in schemas.tables && ChangeFits(schemas.tables[e.table], e.change, size)
    ensures RowsFit(schemas, Rebuild(schemas, es), size)
  {
    if es == [] {
    } else {
      hide RowsFit, ChangeFits, PatchState;
      var last := es[|es| - 1];
      RebuildFits(schemas, es[..|es| - 1], size);
      assert last in es;
      PatchFits(schemas, Rebuild(schemas, es[..|es| - 1]), last.table, last.change, size);
    }
  }

  /** Compensating any journal shorter than half the limit stays within it: what a compensation writes
      was in the journal already. */
  lemma {:induction false} RewindFits(schemas: SchemaSet, log: Log, lo: nat)
    requires Consistent(schemas, log) && |log.bytes| < U64_LIMIT / 2 && lo <= |log.entries|
    ensures AppendAll(schemas, log, Compensations(log.entries, lo, |log.entries|)).error != Some(CapacityOverflow)
  {
    hide AppendAll, Compensations, Rebuild, RowsFit, ScanFrom, EncChange, EncName;
    var es, size := log.entries, |log.bytes|;
    ScanFits(schemas, log.bytes, 0);
    forall e | e in es
      ensures e.table in schemas.tables && ChangeFits(schemas.tables[e.table], e.change, size)
      ensures OpFits(schemas, (e.table, e.inverse), size)
    {
      assert EncEntry(schemas, e).Some? && |EncEntry(schemas, e).value| <= size;
    }
    RebuildFits(schemas, es, size);
    forall op | op in Compensations(es, lo, |es|)
      ensures OpFits(schemas, op, size)
    {
      CompensationsFrom(es, lo, |es|, op);
    }
    NoOverflow(schemas, log, Compensations(es, lo, |es|), size);
  }

  lemma {:induction false} CompensationsFrom(es: seq<DeltaEntry>, lo: nat, hi: nat, op: Op)
    requires lo <= hi <= |es| && op in Compensations(es, lo, hi)
    ensures exists e | e in es :: op == (e.table, e.inverse)
    decreases hi
  {
    CompensationsHead(es, lo, hi);
    var e := es[hi - 1];
    if op == (e.table, e.inverse) {
      assert e in es;
    } else {
      assert Compensations(es, lo, hi) == [(e.table, e.inverse)] + Compensations(es, lo, hi - 1);
      CompensationsFrom(es, lo, hi - 1, op);
    }
  }

  lemma {:induction false} UndoesRewinds(schemas: SchemaSet, log: Log, seqno: nat)
    requires Consistent(schemas, log) && |log.bytes| < U64_LIMIT / 2 && AllKeyed(schemas, log.states)
    requires forall i | 0 <= i < |log.entries| :: Undoes(schemas, log.entries, i)
    ensures RewindWorks(schemas, log, seqno)
  {
    hide Undoes, Rebuild, AllKeyed, AppendAll, Compensations, ScanFrom;
    var es := log.entries;
    var start := if seqno < |es| then seqno else |es|;
    assert log.states == Rebuild(schemas, es);
    hide Consistent;
    RewindFits(schemas, log, start);
    assert es[..|es|] == es;
    Compensate(schemas, es, start, |es|, log);
  }

  lemma {:induction false} RewindUndoes(schemas: SchemaSet, log: Log, i: nat)
    requires i < |log.entries|
    requires Consistent(schemas, log) && AllKeyed(schemas, Rebuild(schemas, log.entries))
    requires RewindWorks(schemas, log, i) && RewindWorks(schemas, log, i + 1)
    ensures Undoes(schemas, log.entries, i)
  {
    var es := log.entries;
    var op := (es[i].table, es[i].inverse);
    CompensationsSplit(es, i, |es|);
    AppendAllSplit(schemas, log, Compensations(es, i + 1, |es|), op);
    var later := RewindTo(schemas, log, i + 1).log;
    hide Rebuild, AllKeyed, Compensations, Append, Consistent;
    assert later == AppendAll(schemas, log, Compensations(es, i + 1, |es|)).log;
    AppendAllKeyed(schemas, log, Compensations(es, i + 1, |es|));
    var r := Append(schemas, later, op.0, op.1);
    assert AppendAll(schemas, later, [op]).error.None?;
    assert r.Success? && RewindTo(schemas, log, i).log == r.value;
    AppendOutcome(schemas, later, op.0, op.1);
    AppendShape(schemas, later, op.0, op.1);
    PatchStateRows(schemas, later.states, op.0, op.1);
  }

  lemma {:induction false} AppendAllKeyed(schemas: SchemaSet, log: Log, ops: seq<Op>)
    requires Consistent(schemas, log)
    ensures AllKeyed(schemas, AppendAll(schemas, log, ops).log.states)
  {
    AppendAllExtends(schemas, log, ops);
    var r := AppendAll(schemas, log, ops).log;
    hide AppendAll, Rebuild, AllKeyed;
    RebuildKeyed(schemas, r.entries);
  }

  /** A journal that opens and does not rewind: one insert, stored with itself as its inverse. */
  lemma {:induction false} WrongInverse(schemas: SchemaSet, table: Name, row: Row)
    requires table in schemas.tables && WellTyped(schemas.tables[table], Insert(row))
    requires Recordable(schemas, DeltaEntry(table, Insert(row), Insert(row)))
    ensures var e := DeltaEntry(table, Insert(row), Insert(row));
      && Open(schemas, Record(schemas, e)) ==
           Success(Log(Record(schemas, e), [e], PatchState(schemas, map[], table, Insert(row))))
      && !RewindWorks(schemas, Open(schemas, Record(schemas, e)).value, 0)
  {
    hide Record, Recordable, Open, Append, Patched, WellTyped;
    var e := DeltaEntry(table, Insert(row), Insert(row));
    var op: Op := (table, Insert(row));
    OneRecordOpens(schemas, e);
    var log := Open(schemas, Record(schemas, e)).value;
    assert Compensations([e], 0, 1) == [op] && [op][1..] == [];
    var r := Append(schemas, log, op.0, op.1);
    assert log.entries[..0] == [];
    if r.Success? {
      AppendShape(schemas, log, op.0, op.1);
      assert AppendAll(schemas, r.value, []).log == r.value;
      assert RewindTo(schemas, log, 0).log == r.value;
      PatchStateRows(schemas, log.states, table, Insert(row));
      InsertedNotEmpty(schemas.tables[table], RowsOf(log.states, table), row);
      assert RowsOf(r.value.states, table) != RowsOf(map[], table);
    }
  }

  /** Such a journal, in full: one table with a single boolean field. */
  lemma {:induction false} WrongInverseExample(fingerprint: u64)
    ensures var schemas := SchemaSet(map["" := Schema([Field("ok", Bool)])], fingerprint);
      var e := DeltaEntry("", Insert(Row([VBool(true)])), Insert(Row([VBool(true)])));
      var r := Open(schemas, Record(schemas, e));
      && r.Success?
      && r.value.entries == [e]
      && !RewindWorks(schemas, r.value, 0)
  {
    var schema, row := Schema([Field("ok", Bool)]), Row([VBool(true)]);
    var schemas := SchemaSet(map["" := schema], fingerprint);
    var e := DeltaEntry("", Insert(row), Insert(row));
    assert EncRow(schema, row) == [1] by {
      assert schema.fields[1..] == [] && row.values[1..] == [];
      assert EncFields(schema.fields[1..], row.values[1..]) == [];
    }
    assert EncVarnat(0) == [0];
    assert EncChange(schema, Insert(row)) == Some([0] + [1]);
    assert EncName("") == [0];
    hide EncChange, EncName, Open, Record, RewindWorks;
    assert EncEntry(schemas, e) == Some([0] + ([0] + [1] + ([0] + [1])));
    WrongInverse(schemas, "", row);
  }

  lemma {:induction false} InsertedNotEmpty(schema: Schema, rows: Slots, row: Row)
    requires WellTyped(schema, Insert(row))
    ensures Patched(schema, rows, Insert(row)) != map[]
  {
    assert RowKeyBytes(schema, row).value in Patched(schema, rows, Insert(row));
  }

  lemma {:induction false} OneRecordOpens(schemas: SchemaSet, e: DeltaEntry)
    requires Recordable(schemas, e)
    ensures Open(schemas, Record(schemas, e)) ==
            Success(Log(Record(schemas, e), [e], PatchState(schemas, map[], e.table, e.change)))
  {
    var bytes := Record(schemas, e);
    ScanRecord(schemas, e, [], 0);
    ScanNothing(schemas, |bytes|);
    RebuildSnoc(schemas, [], e);
    hide ScanFrom, Record, PatchState;
    assert bytes + [] == bytes == bytes[..|bytes|];
    assert [] + [e] == [e] == [e] + [];
  }

  // ------------------------------------------------------------- whole runs

  /** What every event keeps: appends, rewinds and crashes at any byte offset all lead from a log
      grown by appends to another; a rewind never fails and a reopening is never refused; and none
      of them loses or rewrites an entry but a crash, which keeps a prefix. */
  lemma {:induction false} NextAuthentic(schemas: SchemaSet, log: Log, event: Event)
    requires Authentic(schemas, log)
    ensures Authentic(schemas, Next(schemas, log, event))
    ensures if event.Crashed? then Next(schemas, log, event).entries <= log.entries
            else log.entries <= Next(schemas, log, event).entries
    ensures event.Rewound? ==> RewindTo(schemas, log, event.seqno).error.None?
    ensures event.Crashed? ==> Reopened(schemas, log, event.cut).Success?
  {
    hide Authentic, Append, RewindTo, Reopened;
    match event {
      case Appended(table, change) =>
        if Append(schemas, log, table, change).Success? {
          AppendAuthentic(schemas, log, table, change);
          AppendShape(schemas, log, table, change);
        }
      case Rewound(seqno) => RewindLaw(schemas, log, seqno);
      case Crashed(cut) => CrashRecovery(schemas, log, cut);
    }
  }

  /** Safety over whole runs: after any sequence of appends, rewinds and crashes, every stored inverse
      is right, the bytes are the records of the entries, every table is the replay of its entries,
      and reopening the bytes gives the log back. */
  lemma {:induction false} RunAuthentic(schemas: SchemaSet, events: seq<Event>)
    ensures Authentic(schemas, Run(schemas, events))
    ensures Open(schemas, Run(schemas, events).bytes) == Success(Run(schemas, events))
    ensures forall t | t in schemas.tables ::
              Some(RowsOf(Run(schemas, events).states, t)) ==
                StateAt(schemas, Run(schemas, events).entries, t, |Run(schemas, events).entries|)
    decreases |events|
  {
    var log := Run(schemas, events);
    if events == [] {
    } else {
      hide Authentic, Next;
      RunAuthentic(schemas, events[..|events| - 1]);
      NextAuthentic(schemas, Run(schemas, events[..|events| - 1]), events[|events| - 1]);
    }
    AuthenticReplays(schemas, log);
  }

  lemma {:induction false} AuthenticReplays(schemas: SchemaSet, log: Log)
    requires Authentic(schemas, log)
    ensures Open(schemas, log.bytes) == Success(log)
    ensures forall t | t in schemas.tables ::
              Some(RowsOf(log.states, t)) == StateAt(schemas, log.entries, t, |log.entries|)
  {
    ReopenIdentity(schemas, log);
    forall t | t in schemas.tables
      ensures RowsOf(log.states, t) == Replay(schemas.tables[t], t, log.entries)
    {
      RebuildIsReplay(schemas, log.entries, t);
    }
  }
}
