/** Rows, changes, entries and whole records, exactly: which bytes are read as them, byte for byte. */
module RecordSpelling {
  import opened Wire
  import opened Codec
  import opened Values
  import opened Spelling
  import opened Rows
  import opened Deltas
  import opened Journal
  import opened JournalLaws

  // -------------------------------------------------------------------- rows

  /** One spelling per field, in schema order. */
  ghost predicate SpellsFields(fields: seq<Field>, values: seq<Value>, e: Bytes) {
    if fields == [] || values == [] then fields == [] && values == [] && e == []
    else exists k: nat | k <= |e| ::
      Spells(fields[0].ty, values[0], e[..k]) && SpellsFields(fields[1..], values[1..], e[k..])
  }

  lemma {:induction false} FieldsDecode(fields: seq<Field>, values: seq<Value>, e: Bytes, bs: Bytes)
    requires SpellsFields(fields, values, e) && e <= bs
    ensures DecFields(fields, bs) == Ok(values, |e|)
    decreases |fields|
  {
    hide Spells, DecValue;
    if fields == [] {
    } else {
      var k: nat :| k <= |e| && Spells(fields[0].ty, values[0], e[..k])
                    && SpellsFields(fields[1..], values[1..], e[k..]);
      SpelledDecodes(fields[0].ty, values[0], e[..k], bs);
      FieldsDecode(fields[1..], values[1..], e[k..], bs[k..]);
      assert [values[0]] + values[1..] == values;
    }
  }

  lemma {:induction false} FieldsSpelled(fields: seq<Field>, bs: Bytes)
    requires DecFields(fields, bs).Ok?
    ensures var r := DecFields(fields, bs); SpellsFields(fields, r.value, bs[..r.used])
    decreases |fields|
  {
    hide Spells, DecValue;
    if fields == [] {
    } else {
      var r, v := DecFields(fields, bs), DecValue(fields[0].ty, bs);
      var e := bs[..r.used];
      DecodedSpelled(fields[0].ty, bs);
      FieldsSpelled(fields[1..], bs[v.used..]);
      HeadSplit(bs, v.used, r.used);
      assert r.value[1..] == DecFields(fields[1..], bs[v.used..]).value;
      assert Spells(fields[0].ty, r.value[0], e[..v.used]) && SpellsFields(fields[1..], r.value[1..], e[v.used..]);
    }
  }

  /** Exactly which bytes a row is read from. */
  lemma {:induction false} RowIff(schema: Schema, bs: Bytes, row: Row, used: nat)
    ensures DecRow(schema, bs) == Ok(row, used) <==>
            used <= |bs| && SpellsFields(schema.fields, row.values, bs[..used])
  {
    hide DecFields, SpellsFields;
    if DecRow(schema, bs) == Ok(row, used) {
      FieldsSpelled(schema.fields, bs);
    }
    if used <= |bs| && SpellsFields(schema.fields, row.values, bs[..used]) {
      FieldsDecode(schema.fields, row.values, bs[..used], bs);
    }
  }

  // ----------------------------------------------------------------- changes

  /** Tag 0, 1 or 2, then the row inserted, the row updated, or the key removed. */
  ghost predicate SpellsChange(schema: Schema, change: Change, e: Bytes) {
    exists k: nat | k <= |e| ::
      match change
      case Insert(row) => SpellsNat(e[..k], 0) && SpellsFields(schema.fields, row.values, e[k..])
      case Update(row) => SpellsNat(e[..k], 1) && SpellsFields(schema.fields, row.values, e[k..])
      case Remove(key) =>
        SpellsNat(e[..k], 2) && schema.fields != [] && Spells(schema.fields[0].ty, key, e[k..])
  }

  lemma {:induction false} ChangeDecodes(schema: Schema, change: Change, e: Bytes, bs: Bytes)
    requires SpellsChange(schema, change, e) && e <= bs
    ensures DecChange(schema, bs) == Ok(change, |e|)
  {
    hide SpellsNat, DecVarnat, SpellsFields, DecFields, Spells, DecValue;
    match change {
      case Insert(row) =>
        var k: nat :| k <= |e| && SpellsNat(e[..k], 0) && SpellsFields(schema.fields, row.values, e[k..]);
        NatDecodes(e[..k], 0, bs);
        FieldsDecode(schema.fields, row.values, e[k..], bs[k..]);
      case Update(row) =>
        var k: nat :| k <= |e| && SpellsNat(e[..k], 1) && SpellsFields(schema.fields, row.values, e[k..]);
        NatDecodes(e[..k], 1, bs);
        FieldsDecode(schema.fields, row.values, e[k..], bs[k..]);
      case Remove(key) =>
        var k: nat :| k <= |e| && SpellsNat(e[..k], 2) && schema.fields != []
                      && Spells(schema.fields[0].ty, key, e[k..]);
        NatDecodes(e[..k], 2, bs);
        SpelledDecodes(schema.fields[0].ty, key, e[k..], bs[k..]);
    }
  }

  lemma {:induction false} ChangeSpelled(schema: Schema, bs: Bytes)
    requires DecChange(schema, bs).Ok?
    ensures var r := DecChange(schema, bs); SpellsChange(schema, r.value, bs[..r.used])
  {
    hide SpellsNat, DecVarnat, SpellsFields, DecFields, Spells, DecValue;
    var r, tag := DecChange(schema, bs), DecVarnat(bs);
    var e, rest := bs[..r.used], bs[tag.used..];
    NatSpelled(bs);
    HeadSplit(bs, tag.used, r.used);
    if tag.value == 2 {
      DecodedSpelled(schema.fields[0].ty, rest);
    } else {
      FieldsSpelled(schema.fields, rest);
    }
    assert SpellsNat(e[..tag.used], tag.value);
  }

  /** Exactly which bytes a change is read from. */
  lemma {:induction false} ChangeIff(schema: Schema, bs: Bytes, change: Change, used: nat)
    ensures DecChange(schema, bs) == Ok(change, used) <==> used <= |bs| && SpellsChange(schema, change, bs[..used])
  {
    hide DecChange, SpellsChange;
    if DecChange(schema, bs) == Ok(change, used) {
      ChangeSpelled(schema, bs);
    }
    if used <= |bs| && SpellsChange(schema, change, bs[..used]) {
      ChangeDecodes(schema, change, bs[..used], bs);
    }
  }

  // ----------------------------------------------------------------- entries

  /** A known table's name, a change and an inverse, and not a byte more. */
  ghost predicate SpellsEntry(schemas: SchemaSet, e: DeltaEntry, payload: Bytes) {
    && e.table in schemas.tables
    && exists i: nat, j: nat | i <= j <= |payload| ::
         && Spells(Str, VStr(e.table), payload[..i])
         && SpellsChange(schemas.tables[e.table], e.change, payload[i..j])
         && SpellsChange(schemas.tables[e.table], e.inverse, payload[j..])
  }

  /** Exactly which payloads are entries. */
  lemma {:induction false} EntryIff(schemas: SchemaSet, payload: Bytes, e: DeltaEntry)
    ensures DecEntry(schemas, payload) == Some(e) <==> SpellsEntry(schemas, e, payload)
  {
    hide DecEntry, SpellsEntry;
    if DecEntry(schemas, payload) == Some(e) {
      EntrySpelled(schemas, payload);
    }
    if SpellsEntry(schemas, e, payload) {
      EntryDecodes(schemas, e, payload);
    }
  }

  lemma {:induction false} EntryDecodes(schemas: SchemaSet, e: DeltaEntry, payload: Bytes)
    requires SpellsEntry(schemas, e, payload)
    ensures DecEntry(schemas, payload) == Some(e)
  {
    hide Spells, DecValue, SpellsChange, DecChange;
    var schema := schemas.tables[e.table];
    var i: nat, j: nat :| i <= j <= |payload|
      && Spells(Str, VStr(e.table), payload[..i])
      && SpellsChange(schema, e.change, payload[i..j])
      && SpellsChange(schema, e.inverse, payload[j..]);
    SpelledDecodes(Str, VStr(e.table), payload[..i], payload);
    ChangeDecodes(schema, e.change, payload[i..j], payload[i..]);
    assert payload[i..][j - i..] == payload[j..];
    ChangeDecodes(schema, e.inverse, payload[j..], payload[j..]);
  }

  lemma {:induction false} EntrySpelled(schemas: SchemaSet, payload: Bytes)
    requires DecEntry(schemas, payload).Some?
    ensures SpellsEntry(schemas, DecEntry(schemas, payload).value, payload)
  {
    hide Spells, DecValue, SpellsChange, DecChange;
    var e := DecEntry(schemas, payload).value;
    var schema, i := schemas.tables[e.table], DecValue(Str, payload).used;
    var rest := payload[i..];
    var j := i + DecChange(schema, rest).used;
    DecodedSpelled(Str, payload);
    ChangeSpelled(schema, rest);
    ChangeSpelled(schema, rest[j - i..]);
    assert payload[i..j] == rest[..j - i];
    assert payload[j..] == rest[j - i..] == rest[j - i..][..DecChange(schema, rest[j - i..]).used];
    assert Spells(Str, VStr(e.table), payload[..i]);
  }

  // ---------------------------------------------------------------- envelopes

  /** Version, fingerprint, and a payload with its length. */
  ghost predicate SpellsEnvelope(env: Envelope, e: Bytes) {
    exists i: nat, j: nat | i <= j <= |e| ::
      SpellsNat(e[..i], env.version) && SpellsNat(e[i..j], env.fingerprint) && SpellsBytes(env.payload, e[j..])
  }

  lemma {:induction false} EnvelopeDecodes(env: Envelope, e: Bytes, bs: Bytes)
    requires SpellsEnvelope(env, e) && e <= bs
    ensures DecEnvelope(bs) == Ok(env, |e|)
  {
    hide SpellsNat, DecVarnat, SpellsBytes, DecBytes;
    var i: nat, j: nat :| i <= j <= |e| && SpellsNat(e[..i], env.version) && SpellsNat(e[i..j], env.fingerprint)
                          && SpellsBytes(env.payload, e[j..]);
    NatLength(e[i..j], env.fingerprint);
    NatDecodes(e[..i], env.version, bs);
    NatDecodes(e[i..j], env.fingerprint, bs[i..]);
    assert i + |e[i..j]| == j;
    BytesDecode(env.payload, e[j..], bs[j..]);
  }

  lemma {:induction false} NatLength(e: Bytes, n: int)
    requires SpellsNat(e, n)
    ensures e != []
  {
  }

  lemma {:induction false} EnvelopeSpelled(bs: Bytes)
    requires DecEnvelope(bs).Ok?
    ensures var r := DecEnvelope(bs); SpellsEnvelope(r.value, bs[..r.used])
  {
    hide SpellsNat, DecVarnat, SpellsBytes, DecBytes;
    var r := DecEnvelope(bs);
    var i := DecVarnat(bs).used;
    var j := i + DecVarnat(bs[i..]).used;
    var e := bs[..r.used];
    NatSpelled(bs);
    NatSpelled(bs[i..]);
    BytesSpelled(bs[j..]);
    HeadSplit(bs, i, r.used);
    HeadSplit(bs, j, r.used);
    assert e[i..j] == bs[i..][..j - i];
    assert SpellsNat(e[..i], r.value.version) && SpellsNat(e[i..j], r.value.fingerprint);
  }

  /** Exactly which bytes an envelope is read from. */
  lemma {:induction false} EnvelopeIff(bs: Bytes, env: Envelope, used: nat)
    ensures DecEnvelope(bs) == Ok(env, used) <==> used <= |bs| && SpellsEnvelope(env, bs[..used])
  {
    hide DecEnvelope, SpellsEnvelope;
    if DecEnvelope(bs) == Ok(env, used) {
      EnvelopeSpelled(bs);
    }
    if used <= |bs| && SpellsEnvelope(env, bs[..used]) {
      EnvelopeDecodes(env, bs[..used], bs);
    }
  }

  /** A torn envelope is never the last word either: that is what a torn tail means. */
  lemma {:induction false} EnvelopeUndecided(bs: Bytes) returns (more: Bytes)
    requires DecEnvelope(bs) == Fail(Torn)
    ensures DecEnvelope(bs + more) != Fail(Torn)
  {
    hide DecVarnat, DecBytes;
    var a := DecVarnat(bs);
    if a.Fail? {
      more := RUNAWAY;
      NatRunaway(bs);
      RunawayCorrupt(bs);
    } else {
      var b := DecVarnat(bs[a.used..]);
      more := RUNAWAY;
      if b.Ok? {
        more := BytesUndecided(bs[a.used + b.used..]);
        VarnatStable(bs[a.used..], bs[a.used..] + more);
        assert (bs + more)[a.used + b.used..] == bs[a.used + b.used..] + more;
      } else {
        RunawayCorrupt(bs[a.used..]);
      }
      VarnatStable(bs, bs + more);
      assert (bs + more)[a.used..] == bs[a.used..] + more;
    }
  }

  lemma {:induction false} EnvelopeTornIff(bs: Bytes)
    ensures DecEnvelope(bs) == Fail(Torn) <==> exists more: Bytes :: DecEnvelope(bs + more) != DecEnvelope(bs)
  {
    hide DecEnvelope;
    if DecEnvelope(bs) == Fail(Torn) {
      var more := EnvelopeUndecided(bs);
      assert DecEnvelope(bs + more) != DecEnvelope(bs);
    } else {
      forall more: Bytes
        ensures DecEnvelope(bs + more) == DecEnvelope(bs)
      {
        EnvelopeStable(bs, bs + more);
      }
    }
  }

  // ------------------------------------------------------------------ records

  /** A record: an envelope of version 1 and the set's own fingerprint around a spelled entry. */
  ghost predicate SpellsRecord(schemas: SchemaSet, e: DeltaEntry, rec: Bytes) {
    exists payload: Vec<byte> ::
      SpellsEnvelope(Envelope(1, schemas.fingerprint, payload), rec) && SpellsEntry(schemas, e, payload)
  }

  /** Complete records are exactly the spelled ones. */
  lemma {:induction false} CompleteIff(schemas: SchemaSet, rec: Bytes, e: DeltaEntry)
    ensures Complete(schemas, rec, e) <==> SpellsRecord(schemas, e, rec)
  {
    hide DecEnvelope, DecEntry, SpellsEnvelope, SpellsEntry;
    assert rec[..|rec|] == rec;
    if Complete(schemas, rec, e) {
      var env := DecEnvelope(rec).value;
      EnvelopeIff(rec, env, |rec|);
      EntryIff(schemas, env.payload, e);
    }
    if SpellsRecord(schemas, e, rec) {
      var payload: Vec<byte> :| SpellsEnvelope(Envelope(1, schemas.fingerprint, payload), rec)
                                && SpellsEntry(schemas, e, payload);
      EnvelopeIff(rec, Envelope(1, schemas.fingerprint, payload), |rec|);
      EntryIff(schemas, payload, e);
    }
  }

  /** The open-time scan of arbitrary bytes, in bytes: accepted, with these entries and this much kept,
      exactly when the kept bytes are spelled records, one per entry, and what follows is nothing or an
      envelope later bytes could still settle. */
  lemma {:induction false} JournalIff(schemas: SchemaSet, bs: Bytes, es: seq<DeltaEntry>, kept: nat)
    ensures ScanFrom(schemas, bs, 0) == Scanned(es, kept) <==>
            kept <= |bs| &&
            (exists recs: seq<Bytes> ::
               && |recs| == |es|
               && (forall i | 0 <= i < |es| :: SpellsRecord(schemas, es[i], recs[i]))
               && Concat(recs) == bs[..kept]) &&
            (kept == |bs| || exists more: Bytes :: DecEnvelope(bs[kept..] + more) != DecEnvelope(bs[kept..]))
  {
    hide ScanFrom, DecEnvelope, SpellsRecord, Complete;
    if kept <= |bs| { EnvelopeTornIff(bs[kept..]); }
    if ScanFrom(schemas, bs, 0) == Scanned(es, kept) {
      var recs := ScanSplits(schemas, bs, 0);
      forall i | 0 <= i < |es| ensures SpellsRecord(schemas, es[i], recs[i]) { CompleteIff(schemas, recs[i], es[i]); }
      assert Concat(recs) == bs[..kept];
    } else if kept <= |bs| && (kept == |bs| || DecEnvelope(bs[kept..]) == Fail(Torn)) {
      forall recs: seq<Bytes> | |recs| == |es| && Concat(recs) == bs[..kept]
        ensures exists i :: 0 <= i < |es| && !SpellsRecord(schemas, es[i], recs[i])
      {
        if forall i | 0 <= i < |es| :: SpellsRecord(schemas, es[i], recs[i]) {
          forall i | 0 <= i < |es| ensures Complete(schemas, recs[i], es[i]) { CompleteIff(schemas, recs[i], es[i]); }
          assert kept == |bs| ==> bs[..kept] == bs;
          ScanAccepts(schemas, bs, recs, es, 0);
        }
      }
    }
  }

  // ----------------------------------------------------------------- refusals

  /** What is wrong with the record at the front of `rest`, `offset` bytes into the journal. */
  ghost predicate Fault(schemas: SchemaSet, rest: Bytes, offset: nat, error: DeltaError) {
    match DecEnvelope(rest)
    case Fail(why) => why == Corrupt && error == CorruptRecord(offset, "malformed envelope header")
    case Ok(env, _) =>
      if env.version != 1 then error == WrongVersion(offset, env.version)
      else if env.fingerprint != schemas.fingerprint then error == FingerprintMismatch(offset)
      else
        && (forall e :: !SpellsEntry(schemas, e, env.payload))
        && error == CorruptRecord(offset, "entry payload undecodable")
  }

  /** A scan is refused exactly for the first record that is neither complete nor torn, with that record's
      fault and its offset. */
  lemma {:induction false} RefusedIff(schemas: SchemaSet, bs: Bytes, offset: nat, error: DeltaError)
    ensures ScanFrom(schemas, bs, offset) == Refused(error) <==>
            exists recs: seq<Bytes>, es: seq<DeltaEntry> ::
              && |recs| == |es|
              && (forall i | 0 <= i < |es| :: Complete(schemas, recs[i], es[i]))
              && Concat(recs) < bs
              && Fault(schemas, bs[|Concat(recs)|..], offset + |Concat(recs)|, error)
    decreases |bs|
  {
    hide ScanFrom, Complete, Fault;
    if ScanFrom(schemas, bs, offset) == Refused(error) {
      var recs, es := RefusedSplits(schemas, bs, offset);
    }
    forall recs: seq<Bytes>, es: seq<DeltaEntry> |
        && |recs| == |es|
        && (forall i | 0 <= i < |es| :: Complete(schemas, recs[i], es[i]))
        && Concat(recs) < bs
        && Fault(schemas, bs[|Concat(recs)|..], offset + |Concat(recs)|, error)
      ensures ScanFrom(schemas, bs, offset) == Refused(error)
    {
      SplitRefused(schemas, bs, offset, recs, es, error);
    }
  }

  lemma {:induction false} FaultRefused(schemas: SchemaSet, bs: Bytes, offset: nat, error: DeltaError)
    requires bs != []
    ensures Fault(schemas, bs, offset, error) ==> ScanFrom(schemas, bs, offset) == Refused(error)
  {
    hide DecEnvelope, DecEntry, SpellsEntry;
    var r := DecEnvelope(bs);
    if r.Ok? && DecEntry(schemas, r.value.payload).Some? {
      EntryIff(schemas, r.value.payload, DecEntry(schemas, r.value.payload).value);
    }
  }

  lemma {:induction false} SplitRefused(schemas: SchemaSet, bs: Bytes, offset: nat, recs: seq<Bytes>,
                                        es: seq<DeltaEntry>, error: DeltaError)
    requires |recs| == |es| && forall i | 0 <= i < |es| :: Complete(schemas, recs[i], es[i])
    requires Concat(recs) < bs && Fault(schemas, bs[|Concat(recs)|..], offset + |Concat(recs)|, error)
    ensures ScanFrom(schemas, bs, offset) == Refused(error)
    decreases |recs|
  {
    hide Fault, Complete, ScanFrom;
    if recs == [] {
      assert bs[0..] == bs;
      FaultRefused(schemas, bs, offset, error);
    } else {
      SplitPrefix(recs[0], Concat(recs[1..]), bs);
      ScanComplete(schemas, recs[0], es[0], bs, offset);
      assert bs[|recs[0]|..][|Concat(recs[1..])|..] == bs[|Concat(recs)|..];
      SplitRefused(schemas, bs[|recs[0]|..], offset + |recs[0]|, recs[1..], es[1..], error);
    }
  }

  /** A refusing scan either finds the fault here, or takes a complete record off the front. */
  lemma {:induction false} RefusedHere(schemas: SchemaSet, bs: Bytes, offset: nat)
    requires ScanFrom(schemas, bs, offset).Refused?
    ensures bs != []
    ensures var error := ScanFrom(schemas, bs, offset).error;
      || Fault(schemas, bs, offset, error)
      || (DecEnvelope(bs).Ok?
          && var len := DecEnvelope(bs).used;
          && (exists e :: Complete(schemas, bs[..len], e))
          && ScanFrom(schemas, bs[len..], offset + len) == Refused(error))
  {
    hide DecEnvelope, DecEntry, SpellsEntry;
    var r := DecEnvelope(bs);
    if r.Ok? {
      var entry := DecEntry(schemas, r.value.payload);
      EnvelopeSound(bs);
      if entry.None? {
        forall e ensures !SpellsEntry(schemas, e, r.value.payload) { EntryIff(schemas, r.value.payload, e); }
      } else if r.value.version == VERSION && r.value.fingerprint == schemas.fingerprint {
        assert Complete(schemas, bs[..r.used], entry.value);
      }
    }
  }

  lemma {:induction false} RefusedSplits(schemas: SchemaSet, bs: Bytes, offset: nat)
    returns (recs: seq<Bytes>, es: seq<DeltaEntry>)
    requires ScanFrom(schemas, bs, offset).Refused?
    ensures |recs| == |es| && forall i | 0 <= i < |es| :: Complete(schemas, recs[i], es[i])
    ensures Concat(recs) < bs
    ensures Fault(schemas, bs[|Concat(recs)|..], offset + |Concat(recs)|, ScanFrom(schemas, bs, offset).error)
    decreases |bs|
  {
    hide ScanFrom, DecEnvelope, Complete, Fault;
    RefusedHere(schemas, bs, offset);
    if Fault(schemas, bs, offset, ScanFrom(schemas, bs, offset).error) {
      recs, es := [], [];
      assert bs[0..] == bs;
    } else {
      var len := DecEnvelope(bs).used;
      var e :| Complete(schemas, bs[..len], e);
      var recs', es' := RefusedSplits(schemas, bs[len..], offset + len);
      recs, es := [bs[..len]] + recs', [e] + es';
      assert recs[1..] == recs';
      assert bs == bs[..len] + bs[len..];
      assert bs[|Concat(recs)|..] == bs[len..][|Concat(recs')|..];
    }
  }

  // ---------------------------------------------------------------- wire form

  /** A change as written: the tag byte, then the row's fields or the removed key. */
  function WrittenChange(schema: Schema, change: Change): Bytes {
    match change
    case Insert(row) => [0] + EncFields(schema.fields, row.values)
    case Update(row) => [1] + EncFields(schema.fields, row.values)
    case Remove(key) => [2] + if schema.fields == [] then [] else EncValue(schema.fields[0].ty, key)
  }

  lemma {:induction false} ChangeWritten(schema: Schema, change: Change)
    requires EncChange(schema, change).Some?
    ensures EncChange(schema, change).value == WrittenChange(schema, change)
  {
    assert EncVarnat(0) == [0] && EncVarnat(1) == [1] && EncVarnat(2) == [2];
    hide EncVarnat, EncValue, EncFields;
  }

  /** A record as written: version 1, the fingerprint's digits, the payload's length, the payload; and the
      payload is the table's name and the two changes. */
  lemma {:induction false} RecordWritten(schemas: SchemaSet, e: DeltaEntry)
    requires Encode(schemas, e).Success?
    ensures e.table in schemas.tables
    ensures var schema := schemas.tables[e.table];
      var payload := EncName(e.table) + (WrittenChange(schema, e.change) + WrittenChange(schema, e.inverse));
      && |payload| < U64_LIMIT
      && Encode(schemas, e).value == [1] + (EncVarnat(schemas.fingerprint) + (EncVarnat(|payload|) + payload))
  {
    assert EncVarnat(1) == [1];
    hide EncVarnat, EncChange, WrittenChange, EncName;
    ChangeWritten(schemas.tables[e.table], e.change);
    ChangeWritten(schemas.tables[e.table], e.inverse);
  }

  /** What a successful append adds to the journal, byte for byte. */
  lemma {:induction false} AppendBytes(schemas: SchemaSet, log: Log, table: Name, change: Change)
    requires Append(schemas, log, table, change).Success?
    ensures table in schemas.tables
    ensures var next := Append(schemas, log, table, change).value;
      && |next.entries| == |log.entries| + 1
      && var inverse, schema := next.entries[|log.entries|].inverse, schemas.tables[table];
      && var payload := EncName(table) + (WrittenChange(schema, change) + WrittenChange(schema, inverse));
      && |payload| < U64_LIMIT
      && next.bytes == log.bytes + ([1] + (EncVarnat(schemas.fingerprint) + (EncVarnat(|payload|) + payload)))
  {
    hide Encode, Prepare, PatchState, WrittenChange, EncVarnat, EncName;
    RecordWritten(schemas, Prepare(schemas, log.states, table, change).value);
  }

  /** A complete record of another one-byte version is refused as such. */
  lemma {:induction false} OtherVersionRefused(schemas: SchemaSet, bs: Bytes, offset: nat)
    requires DecEnvelope(bs).Ok? && bs[0] < 128 && bs[0] != 1
    ensures ScanFrom(schemas, bs, offset) == Refused(WrongVersion(offset, bs[0]))
  {
    var version := DecVarnat(bs);
    OneByteNat(bs);
    hide DecVarnat, DecBytes;
  }

  lemma {:induction false} OneByteNat(bs: Bytes)
    requires bs != [] && bs[0] < 128
    ensures DecVarnat(bs) == Ok(bs[0], 1)
  {
    assert bs[..1] == [bs[0]] && [bs[0]][1..] == [];
    assert DigitSum([bs[0]]) == bs[0] % 128 + 128 * DigitSum([]);
  }

  /** The first byte of a journal is its version: with any other one-byte version there, a journal written
      by appends is refused at offset 0, never truncated. */
  lemma {:induction false} VersionByte(schemas: SchemaSet, e: DeltaEntry, more: Bytes, version: byte)
    requires Recordable(schemas, e) && version < 128 && version != 1
    ensures var bs := Record(schemas, e) + more;
      bs[0] == 1 && ScanFrom(schemas, bs[0 := version], 0) == Refused(WrongVersion(0, version))
  {
    var payload := EncEntry(schemas, e).value;
    var env, other := Envelope(1, schemas.fingerprint, payload), Envelope(version, schemas.fingerprint, payload);
    var rest := EncVarnat(schemas.fingerprint) + EncBytes(payload);
    assert EncVarnat(1) == [1] && EncVarnat(version) == [version];
    hide EncVarnat, EncEntry, EncBytes, DecEnvelope, ScanFrom;
    assert Record(schemas, e) == EncEnvelope(env) == [1] + rest;
    assert EncEnvelope(other) == [version] + rest;
    var bs := Record(schemas, e) + more;
    assert bs[0 := version] == EncEnvelope(other) + more;
    EnvelopeFaithful(other, bs[0 := version]);
    OtherVersionRefused(schemas, bs[0 := version], 0);
  }

  /** One journal in full: the first insert into a table of one boolean field, named by no letters. */
  lemma {:induction false} GoldenJournal()
    ensures var row := Row([VBool(true)]);
      var schemas := SchemaSet(map["" := Schema([Field("ok", Bool)])], 42);
      Append(schemas, EMPTY_LOG, "", Insert(row)) ==
        Success(Log([1, 42, 5, 0, 0, 1, 2, 1], [DeltaEntry("", Insert(row), Remove(VBool(true)))],
                    map["" := map[[1] := row]]))
  {
    var schema, row := Schema([Field("ok", Bool)]), Row([VBool(true)]);
    var schemas := SchemaSet(map["" := schema], 42);
    var e := DeltaEntry("", Insert(row), Remove(VBool(true)));
    GoldenPrepared(schemas, schema, row);
    GoldenChanges(schema, row);
    assert EncName("") == [0] && EncVarnat(42) == [42] && EncVarnat(5) == [5];
    hide Prepare, PatchState, EncChange, WrittenChange, EncName, EncVarnat;
    GoldenEncode(schemas, e);
    hide Encode;
    var rec: Bytes := [1, 42, 5, 0, 0, 1, 2, 1];
    assert EMPTY_LOG.bytes + rec == rec && EMPTY_LOG.entries + [e] == [e];
  }

  lemma {:induction false} GoldenChanges(schema: Schema, row: Row)
    requires schema == Schema([Field("ok", Bool)]) && row == Row([VBool(true)])
    ensures EncChange(schema, Insert(row)).Some? && EncChange(schema, Remove(VBool(true))).Some?
    ensures WrittenChange(schema, Insert(row)) == [0, 1] && WrittenChange(schema, Remove(VBool(true))) == [2, 1]
  {
    assert EncFields(schema.fields, row.values) == [1] by {
      assert schema.fields[1..] == [] && row.values[1..] == [];
      assert EncFields(schema.fields[1..], row.values[1..]) == [];
    }
  }

  lemma {:induction false} GoldenPrepared(schemas: SchemaSet, schema: Schema, row: Row)
    requires schema == Schema([Field("ok", Bool)]) && row == Row([VBool(true)])
    requires schemas.tables == map["" := schema]
    ensures Prepare(schemas, map[], "", Insert(row)) == Success(DeltaEntry("", Insert(row), Remove(VBool(true))))
    ensures PatchState(schemas, map[], "", Insert(row)) == map["" := map[[1] := row]]
  {
    assert RowKeyBytes(schema, row) == Some([1]);
  }

  lemma {:induction false} GoldenEncode(schemas: SchemaSet, e: DeltaEntry)
    requires e.table in schemas.tables
    requires EncChange(schemas.tables[e.table], e.change).Some? && EncChange(schemas.tables[e.table], e.inverse).Some?
    requires EncName(e.table) == [0] && EncVarnat(schemas.fingerprint) == [42] && EncVarnat(5) == [5]
    requires WrittenChange(schemas.tables[e.table], e.change) == [0, 1]
    requires WrittenChange(schemas.tables[e.table], e.inverse) == [2, 1]
    ensures Encode(schemas, e) == Success([1, 42, 5, 0, 0, 1, 2, 1])
  {
    ChangeWritten(schemas.tables[e.table], e.change);
    ChangeWritten(schemas.tables[e.table], e.inverse);
    hide EncChange, WrittenChange, EncName, EncVarnat, EncEnvelope;
    assert EncEntry(schemas, e).value == [0] + ([0, 1] + [2, 1]) == [0, 0, 1, 2, 1];
    RecordWritten(schemas, e);
    assert [1] + ([42] + ([5] + [0, 0, 1, 2, 1])) == [1, 42, 5, 0, 0, 1, 2, 1];
  }
}
