/** Entry and record formats: round trips, torn prefixes, and the scan of whole journals. */
module JournalLaws {
  import opened Wire
  import opened Codec
  import opened Values
  import opened ValueLaws
  import opened Rows
  import opened Deltas
  import opened Journal

  // ---------------------------------------------------------------- entries

  /** Change round trip in append form; every strict prefix is torn. */
  lemma {:induction false} ChangeFaithful(schema: Schema, change: Change, bs: Bytes)
    requires WellTyped(schema, change)
    ensures EncChange(schema, change).Some?
    ensures Faithful(DecChange(schema, bs), bs, EncChange(schema, change).value, change)
  {
    hide EncVarnat, DecVarnat, EncRow, DecRow, EncValue, DecValue;
    var head := EncVarnat(change.Tag());
    VarnatFaithful(change.Tag(), bs);
    match change {
      case Remove(k) =>
        var body := EncValue(schema.Key().value.ty, k);
        if head <= bs { ValueFaithful(schema.Key().value.ty, k, bs[|head|..]); }
        BlockFaithful(DecChange(schema, bs), bs, head, body, change);
      case _ =>
        var body := EncRow(schema, change.row);
        if head <= bs { RowFaithful(schema, change.row, bs[|head|..]); }
        BlockFaithful(DecChange(schema, bs), bs, head, body, change);
    }
  }

  /** An entry whose record `append` writes. */
  ghost predicate Recordable(schemas: SchemaSet, e: DeltaEntry) {
    && e.table in schemas.tables
    && WellTyped(schemas.tables[e.table], e.change)
    && WellTyped(schemas.tables[e.table], e.inverse)
    && EncEntry(schemas, e).Some?
    && |EncEntry(schemas, e).value| < U64_LIMIT
  }

  /** Entry payloads decode to the entry they were written for. */
  lemma {:induction false} EntryRoundTrip(schemas: SchemaSet, e: DeltaEntry)
    requires Recordable(schemas, e)
    ensures DecEntry(schemas, EncEntry(schemas, e).value) == Some(e)
  {
    hide EncChange, DecChange, EncValue, DecValue;
    var schema := schemas.tables[e.table];
    ChangeFaithful(schema, e.change, []);
    ChangeFaithful(schema, e.inverse, []);
    var name := EncName(e.table);
    var change, inverse := EncChange(schema, e.change).value, EncChange(schema, e.inverse).value;
    var payload := name + (change + inverse);
    assert payload == EncEntry(schemas, e).value;
    ValueFaithful(Str, VStr(e.table), payload);
    assert payload[|name|..] == change + inverse;
    ChangeFaithful(schema, e.change, change + inverse);
    assert (change + inverse)[|change|..] == inverse;
    ChangeFaithful(schema, e.inverse, inverse);
  }

  /** An accepted change depends only on the bytes used and re-encodes in no more of them. */
  lemma {:induction false} ChangeSound(schema: Schema, bs: Bytes)
    requires DecChange(schema, bs).Ok?
    ensures var r := DecChange(schema, bs);
      && EncChange(schema, r.value).Some?
      && Exact(r, DecChange(schema, bs[..r.used]), EncChange(schema, r.value).value)
  {
    hide EncVarnat, DecVarnat, EncRow, DecRow, EncValue, DecValue;
    var r, u := DecChange(schema, bs), DecVarnat(bs).used;
    HeadSound(bs, r.used);
    if r.value.Remove? {
      ValueSound(schema.Key().value.ty, bs[u..]);
    } else {
      RowSound(schema, bs[u..]);
    }
  }

  /** An accepted payload re-encodes in no more bytes than it came in. */
  lemma {:induction false} EntrySound(schemas: SchemaSet, payload: Bytes)
    requires DecEntry(schemas, payload).Some?
    ensures var e := DecEntry(schemas, payload).value;
      EncEntry(schemas, e).Some? && |EncEntry(schemas, e).value| <= |payload|
  {
    hide EncChange, DecChange, EncValue, DecValue;
    var name := DecValue(Str, payload);
    var schema := schemas.tables[name.value.s];
    var rest := payload[name.used..];
    ValueSound(Str, payload);
    ChangeSound(schema, rest);
    ChangeSound(schema, rest[DecChange(schema, rest).used..]);
  }

  // ------------------------------------------------------------------- scan

  /** A record followed by anything scans to its entry and then to whatever follows. */
  lemma {:induction false} ScanRecord(schemas: SchemaSet, e: DeltaEntry, more: Bytes, offset: nat)
    requires Recordable(schemas, e)
    ensures var rec := Record(schemas, e);
      && rec != []
      && ScanFrom(schemas, rec + more, offset) ==
           match ScanFrom(schemas, more, offset + |rec|)
           case Refused(error) => Refused(error)
           case Scanned(entries, kept) => Scanned([e] + entries, kept)
  {
    hide EncEnvelope, DecEnvelope, EncEntry, DecEntry;
    var rec := Record(schemas, e);
    EnvelopeFaithful(Envelope(VERSION, schemas.fingerprint, EncEntry(schemas, e).value), rec + more);
    EntryRoundTrip(schemas, e);
    assert (rec + more)[|rec|..] == more;
  }

  /** A record cut short scans to nothing. */
  lemma {:induction false} ScanTornRecord(schemas: SchemaSet, e: DeltaEntry, bs: Bytes, offset: nat)
    requires Recordable(schemas, e) && bs < Record(schemas, e)
    ensures ScanFrom(schemas, bs, offset) == Scanned([], offset)
  {
    hide EncEnvelope, DecEnvelope, EncEntry, DecEntry;
    EnvelopeFaithful(Envelope(VERSION, schemas.fingerprint, EncEntry(schemas, e).value), bs);
  }

  /** How many leading records end at or before the cut. */
  function Survivors(schemas: SchemaSet, es: seq<DeltaEntry>, cut: nat): (m: nat)
    ensures m <= |es|
  {
    if es == [] || cut < |Record(schemas, es[0])| then 0
    else 1 + Survivors(schemas, es[1..], cut - |Record(schemas, es[0])|)
  }

  /** The survivors are exactly the records that fit: the last one ends at or before the cut, the
      next one after it. */
  lemma {:induction false} SurvivorsExact(schemas: SchemaSet, es: seq<DeltaEntry>, cut: nat)
    ensures var m := Survivors(schemas, es, cut);
      && |Records(schemas, es[..m])| <= cut
      && (m < |es| ==> cut < |Records(schemas, es[..m + 1])|)
  {
    hide Record;
    var m := Survivors(schemas, es, cut);
    if es == [] || cut < |Record(schemas, es[0])| {
      assert m < |es| ==>
               es[..1] == [es[0]] && Records(schemas, es[..1]) == Record(schemas, es[0]) + Records(schemas, []);
    } else {
      SurvivorsExact(schemas, es[1..], cut - |Record(schemas, es[0])|);
      assert es[..m][1..] == es[1..][..m - 1];
      assert m < |es| ==> es[..m + 1][1..] == es[1..][..m];
    }
  }

  /** Crash recovery: a journal cut at any byte offset scans to exactly the entries whose records
      end at or before the cut, and is kept up to the last of those record boundaries. */
  lemma {:induction false} ScanCut(schemas: SchemaSet, es: seq<DeltaEntry>, cut: nat, offset: nat)
    requires forall e :: e in es ==> Recordable(schemas, e)
    requires cut <= |Records(schemas, es)|
    ensures var m := Survivors(schemas, es, cut);
      ScanFrom(schemas, Records(schemas, es)[..cut], offset) ==
        Scanned(es[..m], offset + |Records(schemas, es[..m])|)
  {
    hide Record, ScanFrom;
    var m := Survivors(schemas, es, cut);
    var bs := Records(schemas, es)[..cut];
    if es == [] {
      ScanNothing(schemas, offset);
    } else {
      var rec, rest := Record(schemas, es[0]), Records(schemas, es[1..]);
      if cut < |rec| {
        assert bs == rec[..cut];
        ScanTornRecord(schemas, es[0], bs, offset);
      } else {
        assert bs == rec + rest[..cut - |rec|];
        ScanRecord(schemas, es[0], rest[..cut - |rec|], offset);
        ScanCut(schemas, es[1..], cut - |rec|, offset + |rec|);
        assert es[..m] == [es[0]] + es[1..][..m - 1];
      }
    }
  }

  lemma {:induction false} ScanNothing(schemas: SchemaSet, offset: nat)
    ensures ScanFrom(schemas, [], offset) == Scanned([], offset)
  {
  }

  lemma {:induction false} SurvivorsAll(schemas: SchemaSet, es: seq<DeltaEntry>, cut: nat)
    requires |Records(schemas, es)| <= cut
    ensures Survivors(schemas, es, cut) == |es|
  {
    hide Record;
    if es == [] {
    } else {
      SurvivorsAll(schemas, es[1..], cut - |Record(schemas, es[0])|);
    }
  }

  lemma {:induction false} RecordsSnoc(schemas: SchemaSet, es: seq<DeltaEntry>, e: DeltaEntry)
    ensures Records(schemas, es + [e]) == Records(schemas, es) + Record(schemas, e)
  {
    hide Record;
    if es == [] {
      assert ([e])[1..] == [];
    } else {
      assert (es + [e])[1..] == es[1..] + [e];
      RecordsSnoc(schemas, es[1..], e);
    }
  }

  lemma {:induction false} RecordsPrefix(schemas: SchemaSet, es: seq<DeltaEntry>, m: nat)
    requires m <= |es|
    ensures Records(schemas, es[..m]) <= Records(schemas, es)
  {
    hide Record;
    if m == 0 {
    } else {
      RecordsPrefix(schemas, es[1..], m - 1);
      assert es[..m][1..] == es[1..][..m - 1];
    }
  }

  // ------------------------------------------------- recovery on arbitrary bytes

  /** `rec` is one complete record of this journal, holding `e`; it need not be the bytes `append`
      would have written. */
  ghost predicate Complete(schemas: SchemaSet, rec: Bytes, e: DeltaEntry) {
    match DecEnvelope(rec)
    case Ok(env, len) =>
      && len == |rec|
      && env.version == VERSION
      && env.fingerprint == schemas.fingerprint
      && DecEntry(schemas, env.payload) == Some(e)
    case Fail(_) => false
  }

  function Concat(recs: seq<Bytes>): Bytes {
    if recs == [] then [] else recs[0] + Concat(recs[1..])
  }

  /** `bs` splits into complete records, one per entry, and a tail that is empty or torn. */
  ghost predicate SplitsInto(schemas: SchemaSet, bs: Bytes, recs: seq<Bytes>, es: seq<DeltaEntry>) {
    && |recs| == |es|
    && (forall i | 0 <= i < |es| :: Complete(schemas, recs[i], es[i]))
    && Concat(recs) <= bs
    && (bs == Concat(recs) || DecEnvelope(bs[|Concat(recs)|..]) == Fail(Torn))
  }

  /** A complete record in front. */
  lemma {:induction false} SplitsCons(schemas: SchemaSet, rec: Bytes, e: DeltaEntry, rest: Bytes, recs: seq<Bytes>,
                                      es: seq<DeltaEntry>)
    requires Complete(schemas, rec, e) && SplitsInto(schemas, rest, recs, es)
    ensures SplitsInto(schemas, rec + rest, [rec] + recs, [e] + es)
    ensures Concat([rec] + recs) == rec + Concat(recs)
  {
    hide Complete, DecEnvelope;
    assert ([rec] + recs)[1..] == recs;
    assert (rec + rest)[|rec + Concat(recs)|..] == rest[|Concat(recs)|..];
  }

  /** The first record taken off again. */
  lemma {:induction false} SplitsHead(schemas: SchemaSet, bs: Bytes, recs: seq<Bytes>, es: seq<DeltaEntry>)
    requires SplitsInto(schemas, bs, recs, es) && recs != []
    ensures Complete(schemas, recs[0], es[0]) && recs[0] <= bs
    ensures SplitsInto(schemas, bs[|recs[0]|..], recs[1..], es[1..])
  {
    hide Complete, DecEnvelope;
    var rest := bs[|recs[0]|..];
    SplitPrefix(recs[0], Concat(recs[1..]), bs);
    assert rest[|Concat(recs[1..])|..] == bs[|Concat(recs)|..];
  }

  /** A complete record in front scans to its entry and then to whatever follows. */
  lemma {:induction false} ScanComplete(schemas: SchemaSet, rec: Bytes, e: DeltaEntry, bs: Bytes, offset: nat)
    requires Complete(schemas, rec, e) && rec <= bs
    ensures rec != []
    ensures ScanFrom(schemas, bs, offset) ==
      match ScanFrom(schemas, bs[|rec|..], offset + |rec|)
      case Refused(error) => Refused(error)
      case Scanned(entries, kept) => Scanned([e] + entries, kept)
  {
    hide DecEnvelope, DecEntry;
    EnvelopeStable(rec, bs);
  }

  /** Whatever splits that way is accepted, with those entries and nothing but the tail cut off. */
  lemma {:induction false} ScanAccepts(schemas: SchemaSet, bs: Bytes, recs: seq<Bytes>, es: seq<DeltaEntry>,
                                       offset: nat)
    requires SplitsInto(schemas, bs, recs, es)
    ensures ScanFrom(schemas, bs, offset) == Scanned(es, offset + |Concat(recs)|)
    decreases |recs|
  {
    hide DecEnvelope, DecEntry, Complete;
    if recs == [] {
      assert bs[|Concat(recs)|..] == bs;
    } else {
      hide ScanFrom;
      SplitsHead(schemas, bs, recs, es);
      ScanComplete(schemas, recs[0], es[0], bs, offset);
      ScanAccepts(schemas, bs[|recs[0]|..], recs[1..], es[1..], offset + |recs[0]|);
      assert es == [es[0]] + es[1..];
    }
  }

  /** An accepting scan either ends here, or takes a complete record off the front. */
  lemma {:induction false} ScanTaken(schemas: SchemaSet, bs: Bytes, offset: nat)
    requires ScanFrom(schemas, bs, offset).Scanned?
    ensures var r := ScanFrom(schemas, bs, offset);
      if bs == [] || DecEnvelope(bs).Fail? then
        r == Scanned([], offset) && (bs == [] || DecEnvelope(bs) == Fail(Torn))
      else
        var len := DecEnvelope(bs).used;
        && r.entries != []
        && Complete(schemas, bs[..len], r.entries[0])
        && ScanFrom(schemas, bs[len..], offset + len) == Scanned(r.entries[1..], r.kept)
  {
    hide DecEntry, DecEnvelope;
    if bs != [] && DecEnvelope(bs).Ok? {
      EnvelopeSound(bs);
    }
  }

  /** Whatever is accepted splits that way; the records are returned. */
  lemma {:induction false} ScanSplits(schemas: SchemaSet, bs: Bytes, offset: nat) returns (recs: seq<Bytes>)
    requires ScanFrom(schemas, bs, offset).Scanned?
    ensures var r := ScanFrom(schemas, bs, offset);
      SplitsInto(schemas, bs, recs, r.entries) && r.kept == offset + |Concat(recs)|
    decreases |bs|
  {
    hide ScanFrom, DecEnvelope, Complete;
    ScanTaken(schemas, bs, offset);
    if bs == [] || DecEnvelope(bs).Fail? {
      recs := [];
      assert bs[0..] == bs;
    } else {
      hide SplitsInto, Concat;
      var es := ScanFrom(schemas, bs, offset).entries;
      var len := DecEnvelope(bs).used;
      var rest := ScanSplits(schemas, bs[len..], offset + len);
      recs := [bs[..len]] + rest;
      SplitsCons(schemas, bs[..len], es[0], bs[len..], rest, es[1..]);
      assert bs[..len] + bs[len..] == bs && [es[0]] + es[1..] == es;
    }
  }

  /** Recovery on arbitrary bytes, both directions: the scan accepts, with these entries and this
      much kept, exactly when the kept bytes split into complete records, one per entry, and what
      follows them is nothing or a torn record. */
  lemma {:induction false} ScanIff(schemas: SchemaSet, bs: Bytes, es: seq<DeltaEntry>, kept: nat)
    ensures ScanFrom(schemas, bs, 0) == Scanned(es, kept) <==>
            exists recs :: SplitsInto(schemas, bs, recs, es) && kept == |Concat(recs)|
  {
    hide ScanFrom, SplitsInto;
    if ScanFrom(schemas, bs, 0) == Scanned(es, kept) {
      var recs := ScanSplits(schemas, bs, 0);
    }
    forall recs | SplitsInto(schemas, bs, recs, es) && kept == |Concat(recs)|
      ensures ScanFrom(schemas, bs, 0) == Scanned(es, kept)
    {
      ScanAccepts(schemas, bs, recs, es, 0);
    }
  }

  /** Opening what recovery kept gives the same entries and cuts nothing more. */
  lemma {:induction false} ScanKept(schemas: SchemaSet, bs: Bytes)
    requires ScanFrom(schemas, bs, 0).Scanned?
    ensures var r := ScanFrom(schemas, bs, 0);
      ScanFrom(schemas, bs[..r.kept], 0) == Scanned(r.entries, r.kept)
  {
    hide ScanFrom, Complete, DecEnvelope, Concat;
    var r := ScanFrom(schemas, bs, 0);
    var recs := ScanSplits(schemas, bs, 0);
    assert bs[..r.kept] == Concat(recs);
    ScanAccepts(schemas, bs[..r.kept], recs, r.entries, 0);
  }

  /** A complete journal of any origin followed by a fresh record scans to the entries of both. */
  lemma {:induction false} ScanAppended(schemas: SchemaSet, bs: Bytes, e: DeltaEntry)
    requires Recordable(schemas, e)
    requires ScanFrom(schemas, bs, 0).Scanned? && ScanFrom(schemas, bs, 0).kept == |bs|
    ensures ScanFrom(schemas, bs + Record(schemas, e), 0) ==
            Scanned(ScanFrom(schemas, bs, 0).entries + [e], |bs| + |Record(schemas, e)|)
  {
    hide ScanFrom, Complete, Record, Recordable, Concat, DecEnvelope;
    var es, rec := ScanFrom(schemas, bs, 0).entries, Record(schemas, e);
    var recs := ScanSplits(schemas, bs, 0);
    ConcatSnoc(recs, rec);
    RecordComplete(schemas, e);
    assert SplitsInto(schemas, bs + rec, recs + [rec], es + [e]);
    ScanAccepts(schemas, bs + rec, recs + [rec], es + [e], 0);
  }

  lemma {:induction false} ConcatSnoc(recs: seq<Bytes>, rec: Bytes)
    ensures Concat(recs + [rec]) == Concat(recs) + rec
  {
    if recs == [] {
      assert ([rec])[1..] == [];
    } else {
      assert (recs + [rec])[1..] == recs[1..] + [rec];
      ConcatSnoc(recs[1..], rec);
    }
  }

  lemma {:induction false} RecordComplete(schemas: SchemaSet, e: DeltaEntry)
    requires Recordable(schemas, e)
    ensures Complete(schemas, Record(schemas, e), e)
  {
    hide EncEnvelope, DecEnvelope, EncEntry, DecEntry;
    EnvelopeFaithful(Envelope(VERSION, schemas.fingerprint, EncEntry(schemas, e).value), Record(schemas, e));
    EntryRoundTrip(schemas, e);
  }

  lemma {:induction false} CompleteFits(schemas: SchemaSet, rec: Bytes, e: DeltaEntry)
    requires Complete(schemas, rec, e)
    ensures EncEntry(schemas, e).Some? && |EncEntry(schemas, e).value| <= |rec|
  {
    hide DecEnvelope, DecEntry, EncEntry, EncVarnat;
    var env := DecEnvelope(rec).value;
    EnvelopeSound(rec);
    EntrySound(schemas, env.payload);
  }

  /** No entry of a journal takes more bytes than the journal has. */
  lemma {:induction false} ScanFits(schemas: SchemaSet, bs: Bytes, offset: nat)
    requires ScanFrom(schemas, bs, offset).Scanned?
    ensures forall e | e in ScanFrom(schemas, bs, offset).entries ::
              EncEntry(schemas, e).Some? && |EncEntry(schemas, e).value| <= |bs|
    decreases |bs|
  {
    hide ScanFrom, DecEnvelope, EncEntry, Complete;
    ScanTaken(schemas, bs, offset);
    if bs == [] || DecEnvelope(bs).Fail? {
    } else {
      var len := DecEnvelope(bs).used;
      var es := ScanFrom(schemas, bs, offset).entries;
      ScanFits(schemas, bs[len..], offset + len);
      CompleteFits(schemas, bs[..len], es[0]);
      assert es == [es[0]] + es[1..];
    }
  }
}
