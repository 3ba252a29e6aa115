/** Schemas and rows. The first field is the key. */
module Rows {
  import opened Wire
  import opened Values
  import opened ValueLaws

  datatype Field = Field(name: string, ty: Ty)

  datatype Schema = Schema(fields: seq<Field>) {
    function Key(): Option<Field> {
      if fields == [] then None else Some(fields[0])
    }

    /** Arity and per-field type agreement. */
    predicate Check(values: seq<Value>) {
      |fields| == |values| && forall i | 0 <= i < |fields| :: Matches(fields[i].ty, values[i])
    }

    predicate KeyMatches(key: Value) {
      Key().Some? && Matches(Key().value.ty, key)
    }
  }

  datatype Row = Row(values: seq<Value>) {
    function Key(): Option<Value> {
      if values == [] then None else Some(values[0])
    }
  }

  /** The per-field encodings, concatenated; like the source's `zip`, the shorter side decides. */
  function EncFields(fields: seq<Field>, values: seq<Value>): Bytes {
    if fields == [] || values == [] then []
    else EncValue(fields[0].ty, values[0]) + EncFields(fields[1..], values[1..])
  }

  function EncRow(schema: Schema, row: Row): Bytes {
    EncFields(schema.fields, row.values)
  }

  function DecFields(fields: seq<Field>, bs: Bytes): (r: Dec<seq<Value>>)
    ensures r.Ok? ==> r.used <= |bs| && Schema(fields).Check(r.value)
  {
    if fields == [] then Ok([], 0) else
    var (v, u) :- DecValue(fields[0].ty, bs);
    var (vs, us) :- DecFields(fields[1..], bs[u..]);
    Ok([v] + vs, u + us)
  }

  function DecRow(schema: Schema, bs: Bytes): (r: Dec<Row>)
    ensures r.Ok? ==> r.used <= |bs| && schema.Check(r.value.values)
  {
    var (values, used) :- DecFields(schema.fields, bs);
    Ok(Row(values), used)
  }

  /** The table-map key of a row: its first field's encoding. */
  function RowKeyBytes(schema: Schema, row: Row): Option<Bytes> {
    if schema.Key().None? || row.Key().None? then None
    else Some(EncValue(schema.Key().value.ty, row.Key().value))
  }

  /** A key on its own, the payload of a removal. */
  function EncKey(schema: Schema, key: Value): Option<Bytes> {
    if schema.KeyMatches(key) then Some(EncValue(schema.Key().value.ty, key)) else None
  }

  lemma {:induction false} FieldsFaithful(fields: seq<Field>, values: seq<Value>, bs: Bytes)
    requires Schema(fields).Check(values)
    ensures Faithful(DecFields(fields, bs), bs, EncFields(fields, values), values)
  {
    hide EncValue, DecValue;
    if fields == [] {
    } else {
      var head := EncValue(fields[0].ty, values[0]);
      SplitPrefix(head, EncFields(fields[1..], values[1..]), bs);
      ValueFaithful(fields[0].ty, values[0], bs);
      if head <= bs {
        FieldsFaithful(fields[1..], values[1..], bs[|head|..]);
        assert [values[0]] + values[1..] == values;
      }
    }
  }

  /** Row round trip in append form; every strict prefix of a row is torn. */
  lemma {:induction false} RowFaithful(schema: Schema, row: Row, bs: Bytes)
    requires schema.Check(row.values)
    ensures Faithful(DecRow(schema, bs), bs, EncRow(schema, row), row)
  {
    FieldsFaithful(schema.fields, row.values, bs);
  }

  /** The key leads the row: a row that fits a keyed schema is its key bytes and then its other fields, so
      rows share a slot exactly when their first values are equal. */
  lemma {:induction false} KeyLeads(schema: Schema, row: Row, other: Row)
    requires schema.fields != [] && schema.Check(row.values) && schema.Check(other.values)
    ensures var key := RowKeyBytes(schema, row);
      && key == EncKey(schema, row.values[0])
      && key.Some? && EncRow(schema, row) == key.value + EncFields(schema.fields[1..], row.values[1..])
    ensures RowKeyBytes(schema, row) == RowKeyBytes(schema, other) <==> row.values[0] == other.values[0]
  {
    hide EncValue;
    var ty := schema.fields[0].ty;
    if EncValue(ty, row.values[0]) == EncValue(ty, other.values[0]) {
      EncValueInjective(ty, row.values[0], other.values[0]);
    }
  }

  lemma {:induction false} FieldsSound(fields: seq<Field>, bs: Bytes)
    requires DecFields(fields, bs).Ok?
    ensures var r := DecFields(fields, bs); Exact(r, DecFields(fields, bs[..r.used]), EncFields(fields, r.value))
  {
    hide EncValue, DecValue;
    if fields == [] {
    } else {
      var t := fields[0].ty;
      var r, v := DecFields(fields, bs), DecValue(t, bs);
      var kept, rest := bs[..r.used], bs[v.used..];
      ValueSound(t, bs);
      assert kept[..v.used] == bs[..v.used];
      ValueStable(t, kept[..v.used], kept);
      FieldsSound(fields[1..], rest);
      assert kept[v.used..] == rest[..r.used - v.used];
      assert r.value[1..] == DecFields(fields[1..], rest).value;
    }
  }

  /** A decoded row depends only on the bytes used and re-encodes in no more of them. */
  lemma {:induction false} RowSound(schema: Schema, bs: Bytes)
    requires DecRow(schema, bs).Ok?
    ensures var r := DecRow(schema, bs); Exact(r, DecRow(schema, bs[..r.used]), EncRow(schema, r.value))
  {
    FieldsSound(schema.fields, bs);
  }
}
