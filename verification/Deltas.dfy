/** Changes, their inverses against a pre-image, and what a change does to a table. */
module Deltas {
  import opened Wire
  import opened Values
  import opened ValueLaws
  import opened Rows

  datatype Change = Insert(row: Row) | Update(row: Row) | Remove(key: Value) {
    function Tag(): u64 {
      match this case Insert(_) => 0 case Update(_) => 1 case Remove(_) => 2
    }

    /** The table slot this change acts on. */
    function KeyBytes(schema: Schema): Option<Bytes> {
      match this
      case Insert(r) => RowKeyBytes(schema, r)
      case Update(r) => RowKeyBytes(schema, r)
      case Remove(k) => EncKey(schema, k)
    }
  }

  /** A table's contents: rows under key bytes. */
  type Slots = map<Bytes, Row>

  function Lookup(rows: Slots, key: Bytes): Option<Row> {
    if key in rows then Some(rows[key]) else None
  }

  function Patched(schema: Schema, rows: Slots, change: Change): Slots {
    var key := change.KeyBytes(schema);
    if key.None? then rows
    else match change
      case Insert(r) => rows[key.value := r]
      case Update(r) => rows[key.value := r]
      case Remove(_) => rows - {key.value}
  }

  /** The change that undoes `change` against the row it found, unless that has no slot. */
  function Invert(schema: Schema, change: Change, pre: Option<Row>): Option<Change> {
    var inverse: Option<Change> :=
      match change
      case Remove(k) => Some(if pre.None? then Remove(k) else Insert(pre.value))
      case _ =>
        if pre.Some? then Some(Update(pre.value))
        else if change.row.Key().None? then None
        else Some(Remove(change.row.Key().value));
    if inverse.Some? && inverse.value.KeyBytes(schema).Some? then inverse else None
  }

  /** The payload fits the schema: all that decoding a change establishes. */
  predicate Typed(schema: Schema, change: Change) {
    match change
    case Remove(k) => schema.KeyMatches(k)
    case _ => schema.Check(change.row.values)
  }

  /** The boundary check every appended change passes: the schema also has a key. */
  predicate WellTyped(schema: Schema, change: Change) {
    schema.Key().Some? && Typed(schema, change)
  }

  /** Every row of the table fits the schema and sits under its own key bytes. */
  ghost predicate Keyed(schema: Schema, rows: Slots) {
    forall k | k in rows :: schema.Check(rows[k].values) && RowKeyBytes(schema, rows[k]) == Some(k)
  }

  lemma {:induction false} PatchedKeyed(schema: Schema, rows: Slots, change: Change)
    requires Keyed(schema, rows)
    requires Typed(schema, change)
    ensures Keyed(schema, Patched(schema, rows, change))
  {
  }

  /** The inverse `Invert` computes against the row `change` finds in `rows`. */
  function InverseAt(schema: Schema, rows: Slots, change: Change): Option<Change> {
    var key := change.KeyBytes(schema);
    if key.None? then None else Invert(schema, change, Lookup(rows, key.value))
  }

  /** Correct inversion: a well-typed change always has an inverse, the inverse is well typed, acts
      on the same slot, and patching it after the change restores the table exactly. */
  lemma {:induction false} InvertCorrect(schema: Schema, rows: Slots, change: Change)
    requires Keyed(schema, rows) && WellTyped(schema, change)
    ensures change.KeyBytes(schema).Some?
    ensures var inverse := InverseAt(schema, rows, change);
      && inverse.Some?
      && WellTyped(schema, inverse.value)
      && inverse.value.KeyBytes(schema) == change.KeyBytes(schema)
      && Patched(schema, Patched(schema, rows, change), inverse.value) == rows
  {
    hide EncValue, Keyed, InverseAt, WellTyped, Patched, Change.KeyBytes;
    InverseShape(schema, rows, change);
    var key := change.KeyBytes(schema).value;
    var inverse := InverseAt(schema, rows, change).value;
    PatchedAt(schema, rows, change, key);
    var after := Patched(schema, rows, change);
    PatchedAt(schema, after, inverse, key);
    assert Patched(schema, after, inverse) == rows;
  }

  /** A change writes or clears its slot and leaves the others alone. */
  lemma {:induction false} PatchedAt(schema: Schema, rows: Slots, change: Change, key: Bytes)
    requires change.KeyBytes(schema) == Some(key)
    ensures Patched(schema, rows, change) == if change.Remove? then rows - {key} else rows[key := change.row]
  {
    hide EncValue;
  }

  /** What the inverse is: back to the row that was there, or to no row at all, in the same slot. */
  lemma {:induction false} InverseShape(schema: Schema, rows: Slots, change: Change)
    requires Keyed(schema, rows) && WellTyped(schema, change)
    ensures change.KeyBytes(schema).Some?
    ensures var key := change.KeyBytes(schema).value;
      var inverse := InverseAt(schema, rows, change);
      && inverse.Some?
      && WellTyped(schema, inverse.value)
      && inverse.value.KeyBytes(schema) == Some(key)
      && (key in rows ==> !inverse.value.Remove? && inverse.value.row == rows[key])
      && (key !in rows ==> inverse.value.Remove?)
  {
    hide EncValue;
    var key := change.KeyBytes(schema).value;
    if key in rows {
      assert schema.Check(rows[key].values) && RowKeyBytes(schema, rows[key]) == Some(key);
    }
    hide Keyed;
  }

  /** The inverse, exactly: an insert puts back what a remove took, an update what was overwritten, and a
      remove clears what was new; removing what was not there is its own inverse. */
  lemma {:induction false} InverseIs(schema: Schema, rows: Slots, change: Change)
    requires Keyed(schema, rows) && WellTyped(schema, change)
    ensures change.KeyBytes(schema).Some?
    ensures var key := change.KeyBytes(schema).value;
      InverseAt(schema, rows, change) ==
        Some(match change
             case Remove(k) => if key in rows then Insert(rows[key]) else Remove(k)
             case _ => if key in rows then Update(rows[key]) else Remove(change.row.values[0]))
  {
    hide EncValue;
    var key := change.KeyBytes(schema).value;
    if key in rows {
      assert schema.Check(rows[key].values) && RowKeyBytes(schema, rows[key]) == Some(key);
    }
    hide Keyed;
  }

  /** Inverting twice gives the change back, except that an update of an absent row comes back as
      the insert it was, and an insert over a present row as the update it was. */
  lemma {:induction false} InvertTwice(schema: Schema, rows: Slots, change: Change)
    requires Keyed(schema, rows) && WellTyped(schema, change)
    requires InverseAt(schema, rows, change).Some?
    requires WellTyped(schema, InverseAt(schema, rows, change).value)
    ensures var inverse := InverseAt(schema, rows, change).value;
      var after := Patched(schema, rows, change);
      InverseAt(schema, after, inverse) ==
        Some(match change
             case Remove(_) => change
             case _ => if change.KeyBytes(schema).value in rows then Update(change.row) else Insert(change.row))
  {
    InvertCorrect(schema, rows, change);
    hide EncValue;
    var key := change.KeyBytes(schema).value;
    if change.Remove? && key in rows {
      EncValueInjective(schema.Key().value.ty, rows[key].Key().value, change.key);
    }
  }

  // ------------------------------------------------ keyed by bytes, keyed by value

  /** The same table as a map from key values. */
  ghost function ByValue(schema: Schema, rows: Slots): map<Value, Row>
    requires Keyed(schema, rows)
  {
    map k | k in rows :: rows[k].values[0] := rows[k]
  }

  /** What a change means when tables are keyed by value. */
  ghost function PatchedByValue(rows: map<Value, Row>, change: Change): map<Value, Row>
    requires change.Remove? || change.row.values != []
  {
    match change
    case Remove(k) => rows - {k}
    case _ => rows[change.row.values[0] := change.row]
  }

  /** Looking a row up by its key bytes is looking it up by its key value. */
  lemma {:induction false} LookupRefines(schema: Schema, rows: Slots, key: Value)
    requires Keyed(schema, rows) && schema.KeyMatches(key)
    ensures var k := EncValue(schema.Key().value.ty, key);
      && (k in rows <==> key in ByValue(schema, rows))
      && (k in rows ==> ByValue(schema, rows)[key] == rows[k])
  {
    hide EncValue;
    var t := schema.Key().value.ty;
    var k := EncValue(t, key);
    if k in rows {
      EncValueInjective(t, rows[k].values[0], key);
    }
    if key in ByValue(schema, rows) {
      var k' :| k' in rows && rows[k'].values[0] == key;
      assert k' == k;
    }
  }

  lemma {:induction false} ByValueMatches(schema: Schema, rows: Slots, v: Value)
    requires Keyed(schema, rows)
    ensures v in ByValue(schema, rows) ==> schema.KeyMatches(v)
  {
  }

  /** Byte-keyed tables refine value-keyed ones: patching commutes with the change of key. */
  lemma {:induction false} PatchRefines(schema: Schema, rows: Slots, change: Change)
    requires Keyed(schema, rows) && WellTyped(schema, change)
    ensures Keyed(schema, Patched(schema, rows, change))
    ensures ByValue(schema, Patched(schema, rows, change)) == PatchedByValue(ByValue(schema, rows), change)
  {
    PatchedKeyed(schema, rows, change);
    var after := Patched(schema, rows, change);
    var key := if change.Remove? then change.key else change.row.values[0];
    forall v: Value
      ensures v in ByValue(schema, after) <==> v in PatchedByValue(ByValue(schema, rows), change)
      ensures v in ByValue(schema, after) ==>
                ByValue(schema, after)[v] == PatchedByValue(ByValue(schema, rows), change)[v]
    {
      PatchRefinesAt(schema, rows, change, key, v);
    }
  }

  lemma {:induction false} PatchRefinesAt(schema: Schema, rows: Slots, change: Change, key: Value, v: Value)
    requires Keyed(schema, rows) && WellTyped(schema, change)
    requires Keyed(schema, Patched(schema, rows, change))
    requires key == if change.Remove? then change.key else change.row.values[0]
    ensures var after := ByValue(schema, Patched(schema, rows, change));
      var spec := PatchedByValue(ByValue(schema, rows), change);
      (v in after <==> v in spec) && (v in after ==> after[v] == spec[v])
  {
    hide EncValue, ByValue;
    var t := schema.Key().value.ty;
    var after := Patched(schema, rows, change);
    ByValueMatches(schema, rows, v);
    ByValueMatches(schema, after, v);
    if Matches(t, v) {
      LookupRefines(schema, rows, v);
      LookupRefines(schema, after, v);
      assert change.KeyBytes(schema) == Some(EncValue(t, key));
      hide Keyed;
      if EncValue(t, v) == EncValue(t, key) {
        EncValueInjective(t, v, key);
      }
    }
  }
}
