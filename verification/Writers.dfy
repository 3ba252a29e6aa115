/** The encoders as the source runs them: pushing onto a growing buffer. Each appends exactly the
    bytes its encoding function names. */
module Writers {
  import opened Wire
  import opened Codec
  import opened Values
  import opened ValueLaws
  import opened Rows
  import opened Deltas
  import opened Journal

  class Buffer {
    var data: Bytes

    constructor ()
      ensures data == []
    {
      data := [];
    }

    method Push(b: byte)
      modifies this
      ensures data == old(data) + [b]
    {
      data := data + [b];
    }

    method Extend(bs: Bytes)
      modifies this
      ensures data == old(data) + bs
    {
      data := data + bs;
    }
  }

  method PushVarnat(n: u64, out: Buffer)
    modifies out
    ensures out.data == old(out.data) + EncVarnat(n)
    decreases n
  {
    if n < 128 {
      out.Push(n);
    } else {
      out.Push(128 + n % 128);
      PushVarnat(n / 128, out);
    }
  }

  method PushBytes(payload: Vec<byte>, out: Buffer)
    modifies out
    ensures out.data == old(out.data) + EncBytes(payload)
  {
    PushVarnat(|payload|, out);
    out.Extend(payload);
  }

  method PushEnvelope(version: u64, fingerprint: u64, payload: Vec<byte>, out: Buffer)
    modifies out
    ensures out.data == old(out.data) + EncEnvelope(Envelope(version, fingerprint, payload))
  {
    hide EncVarnat, EncBytes;
    PushVarnat(version, out);
    PushVarnat(fingerprint, out);
    PushBytes(payload, out);
  }

  method PushChars(s: Vec<char>, out: Buffer)
    modifies out
    ensures out.data == old(out.data) + (EncVarnat(|s|) + EncChars(s))
  {
    hide EncVarnat;
    PushVarnat(|s|, out);
    for i := 0 to |s|
      invariant out.data + EncChars(s[i..]) == old(out.data) + (EncVarnat(|s|) + EncChars(s))
    {
      PushVarnat(s[i] as int, out);
      assert s[i..][1..] == s[i + 1..];
    }
    assert s[|s|..] == [];
  }

  method PushInteger(ty: Ty, v: Value, out: Buffer)
    requires VarintTy(ty) && Matches(ty, v)
    modifies out
    ensures out.data == old(out.data) + EncValue(ty, v)
  {
    hide EncVarnat;
    IntegerRoundTrip(ty, v);
    PushVarnat(Code(v), out);
  }

  method PushValue(ty: Ty, v: Value, out: Buffer)
    modifies out
    ensures out.data == old(out.data) + EncValue(ty, v)
    decreases ty, 0
  {
    hide EncVarnat, EncChars, EncBytes, EncList;
    match ty {
      case Bool => if v.VBool? { out.Push(if v.b then 1 else 0); }
      case U8 => if v.VU8? { out.Push(v.u8); }
      case U16 => if v.VU16? { PushInteger(ty, v, out); }
      case U32 => if v.VU32? { PushInteger(ty, v, out); }
      case U64 => if v.VU64? { PushInteger(ty, v, out); }
      case I8 => if v.VI8? { PushInteger(ty, v, out); }
      case I16 => if v.VI16? { PushInteger(ty, v, out); }
      case I32 => if v.VI32? { PushInteger(ty, v, out); }
      case I64 => if v.VI64? { PushInteger(ty, v, out); }
      case Str => if v.VStr? { PushChars(v.s, out); }
      case Blob => if v.VBlob? { PushBytes(v.bs, out); }
      case Opt(t) => if v.VOpt? { PushOption(t, v.o, out); }
      case Res(ok, err) =>
        if v.VRes? {
          match v.r {
            case Success(x) => PushTagged(0, ok, x, out);
            case Failure(e) => PushTagged(1, err, e, out);
          }
        }
      case List(t) =>
        if v.VList? {
          PushVarnat(|v.xs|, out);
          PushList(t, v.xs, out);
        }
    }
  }

  method PushOption(t: Ty, o: Option<Value>, out: Buffer)
    modifies out
    ensures out.data == old(out.data) + EncValue(Opt(t), VOpt(o))
    decreases t, 2
  {
    hide EncVarnat, EncChars, EncBytes, EncList;
    match o {
      case None => out.Push(0);
      case Some(x) => PushTagged(1, t, x, out);
    }
  }

  method PushTagged(tag: byte, t: Ty, x: Value, out: Buffer)
    modifies out
    ensures out.data == old(out.data) + ([tag] + EncValue(t, x))
    decreases t, 1
  {
    hide EncValue;
    out.Push(tag);
    PushValue(t, x, out);
  }

  method PushList(t: Ty, xs: seq<Value>, out: Buffer)
    modifies out
    ensures out.data == old(out.data) + EncList(t, xs)
    decreases t, 1
  {
    hide EncValue;
    for i := 0 to |xs|
      invariant out.data + EncList(t, xs[i..]) == old(out.data) + EncList(t, xs)
    {
      PushValue(t, xs[i], out);
      assert xs[i..][1..] == xs[i + 1..];
    }
    assert xs[|xs|..] == [];
  }

  method PushRow(schema: Schema, row: Row, out: Buffer)
    modifies out
    ensures out.data == old(out.data) + EncRow(schema, row)
  {
    hide EncValue;
    var fields, values := schema.fields, row.values;
    var n := if |fields| < |values| then |fields| else |values|;
    for i := 0 to n
      invariant out.data + EncFields(fields[i..], values[i..]) == old(out.data) + EncFields(fields, values)
    {
      PushValue(fields[i].ty, values[i], out);
      assert fields[i..][1..] == fields[i + 1..] && values[i..][1..] == values[i + 1..];
    }
  }

  /** False, with nothing written, when the key does not fit the schema. */
  method PushKey(schema: Schema, key: Value, out: Buffer) returns (ok: bool)
    modifies out
    ensures ok == EncKey(schema, key).Some?
    ensures out.data == old(out.data) + if ok then EncKey(schema, key).value else []
  {
    ok := schema.KeyMatches(key);
    if ok {
      PushValue(schema.Key().value.ty, key, out);
    }
  }

  /** False when the key does not fit the schema; the tag is then already written. */
  method PushChange(schema: Schema, change: Change, out: Buffer) returns (ok: bool)
    modifies out
    ensures ok == EncChange(schema, change).Some?
    ensures out.data == old(out.data) + if ok then EncChange(schema, change).value else EncVarnat(change.Tag())
  {
    hide EncVarnat, EncRow, EncKey;
    PushVarnat(change.Tag(), out);
    match change {
      case Insert(r) => PushRow(schema, r, out); ok := true;
      case Update(r) => PushRow(schema, r, out); ok := true;
      case Remove(k) => ok := PushKey(schema, k, out);
    }
  }

  method PushEntry(schemas: SchemaSet, e: DeltaEntry, out: Buffer) returns (ok: bool)
    modifies out
    ensures ok == EncEntry(schemas, e).Some?
    ensures ok ==> out.data == old(out.data) + EncEntry(schemas, e).value
    ensures old(out.data) <= out.data
  {
    hide EncChange, EncValue;
    if e.table !in schemas.tables {
      return false;
    }
    var schema := schemas.tables[e.table];
    PushValue(Str, VStr(e.table), out);
    ok := PushChange(schema, e.change, out);
    if ok {
      ok := PushChange(schema, e.inverse, out);
    }
  }
}
