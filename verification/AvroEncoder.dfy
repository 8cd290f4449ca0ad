/**
 The encoder classes of crates/json-joy-json-pack/src/avro/encoder.rs and schema_encoder.rs and the
 schema check of schema_validator.rs, each method shown to do what its specification function says.
 */
module AvroEncoder {
  import opened Common
  import opened AvroTypes
  import opened Bytes
  import opened AvroCodec
  import opened AvroValidator
  import opened AvroRoundTrip
  import opened AvroDepth
  import opened AvroSession
  import opened Buffers

  class AvroSchemaValidator {
    var namedSchemas: Names

    constructor ()
      ensures namedSchemas == map[]
    {
      namedSchemas := map[];
    }

    method ValidateSchema(s: Schema) returns (ok: bool)
      modifies this
      ensures Checked(ok, namedSchemas) == CheckSchema(s, map[])
    {
      namedSchemas := map[];
      ok := ValidateSchemaInternal(s);
    }

    method ValidateValue(c: Platform, v: AvroValue, s: Schema) returns (ok: bool)
      modifies this
      ensures namedSchemas == CheckSchema(s, map[]).names && ok == CheckValue(c, namedSchemas, v, s)
    {
      namedSchemas := map[];
      var _ := ValidateSchemaInternal(s);
      ok := CheckValue(c, namedSchemas, v, s);
    }

    method ValidateSchemaInternal(s: Schema) returns (ok: bool)
      modifies this
      ensures Checked(ok, namedSchemas) == CheckSchema(s, old(namedSchemas))
      decreases s
    {
      match s {
        case RefType(n) => ok := Primitive(n).Some? || n in namedSchemas;
        case UnionType(alts) => ok := ValidateUnionSchema(alts);
        case RecordType(name, _, fields) =>
          ok := Define(s);
          if ok { ok := ValidateFields(fields); }
        case EnumType(name, _, symbols, default) =>
          ok := Define(s);
          if ok { ok := ValidateSymbols(symbols, default); }
        case FixedType(name, _, _) => ok := Define(s);
        case ArrayType(items) => ok := ValidateSchemaInternal(items);
        case MapType(values) => ok := ValidateSchemaInternal(values);
        case NullType => ok := true;
        case BooleanType => ok := true;
        case IntType => ok := true;
        case LongType => ok := true;
        case FloatType => ok := true;
        case DoubleType => ok := true;
        case BytesType => ok := true;
        case StringType => ok := true;
      }
    }

    /** A name that is neither empty nor taken goes into the table. */
    method Define(s: Schema) returns (ok: bool)
      requires IsNamedType(s)
      modifies this
      ensures ok == (s.name != [] && FullName(s) !in old(namedSchemas))
      ensures namedSchemas == if ok then old(namedSchemas)[FullName(s) := s] else old(namedSchemas)
    {
      if s.name == [] { return false; }
      var fullName := FullName(s);
      if fullName in namedSchemas { return false; }
      namedSchemas := namedSchemas[fullName := s];
      ok := true;
    }

    method ValidateUnionSchema(alts: seq<Schema>) returns (ok: bool)
      modifies this
      ensures Checked(ok, namedSchemas) == CheckSchema(UnionType(alts), old(namedSchemas))
      decreases alts
    {
      if alts == [] { return false; }
      var typeSet: set<Text> := {};
      var i := 0;
      assert alts[0..] == alts;
      while i < |alts|
        invariant 0 <= i <= |alts|
        invariant CheckAlternatives(alts, {}, old(namedSchemas)) == CheckAlternatives(alts[i..], typeSet, namedSchemas)
      {
        assert alts[i..][0] == alts[i] && alts[i..][1..] == alts[i + 1..];
        var valid := ValidateSchemaInternal(alts[i]);
        if !valid { return false; }
        var typeName := TypeName(alts[i]);
        if typeName in typeSet { return false; }
        typeSet := typeSet + {typeName};
        i := i + 1;
      }
      ok := true;
    }

    method ValidateFields(fields: seq<Field>) returns (ok: bool)
      modifies this
      ensures Checked(ok, namedSchemas) == CheckFields(fields, {}, old(namedSchemas))
      decreases fields
    {
      var fieldNames: set<Text> := {};
      var i := 0;
      assert fields[0..] == fields;
      while i < |fields|
        invariant 0 <= i <= |fields|
        invariant CheckFields(fields, {}, old(namedSchemas)) == CheckFields(fields[i..], fieldNames, namedSchemas)
      {
        assert fields[i..][0] == fields[i] && fields[i..][1..] == fields[i + 1..];
        if fields[i].name == [] { return false; }
        var valid := ValidateSchemaInternal(fields[i].type_);
        if !valid { return false; }
        if fields[i].name in fieldNames { return false; }
        fieldNames := fieldNames + {fields[i].name};
        i := i + 1;
      }
      ok := true;
    }

    method ValidateSymbols(symbols: seq<Text>, default: Option<Text>) returns (ok: bool)
      ensures ok == (symbols != [] && Distinct(symbols) && (default.Some? ==> default.value in symbols))
    {
      if symbols == [] { return false; }
      var symbolSet: set<Text> := {};
      var i := 0;
      while i < |symbols|
        invariant 0 <= i <= |symbols|
        invariant Distinct(symbols[..i]) && forall x :: x in symbolSet <==> x in symbols[..i]
      {
        if symbols[i] in symbolSet {
          var j :| 0 <= j < i && symbols[..i][j] == symbols[i];
          assert symbols[j] == symbols[i];
          return false;
        }
        assert symbols[..i + 1] == symbols[..i] + [symbols[i]];
        symbolSet := symbolSet + {symbols[i]};
        i := i + 1;
      }
      assert symbols[..i] == symbols;
      ok := default.None? || default.value in symbols;
    }
  }

  lemma VarintStep(done: seq<Byte>, m: nat)
    ensures m / 128 == 0 ==> Varint(m) == [m % 128]
    ensures m / 128 != 0 ==> m / 128 < m && done + Varint(m) == done + [m % 128 + 128] + Varint(m / 128)
  {
    if m / 128 != 0 { ConcatAssoc(done, [m % 128 + 128], Varint(m / 128)); }
  }

  class AvroEncoder {
    const writer: Writer

    constructor ()
      ensures fresh(writer) && fresh(writer.uint8) && writer.Valid() && writer.Pending() == []
    {
      writer := new Writer(64 * 1024);
    }

    ghost predicate Valid()
      reads writer
    {
      writer.Valid()
    }

    /** Both varint writers: they differ in the width of `n` only. */
    method WriteVarint(n: nat)
      requires Valid()
      modifies writer, writer.uint8
      ensures Valid() && writer.Pending() == old(writer.Pending()) + Varint(n)
      ensures writer.uint8 == old(writer.uint8) || fresh(writer.uint8)
    {
      hide Varint;
      var m := n;
      ghost var done: seq<Byte> := [];
      while true
        invariant Valid() && writer.Pending() == old(writer.Pending()) + done && done + Varint(m) == Varint(n)
        invariant writer.uint8 == old(writer.uint8) || fresh(writer.uint8)
        decreases m
      {
        VarintStep(done, m);
        var low7 := m % 128;
        m := m / 128;
        if m == 0 {
          writer.U8(low7);
          return;
        }
        writer.U8(low7 + 128);
        done := done + [low7 + 128];
      }
    }

    method WriteInt(n: I32)
      requires Valid()
      modifies writer, writer.uint8
      ensures Valid() && writer.Pending() == old(writer.Pending()) + Signed(n)
      ensures writer.uint8 == old(writer.uint8) || fresh(writer.uint8)
    {
      WriteVarint(ZigZag(n));
    }

    method WriteLong(n: I64)
      requires Valid()
      modifies writer, writer.uint8
      ensures Valid() && writer.Pending() == old(writer.Pending()) + Signed(n)
      ensures writer.uint8 == old(writer.uint8) || fresh(writer.uint8)
    {
      WriteVarint(ZigZag(n));
    }

    method WriteBoolean(b: bool)
      requires Valid()
      modifies writer, writer.uint8
      ensures Valid() && writer.Pending() == old(writer.Pending()) + [if b then 1 else 0]
      ensures writer.uint8 == old(writer.uint8) || fresh(writer.uint8)
    {
      writer.U8(if b then 1 else 0);
    }

    method WriteFloat(f: F32)
      requires Valid()
      modifies writer, writer.uint8
      ensures Valid() && writer.Pending() == old(writer.Pending()) + LittleEndian(f, 4)
      ensures writer.uint8 == old(writer.uint8) || fresh(writer.uint8)
    {
      writer.Buf(LittleEndian(f, 4));
    }

    method WriteDouble(f: F64)
      requires Valid()
      modifies writer, writer.uint8
      ensures Valid() && writer.Pending() == old(writer.Pending()) + LittleEndian(f, 8)
      ensures writer.uint8 == old(writer.uint8) || fresh(writer.uint8)
    {
      writer.Buf(LittleEndian(f, 8));
    }

    /** Bytes and strings alike. */
    method WriteBytes(data: seq<Byte>)
      requires Valid()
      modifies writer, writer.uint8
      ensures Valid() && writer.Pending() == old(writer.Pending()) + Prefixed(data)
      ensures writer.uint8 == old(writer.uint8) || fresh(writer.uint8)
    {
      WriteVarint(AsU32(|data|));
      writer.Buf(data);
    }
  }

  /** What is in the writer once `out` has been written behind `before`. */
  ghost predicate Wrote(before: seq<Byte>, after: seq<Byte>, error: Option<EncodeError>, out: Out) {
    after == before + out.bytes && error == out.error
  }

  class AvroSchemaEncoder {
    const encoder: AvroEncoder
    const validator: AvroSchemaValidator
    var named: Names

    constructor ()
      ensures encoder.Valid() && encoder.writer.Pending() == []
      ensures fresh(encoder) && fresh(validator) && fresh(encoder.writer) && fresh(encoder.writer.uint8)
    {
      encoder := new AvroEncoder();
      validator := new AvroSchemaValidator();
      named := map[];
    }

    method Encode(c: Platform, depth: nat, v: AvroValue, s: Schema) returns (result: Result<seq<Byte>, EncodeError>)
      requires encoder.Valid()
      modifies this, validator, encoder.writer, encoder.writer.uint8
      ensures encoder.Valid()
      ensures Session(encoder.writer.Pending(), result) == AvroSession.Encode(c, depth, old(encoder.writer.Pending()), v, s)
      ensures encoder.writer.uint8 == old(encoder.writer.uint8) || fresh(encoder.writer.uint8)
    {
      hide AvroSession.Encode, AvroCodec.WriteValue, CheckSchema, CheckValue, Collect, Wrote;
      ghost var pending := encoder.writer.Pending();
      Refused(c, depth, pending, v, s);
      named := map[];
      var valid := validator.ValidateSchema(s);
      if !valid { return Err(InvalidSchema); }
      var conforms := validator.ValidateValue(c, v, s);
      if !conforms { return Err(ValueDoesNotConform); }
      CollectNamed(s);
      var error := WriteValue(c, depth, v, s);
      Accepted(c, depth, pending, v, s, encoder.writer.Pending(), error);
      if error.Some? { return Err(error.value); }
      var bytes := encoder.writer.Flush();
      result := Ok(bytes);
    }

    static lemma Refused(c: Platform, depth: nat, pending: seq<Byte>, v: AvroValue, s: Schema)
      ensures var checked, r := CheckSchema(s, map[]), AvroSession.Encode(c, depth, pending, v, s);
              && (!checked.ok ==> r == Session(pending, Err(InvalidSchema)))
              && (checked.ok && !CheckValue(c, checked.names, v, s) ==> r == Session(pending, Err(ValueDoesNotConform)))
    {
      hide AvroCodec.WriteValue, CheckSchema, CheckValue, Collect;
    }

    static lemma Accepted(c: Platform, depth: nat, pending: seq<Byte>, v: AvroValue, s: Schema, after: seq<Byte>, error: Option<EncodeError>)
      requires CheckSchema(s, map[]).ok && CheckValue(c, CheckSchema(s, map[]).names, v, s)
      requires Wrote(pending, after, error, AvroCodec.WriteValue(c, Collect(s, map[]), depth, v, s))
      ensures AvroSession.Encode(c, depth, pending, v, s)
           == match error case Some(e) => Session(after, Err(e)) case None => Session([], Ok(after))
    {
      hide AvroCodec.WriteValue, CheckSchema, CheckValue, Collect;
    }

    method CollectNamed(s: Schema)
      modifies this
      ensures named == Collect(s, old(named))
      decreases s
    {
      match s {
        case RecordType(_, _, fields) =>
          named := named[FullName(s) := s];
          ghost var start := named;
          var i := 0;
          assert fields[0..] == fields;
          while i < |fields|
            invariant 0 <= i <= |fields| && CollectFields(fields, start) == CollectFields(fields[i..], named)
          {
            assert fields[i..][0] == fields[i] && fields[i..][1..] == fields[i + 1..];
            CollectNamed(fields[i].type_);
            i := i + 1;
          }
        case EnumType(_, _, _, _) => named := named[FullName(s) := s];
        case FixedType(_, _, _) => named := named[FullName(s) := s];
        case ArrayType(items) => CollectNamed(items);
        case MapType(values) => CollectNamed(values);
        case UnionType(alts) =>
          var i := 0;
          assert alts[0..] == alts;
          while i < |alts|
            invariant 0 <= i <= |alts| && CollectAll(alts, old(named)) == CollectAll(alts[i..], named)
          {
            assert alts[i..][0] == alts[i] && alts[i..][1..] == alts[i + 1..];
            CollectNamed(alts[i]);
            i := i + 1;
          }
        case _ => return;
      }
    }

    method WriteValue(c: Platform, depth: nat, v: AvroValue, s: Schema) returns (error: Option<EncodeError>)
      requires encoder.Valid()
      modifies encoder.writer, encoder.writer.uint8
      ensures encoder.Valid()
      ensures Wrote(old(encoder.writer.Pending()), encoder.writer.Pending(), error, AvroCodec.WriteValue(c, named, depth, v, s))
      ensures encoder.writer.uint8 == old(encoder.writer.uint8) || fresh(encoder.writer.uint8)
      decreases depth, 1
    {
      hide AvroCodec.WriteValue, WriteAs, WriterAt, Resolve;
      WriteLevel(c, named, depth, v, s);
      if depth == 0 { return Some(DepthExceeded); }
      var resolved := Resolve(named, s);
      if resolved.Err? { return Some(resolved.error); }
      error := WriteResolved(c, depth - 1, v, resolved.value);
    }

    /** The match on schema and value; `depth` is what is left for the values inside. */
    method WriteResolved(c: Platform, depth: nat, v: AvroValue, schema: Schema) returns (error: Option<EncodeError>)
      requires encoder.Valid()
      modifies encoder.writer, encoder.writer.uint8
      ensures encoder.Valid()
      ensures Wrote(old(encoder.writer.Pending()), encoder.writer.Pending(), error, WriteAs(c, named, WriterAt(c, named, depth), v, schema))
      ensures encoder.writer.uint8 == old(encoder.writer.uint8) || fresh(encoder.writer.uint8)
      decreases depth, 3
    {
      hide WriteFields, WriteBlock, WriteList, AvroCodec.WriteUnion, Branch, Signed, Prefixed, LittleEndian, WriterAt, AvroCodec.WriteValue;
      error := None;
      match schema {
        case NullType => if !v.Null? { error := Some(TypeMismatch); }
        case BooleanType => if v.Bool? { encoder.WriteBoolean(v.b); } else { error := Some(TypeMismatch); }
        case IntType =>
          if v.Int? { encoder.WriteInt(v.int32); }
          else if v.Long? && InI32(v.int64) { encoder.WriteInt(v.int64); }
          else { error := Some(TypeMismatch); }
        case LongType =>
          if v.Long? { encoder.WriteLong(v.int64); }
          else if v.Int? { encoder.WriteLong(v.int32); }
          else { error := Some(TypeMismatch); }
        case FloatType => if IsNumber(v) { encoder.WriteFloat(ToF32(c, v)); } else { error := Some(TypeMismatch); }
        case DoubleType => if IsNumber(v) { encoder.WriteDouble(ToF64(c, v)); } else { error := Some(TypeMismatch); }
        case BytesType => if v.Bytes? { encoder.WriteBytes(v.bytes); } else { error := Some(TypeMismatch); }
        case StringType => if v.Str? { encoder.WriteBytes(v.text); } else { error := Some(TypeMismatch); }
        case RecordType(_, _, fields) =>
          if v.Record? { error := WriteRecord(c, depth, v.pairs, fields); } else { error := Some(TypeMismatch); }
        case EnumType(_, _, symbols, _) =>
          if !v.Enum? { return Some(TypeMismatch); }
          var idx := Position(symbols, v.symbol);
          if idx.None? { return Some(SymbolNotFound(v.symbol)); }
          encoder.WriteInt(AsI32(idx.value));
        case ArrayType(items) =>
          if v.Array? { error := WriteArray(c, depth, v.items, items); } else { error := Some(TypeMismatch); }
        case MapType(values) =>
          if v.Map? { error := WriteMap(c, depth, v.entries, values); } else { error := Some(TypeMismatch); }
        case FixedType(_, _, size) =>
          if !v.Fixed? { return Some(TypeMismatch); }
          if |v.data| != size { return Some(FixedSizeMismatch); }
          encoder.writer.Buf(v.data);
        case UnionType(alts) => error := WriteUnion(c, depth, v, alts);
        case RefType(_) => error := Some(TypeMismatch);
      }
    }

    method WriteRecord(c: Platform, depth: nat, pairs: seq<Entry>, fields: seq<Field>) returns (error: Option<EncodeError>)
      requires encoder.Valid()
      modifies encoder.writer, encoder.writer.uint8
      ensures encoder.Valid()
      ensures Wrote(old(encoder.writer.Pending()), encoder.writer.Pending(), error, WriteFields(WriterAt(c, named, depth), pairs, fields))
      ensures encoder.writer.uint8 == old(encoder.writer.uint8) || fresh(encoder.writer.uint8)
      decreases depth, 2
    {
      ghost var wv, before, done := WriterAt(c, named, depth), encoder.writer.Pending(), [];
      var i := 0;
      assert fields[0..] == fields;
      while i < |fields|
        invariant 0 <= i <= |fields| && encoder.Valid() && encoder.writer.Pending() == before + done
        invariant WriteFields(wv, pairs, fields) == Then(Done(done), WriteFields(wv, pairs, fields[i..]))
        invariant encoder.writer.uint8 == old(encoder.writer.uint8) || fresh(encoder.writer.uint8)
      {
        assert fields[i..][0] == fields[i] && fields[i..][1..] == fields[i + 1..];
        var val := FieldValue(pairs, fields[i]);
        if val.None? { return Some(MissingField(fields[i].name)); }
        error := WriteValue(c, depth, val.value, fields[i].type_);
        ghost var out := wv(val.value, fields[i].type_);
        ConcatAssoc(before, done, out.bytes);
        if error.Some? { return; }
        ConcatAssoc(done, out.bytes, WriteFields(wv, pairs, fields[i + 1..]).bytes);
        done := done + out.bytes;
        i := i + 1;
      }
      error := None;
      assert fields[i..] == [];
    }

    method WriteArray(c: Platform, depth: nat, vs: seq<AvroValue>, items: Schema) returns (error: Option<EncodeError>)
      requires encoder.Valid()
      modifies encoder.writer, encoder.writer.uint8
      ensures encoder.Valid()
      ensures Wrote(old(encoder.writer.Pending()), encoder.writer.Pending(), error,
                    WriteBlock(|vs|, WriteList(ItemWriter(WriterAt(c, named, depth), items), vs)))
      ensures encoder.writer.uint8 == old(encoder.writer.uint8) || fresh(encoder.writer.uint8)
      decreases depth, 2
    {
      hide WriteList, WriteBlock, AvroCodec.WriteValue, AsU32, Varint, WriterAt, ItemWriter, Then;
      ghost var we, before := ItemWriter(WriterAt(c, named, depth), items), encoder.writer.Pending();
      encoder.WriteVarint(AsU32(|vs|));
      ghost var done, counted := [], encoder.writer.Pending();
      var i := 0;
      assert vs[0..] == vs;
      ListStart(we, vs);
      while i < |vs|
        invariant 0 <= i <= |vs| && encoder.Valid() && encoder.writer.Pending() == counted + done
        invariant WriteList(we, vs) == Then(Done(done), WriteList(we, vs[i..]))
        invariant encoder.writer.uint8 == old(encoder.writer.uint8) || fresh(encoder.writer.uint8)
      {
        error := WriteValue(c, depth, vs[i], items);
        ItemWritten(c, named, depth, items, vs[i]);
        ListOn(we, vs, i, done, before, counted, encoder.writer.Pending(), error);
        if error.Some? { return; }
        done := done + we(vs[i]).bytes;
        i := i + 1;
      }
      ListEnd(we, vs, done);
      encoder.WriteVarint(0);
      BlockWritten(before, |vs|, done);
      error := None;
    }

    method WriteMap(c: Platform, depth: nat, es: seq<Entry>, values: Schema) returns (error: Option<EncodeError>)
      requires encoder.Valid()
      modifies encoder.writer, encoder.writer.uint8
      ensures encoder.Valid()
      ensures Wrote(old(encoder.writer.Pending()), encoder.writer.Pending(), error,
                    WriteBlock(|es|, WriteList(EntryWriter(WriterAt(c, named, depth), values), es)))
      ensures encoder.writer.uint8 == old(encoder.writer.uint8) || fresh(encoder.writer.uint8)
      decreases depth, 2
    {
      hide WriteList, WriteBlock, AvroCodec.WriteValue, AsU32, Varint, Prefixed, WriterAt, EntryWriter, Then;
      ghost var wv := WriterAt(c, named, depth);
      ghost var we, before := EntryWriter(wv, values), encoder.writer.Pending();
      encoder.WriteVarint(AsU32(|es|));
      ghost var done, counted := [], encoder.writer.Pending();
      var i := 0;
      assert es[0..] == es;
      ListStart(we, es);
      while i < |es|
        invariant 0 <= i <= |es| && encoder.Valid() && encoder.writer.Pending() == counted + done
        invariant WriteList(we, es) == Then(Done(done), WriteList(we, es[i..]))
        invariant encoder.writer.uint8 == old(encoder.writer.uint8) || fresh(encoder.writer.uint8)
      {
        encoder.WriteBytes(es[i].key);
        error := WriteValue(c, depth, es[i].value, values);
        EntryWrote(c, named, depth, values, es[i], counted + done, encoder.writer.Pending(), error);
        ListOn(we, es, i, done, before, counted, encoder.writer.Pending(), error);
        if error.Some? { return; }
        done := done + we(es[i]).bytes;
        i := i + 1;
      }
      ListEnd(we, es, done);
      encoder.WriteVarint(0);
      BlockWritten(before, |es|, done);
      error := None;
    }

    method WriteUnion(c: Platform, depth: nat, v: AvroValue, alts: seq<Schema>) returns (error: Option<EncodeError>)
      requires encoder.Valid()
      modifies encoder.writer, encoder.writer.uint8
      ensures encoder.Valid()
      ensures Wrote(old(encoder.writer.Pending()), encoder.writer.Pending(), error,
                    AvroCodec.WriteUnion(WriterAt(c, named, depth), v, Branch(named, v, alts), alts))
      ensures encoder.writer.uint8 == old(encoder.writer.uint8) || fresh(encoder.writer.uint8)
      decreases depth, 2
    {
      ghost var before := encoder.writer.Pending();
      var index := 0;
      if v.Union? {
        if v.index >= |alts| { return Some(UnionIndexOutOfRange); }
        index := v.index;
      } else {
        while index < |alts| && !Matches(named, v, alts[index])
          invariant 0 <= index <= |alts| && forall j :: 0 <= j < index ==> !Matches(named, v, alts[j])
        {
          index := index + 1;
        }
        FirstIs(named, v, alts, index);
        if index == |alts| { return Some(UnionNoMatchingType); }
      }
      encoder.WriteInt(AsI32(index));
      error := WriteValue(c, depth, Payload(v), alts[index]);
      ConcatAssoc(before, Signed(AsI32(index)), AvroCodec.WriteValue(c, named, depth, Payload(v), alts[index]).bytes);
    }
  }

  lemma FirstIs(names: Names, v: AvroValue, alts: seq<Schema>, i: nat)
    requires i <= |alts| && (forall j :: 0 <= j < i ==> !Matches(names, v, alts[j])) && (i < |alts| ==> Matches(names, v, alts[i]))
    ensures FirstMatch(names, v, alts) == if i < |alts| then Some(i) else None
  {
    assert i < |alts| ==> Matches(names, v, alts[i]);
  }

  lemma EntryWrote(c: Platform, names: Names, depth: nat, s: Schema, e: Entry, before: seq<Byte>, after: seq<Byte>, error: Option<EncodeError>)
    requires Wrote(before + Prefixed(e.key), after, error, AvroCodec.WriteValue(c, names, depth, e.value, s))
    ensures Wrote(before, after, error, EntryWriter(WriterAt(c, names, depth), s)(e))
  {
    hide AvroCodec.WriteValue, Prefixed;
    EntryWritten(WriterAt(c, names, depth), s, e);
    ConcatAssoc(before, Prefixed(e.key), AvroCodec.WriteValue(c, names, depth, e.value, s).bytes);
  }

  lemma ItemWritten(c: Platform, names: Names, depth: nat, s: Schema, v: AvroValue)
    ensures ItemWriter(WriterAt(c, names, depth), s)(v) == AvroCodec.WriteValue(c, names, depth, v, s)
  {
    hide AvroCodec.WriteValue;
  }

  lemma ListStart<T>(we: T -> Out, xs: seq<T>)
    ensures WriteList(we, xs) == Then(Done([]), WriteList(we, xs))
  {
  }

  lemma ListStep<T>(we: T -> Out, xs: seq<T>, i: nat, done: seq<Byte>)
    requires i < |xs| && WriteList(we, xs) == Then(Done(done), WriteList(we, xs[i..]))
    ensures var out := we(xs[i]);
            WriteList(we, xs) == if out.error.Some? then Out(done + out.bytes, out.error) else Then(Done(done + out.bytes), WriteList(we, xs[i + 1..]))
  {
    assert xs[i..][0] == xs[i] && xs[i..][1..] == xs[i + 1..];
    ConcatAssoc(done, we(xs[i]).bytes, WriteList(we, xs[i + 1..]).bytes);
  }

  /** One element more: what was written stops the block, or is done too. */
  lemma ListOn<T>(we: T -> Out, xs: seq<T>, i: nat, done: seq<Byte>, before: seq<Byte>, counted: seq<Byte>, after: seq<Byte>, error: Option<EncodeError>)
    requires i < |xs| && WriteList(we, xs) == Then(Done(done), WriteList(we, xs[i..]))
    requires counted == before + Varint(AsU32(|xs|)) && Wrote(counted + done, after, error, we(xs[i]))
    ensures error.Some? ==> Wrote(before, after, error, WriteBlock(|xs|, WriteList(we, xs)))
    ensures error.None? ==> after == counted + (done + we(xs[i]).bytes)
    ensures error.None? ==> WriteList(we, xs) == Then(Done(done + we(xs[i]).bytes), WriteList(we, xs[i + 1..]))
  {
    hide WriteList, WriteBlock, Varint, AsU32;
    ListStep(we, xs, i, done);
    ConcatAssoc(counted, done, we(xs[i]).bytes);
    if error.Some? { BlockStopped(before, |xs|, done + we(xs[i]).bytes, error); }
  }

  lemma ListEnd<T>(we: T -> Out, xs: seq<T>, done: seq<Byte>)
    requires WriteList(we, xs) == Then(Done(done), WriteList(we, xs[|xs|..]))
    ensures WriteList(we, xs) == Done(done)
  {
    assert xs[|xs|..] == [];
    assert done + [] == done;
  }

  lemma BlockStopped(before: seq<Byte>, count: nat, done: seq<Byte>, error: Option<EncodeError>)
    requires error.Some?
    ensures Wrote(before, before + Varint(AsU32(count)) + done, error, WriteBlock(count, Out(done, error)))
  {
    ConcatAssoc(before, Varint(AsU32(count)), done);
  }

  lemma BlockWritten(before: seq<Byte>, count: nat, done: seq<Byte>)
    ensures Wrote(before, before + Varint(AsU32(count)) + done + Varint(0), None, WriteBlock(count, Done(done)))
  {
    var a, z := Varint(AsU32(count)), Varint(0);
    ConcatAssoc(before, a, done);
    ConcatAssoc(before, a + done, z);
  }
}
