/** The BSON encoder and decoder as they run, a growing buffer and a moving cursor, each method shown to do what module Bson says. */
module BsonCodec {
  import opened Common
  import opened Bytes
  import opened Decimals
  import opened Bson

  // ---------------------------------------------------------------- encoder

  class Buffer {
    var bytes: seq<Byte>

    constructor ()
      ensures bytes == []
    {
      bytes := [];
    }

    method Push(b: Byte)
      modifies this
      ensures bytes == old(bytes) + [b]
    {
      bytes := bytes + [b];
    }

    method Extend(more: seq<Byte>)
      modifies this
      ensures bytes == old(bytes) + more
    {
      bytes := bytes + more;
    }

    /** Overwrites bytes written earlier. */
    method Patch(at: nat, with: seq<Byte>)
      requires at + |with| <= |bytes|
      modifies this
      ensures bytes == old(bytes)[..at] + with + old(bytes)[at + |with|..]
    {
      bytes := bytes[..at] + with + bytes[at + |with|..];
    }

    /** Up to the first NUL, then a NUL. */
    method WriteCString(s: Text)
      modifies this
      ensures bytes == old(bytes) + CString(s)
    {
      var i := 0;
      while i < |s| && s[i] != 0
        invariant 0 <= i <= |s| && bytes == old(bytes) + s[..i] && CutAtNul(s) == s[..i] + CutAtNul(s[i..])
      {
        assert s[i..][0] == s[i] && s[i..][1..] == s[i + 1..] && s[..i + 1] == s[..i] + [s[i]];
        ConcatAssoc(s[..i], [s[i]], CutAtNul(s[i + 1..]));
        Push(s[i]);
        i := i + 1;
      }
      assert CutAtNul(s[i..]) == [] && s[..i] + [] == s[..i];
      Push(0);
    }

    method WriteString(s: Text)
      modifies this
      ensures bytes == old(bytes) + StringBytes(s)
    {
      Extend(LengthBytes(|s| + 1));
      Extend(s);
      Push(0);
    }

    method WriteObjectId(id: ObjectIdParts)
      modifies this
      ensures bytes == old(bytes) + ObjectIdBytes(id)
    {
      Extend(BigEndian(id.timestamp, 4));
      Extend(LittleEndian(id.process, 5));
      Extend(BigEndian(id.counter, 3));
    }

    /** Not `ok` where the source panics: the buffer is then gone with the call. */
    method WriteKeyValue(key: Text, v: BsonValue) returns (ok: bool)
      modifies this
      ensures ok == Encodable(v) && (ok ==> bytes == old(bytes) + FieldBytes(key, v))
      decreases v, 2
    {
      ghost var before := bytes;
      Push(TypeByte(v));
      WriteCString(key);
      ghost var head := bytes;
      ok := WriteContent(v);
      assert head == before + ([TypeByte(v)] + CString(key));
      assert [TypeByte(v)] + CString(key) + ValueBytes(v) == FieldBytes(key, v);
    }

    method WriteContent(v: BsonValue) returns (ok: bool)
      modifies this
      ensures ok == Encodable(v) && (ok ==> bytes == old(bytes) + ValueBytes(v))
      decreases v, 1
    {
      hide LengthBytes, Int32Bytes, ObjectIdBytes, StringBytes, CString, Framed, FieldsBytes, ItemsBytes, EncodableFields, EncodableItems;
      ok := true;
      match v {
        case Float(f) => Extend(LittleEndian(f, 8));
        case Str(s) => WriteString(s);
        case Document(fields) =>
          var doc := WriteDocument(fields);
          if doc.None? { return false; }
          Extend(doc.value);
        case Array(items) =>
          var doc := WriteArray(items);
          if doc.None? { return false; }
          Extend(doc.value);
        case Binary(subtype, data) =>
          Extend(LengthBytes(|data|));
          Push(subtype);
          Extend(data);
        case Undefined => assert bytes + [] == bytes;
        case ObjectId(id) => WriteObjectId(id);
        case Boolean(b) => Push(if b then 1 else 0);
        case DateTime(ms) => Extend(LittleEndian(Word64(ms), 8));
        case Null => assert bytes + [] == bytes;
        case Regex(pattern, flags) =>
          WriteCString(pattern);
          WriteCString(flags);
        case DbPointer(name, id) =>
          WriteString(name);
          WriteObjectId(id);
        case JavaScriptCode(code) => WriteString(code);
        case Symbol(symbol) => WriteString(symbol);
        case JavaScriptCodeWithScope(code, scope) => ok := WriteCodeWithScope(code, scope);
        case Int32(i) => Extend(Int32Bytes(i));
        case Timestamp(increment, timestamp) =>
          Extend(Int32Bytes(increment));
          Extend(Int32Bytes(timestamp));
        case Int64(n) => Extend(LittleEndian(Word64(n), 8));
        case Decimal128(decimal) =>
          if |decimal| != 16 { return false; }
          Extend(decimal);
        case MinKey => assert bytes + [] == bytes;
        case MaxKey => assert bytes + [] == bytes;
      }
    }

    /** Leaves room for the total length and fills it in at the end. */
    method WriteCodeWithScope(code: Text, scope: seq<BsonField>) returns (ok: bool)
      modifies this
      ensures ok == EncodableFields(scope) && (ok ==> bytes == old(bytes) + ValueBytes(JavaScriptCodeWithScope(code, scope)))
      decreases scope, 3
    {
      hide LengthBytes, StringBytes, Framed, EncodableFields;
      ghost var before := bytes;
      var lenStart := |bytes|;
      Extend([0, 0, 0, 0]);
      WriteString(code);
      var scopeDoc := WriteDocument(scope);
      if scopeDoc.None? { return false; }
      Extend(scopeDoc.value);
      var totalLen := |bytes| - lenStart;
      ghost var body := StringBytes(code) + Framed(FieldsBytes(scope));
      assert bytes == before + ([0, 0, 0, 0] + body);
      Patch(lenStart, LengthBytes(totalLen));
      assert bytes == before + LengthBytes(|body| + 4) + body;
      ok := true;
    }
  }

  method WriteDocument(fields: seq<BsonField>) returns (result: Option<seq<Byte>>)
    ensures result == if EncodableFields(fields) then Some(Encode(fields)) else None
    decreases fields, 2
  {
    var body := new Buffer();
    var i := 0;
    assert fields[0..] == fields && [] + FieldsBytes(fields) == FieldsBytes(fields);
    while i < |fields|
      invariant 0 <= i <= |fields| && fresh(body) && body.bytes + FieldsBytes(fields[i..]) == FieldsBytes(fields)
      invariant EncodableFields(fields) == EncodableFields(fields[i..])
    {
      assert fields[i..][0] == fields[i] && fields[i..][1..] == fields[i + 1..];
      ConcatAssoc(body.bytes, FieldBytes(fields[i].key, fields[i].value), FieldsBytes(fields[i + 1..]));
      var ok := body.WriteKeyValue(fields[i].key, fields[i].value);
      if !ok { return None; }
      i := i + 1;
    }
    assert fields[i..] == [];
    assert body.bytes + [] == body.bytes;
    var framed := Finish(body.bytes);
    result := Some(framed);
  }

  /** The elements of an array under their positions. */
  method WriteArray(items: seq<BsonValue>) returns (result: Option<seq<Byte>>)
    ensures result == if EncodableItems(items) then Some(Framed(ItemsBytes(items, 0))) else None
    decreases items, 2
  {
    var body := new Buffer();
    var i := 0;
    assert items[0..] == items && [] + ItemsBytes(items, 0) == ItemsBytes(items, 0);
    while i < |items|
      invariant 0 <= i <= |items| && fresh(body) && body.bytes + ItemsBytes(items[i..], i) == ItemsBytes(items, 0)
      invariant EncodableItems(items) == EncodableItems(items[i..])
    {
      assert items[i..][0] == items[i] && items[i..][1..] == items[i + 1..];
      ConcatAssoc(body.bytes, FieldBytes(Decimal(i), items[i]), ItemsBytes(items[i + 1..], i + 1));
      var ok := body.WriteKeyValue(Decimal(i), items[i]);
      if !ok { return None; }
      i := i + 1;
    }
    assert items[i..] == [];
    assert body.bytes + [] == body.bytes;
    var framed := Finish(body.bytes);
    result := Some(framed);
  }

  method Finish(body: seq<Byte>) returns (result: seq<Byte>)
    ensures result == Framed(body)
  {
    var closed := body + [0];
    var size := |closed| + 4;
    result := LengthBytes(size) + closed;
  }

  // ---------------------------------------------------------------- decoder

  ghost predicate Agrees<T>(x: nat, result: Result<T, BsonError>, spec: At<T>) {
    && x == spec.x && result.Ok? == spec.result.Ok?
    && (result.Ok? ==> result.value == spec.result.value)
    && (result.Err? ==> result.error == spec.result.error)
  }

  class BsonDecoder {
    var data: seq<Byte>
    var x: nat

    constructor ()
      ensures data == [] && x == 0
    {
      data, x := [], 0;
    }

    method Decode(utf8: Text -> bool, data: seq<Byte>) returns (r: Result<seq<BsonField>, BsonError>)
      modifies this
      ensures this.data == data && Agrees(x, r, Bson.Decode(utf8, data))
    {
      hide Bson.ReadDocument;
      this.data := data;
      x := 0;
      r := ReadDocument(utf8);
    }

    method Buf(n: nat) returns (r: Result<seq<Byte>, BsonError>)
      modifies this`x
      ensures Agrees(x, r, Take(data, old(x), n))
    {
      if x + n >= USIZE { return Err(Panics); }
      if x + n > |data| { return Err(UnexpectedEof); }
      r := Ok(data[x..x + n]);
      x := x + n;
    }

    method Int32Le() returns (r: Result<I32, BsonError>)
      modifies this`x
      ensures Agrees(x, r, ReadInt32(data, old(x)))
    {
      var b := Buf(4);
      if b.Err? { return Err(b.error); }
      LittleEndianBound(b.value);
      r := Ok(Signed32(FromLittleEndian(b.value)));
    }

    method Word64Le() returns (r: Result<F64, BsonError>)
      modifies this`x
      ensures Agrees(x, r, ReadWord64(data, old(x)))
    {
      var b := Buf(8);
      if b.Err? { return Err(b.error); }
      LittleEndianBound(b.value);
      r := Ok(FromLittleEndian(b.value));
    }

    method ReadCString(utf8: Text -> bool) returns (r: Result<Text, BsonError>)
      modifies this`x
      ensures Agrees(x, r, Bson.ReadCString(utf8, data, old(x)))
    {
      var start := x;
      while x < |data| && data[x] != 0
        invariant start <= x && (start <= |data| ==> x <= |data|) && (start > |data| ==> x == start)
        invariant FindNul(data, start) == FindNul(data, x)
        decreases Left(data, x)
      {
        x := x + 1;
      }
      if x >= |data| { return Err(UnexpectedEof); }
      var s := data[start..x];
      if !utf8(s) { return Err(InvalidUtf8); }
      x := x + 1;
      r := Ok(s);
    }

    method ReadString(utf8: Text -> bool) returns (r: Result<Text, BsonError>)
      modifies this`x
      ensures Agrees(x, r, Bson.ReadString(utf8, data, old(x)))
    {
      hide ReadInt32;
      var length := Int32Le();
      if length.Err? { return Err(length.error); }
      if length.value == 0 { return Ok([]); }
      var s := Buf(AsUsize(length.value) - 1);
      if s.Err? { return Err(s.error); }
      if !utf8(s.value) { return Err(InvalidUtf8); }
      x := x + 1;
      r := Ok(s.value);
    }

    method ReadObjectId() returns (r: Result<ObjectIdParts, BsonError>)
      modifies this`x
      ensures Agrees(x, r, Bson.ReadObjectId(data, old(x)))
    {
      var b := Buf(12);
      if b.Err? { return Err(b.error); }
      r := Ok(ObjectIdFrom(b.value));
    }

    method ReadDocument(utf8: Text -> bool) returns (r: Result<seq<BsonField>, BsonError>)
      modifies this`x
      ensures Agrees(x, r, Bson.ReadDocument(utf8, data, old(x)))
      decreases Left(data, x), 1
    {
      hide ReadInt32, Bson.ReadFields;
      var documentSize := Int32Le();
      if documentSize.Err? { return Err(documentSize.error); }
      var stated := AsUsize(documentSize.value);
      var startPos := x;
      if startPos + stated >= USIZE + 4 { return Err(Panics); }
      if startPos + (if stated > 4 then stated - 4 else 0) > |data| { return Err(UnexpectedEof); }
      if startPos + stated < 5 { return Err(Panics); }
      var endPos := startPos + stated - 5;
      r := ReadFields(utf8, endPos);
      if r.Ok? && x <= endPos { x := endPos + 1; }
    }

    /** The loop over the elements. */
    method ReadFields(utf8: Text -> bool, endPos: nat) returns (r: Result<seq<BsonField>, BsonError>)
      modifies this`x
      ensures Agrees(x, r, Bson.ReadFields(utf8, data, old(x), endPos))
      decreases Left(data, x), 2
    {
      hide Bson.ReadElementValue, Bson.ReadCString;
      ghost var whole := Bson.ReadFields(utf8, data, x, endPos);
      var fields := [];
      FieldsStart(whole);
      while x < endPos
        invariant old(x) <= x && Continues(whole, fields, Bson.ReadFields(utf8, data, x, endPos))
        decreases Left(data, x), endPos - x
      {
        ghost var more := Bson.ReadFields(utf8, data, x, endPos);
        var elementType := Buf(1);
        if elementType.Err? { return Err(elementType.error); }
        if elementType.value[0] == 0 {
          assert fields + [] == fields;
          return Ok(fields);
        }
        var key := ReadCString(utf8);
        if key.Err? { return Err(key.error); }
        var value := ReadElementValue(utf8, elementType.value[0]);
        if value.Err? { return Err(value.error); }
        FieldsOn(whole, fields, more, BsonField(key.value, value.value), Bson.ReadFields(utf8, data, x, endPos));
        fields := fields + [BsonField(key.value, value.value)];
      }
      assert fields + [] == fields;
      r := Ok(fields);
    }

    method ReadElementValue(utf8: Text -> bool, typ: Byte) returns (r: Result<BsonValue, BsonError>)
      modifies this`x
      ensures Agrees(x, r, Bson.ReadElementValue(utf8, data, old(x), typ))
      decreases Left(data, x), 3
    {
      hide Bson.ReadDocument, Bson.ReadCodeWithScope, Bson.ReadLeaf;
      if typ == 0x03 {
        var fields := ReadDocument(utf8);
        r := if fields.Ok? then Ok(Document(fields.value)) else Err(fields.error);
      } else if typ == 0x04 {
        var fields := ReadDocument(utf8);
        r := if fields.Ok? then Ok(Array(InKeyOrder(fields.value))) else Err(fields.error);
      } else if typ == 0x0f {
        r := ReadCodeWithScope(utf8);
      } else {
        r := ReadLeaf(utf8, typ);
      }
    }

    method ReadCodeWithScope(utf8: Text -> bool) returns (r: Result<BsonValue, BsonError>)
      modifies this`x
      ensures Agrees(x, r, Bson.ReadCodeWithScope(utf8, data, old(x)))
      decreases Left(data, x), 2
    {
      hide Bson.ReadDocument, Bson.ReadString, ReadInt32;
      var total := Int32Le();
      if total.Err? { return Err(total.error); }
      var code := ReadString(utf8);
      if code.Err? { return Err(code.error); }
      var scope := ReadDocument(utf8);
      r := if scope.Ok? then Ok(JavaScriptCodeWithScope(code.value, scope.value)) else Err(scope.error);
    }

    method ReadLeaf(utf8: Text -> bool, typ: Byte) returns (r: Result<BsonValue, BsonError>)
      modifies this`x
      ensures Agrees(x, r, Bson.ReadLeaf(utf8, data, old(x), typ))
    {
      hide ReadInt32, ReadWord64, Bson.ReadString, Bson.ReadCString, Bson.ReadObjectId, Bson.ReadBinary, Bson.ReadRegex, Bson.ReadDbPointer, Bson.ReadTimestamp;
      if typ == 0x01 || typ == 0x09 || typ == 0x12 {
        var w := Word64Le();
        if w.Err? { return Err(w.error); }
        r := Ok(if typ == 0x01 then Float(w.value) else if typ == 0x09 then DateTime(Signed64(w.value)) else Int64(Signed64(w.value)));
      } else if typ == 0x02 || typ == 0x0d || typ == 0x0e {
        var s := ReadString(utf8);
        if s.Err? { return Err(s.error); }
        r := Ok(if typ == 0x02 then Str(s.value) else if typ == 0x0d then JavaScriptCode(s.value) else Symbol(s.value));
      } else if typ == 0x05 {
        r := ReadBinary();
      } else if typ == 0x06 {
        r := Ok(Undefined);
      } else if typ == 0x07 {
        var id := ReadObjectId();
        r := if id.Ok? then Ok(ObjectId(id.value)) else Err(id.error);
      } else if typ == 0x08 {
        var b := Buf(1);
        r := if b.Ok? then Ok(Boolean(b.value[0] == 1)) else Err(b.error);
      } else if typ == 0x0a {
        r := Ok(Null);
      } else if typ == 0x0b {
        r := ReadRegex(utf8);
      } else if typ == 0x0c {
        r := ReadDbPointer(utf8);
      } else if typ == 0x10 {
        var n := Int32Le();
        r := if n.Ok? then Ok(Int32(n.value)) else Err(n.error);
      } else if typ == 0x11 {
        r := ReadTimestamp();
      } else if typ == 0x13 {
        var d := Buf(16);
        r := if d.Ok? then Ok(Decimal128(d.value)) else Err(d.error);
      } else if typ == 0xff {
        r := Ok(MinKey);
      } else if typ == 0x7f {
        r := Ok(MaxKey);
      } else {
        r := Err(UnsupportedType(typ));
      }
    }

    method ReadBinary() returns (r: Result<BsonValue, BsonError>)
      modifies this`x
      ensures Agrees(x, r, Bson.ReadBinary(data, old(x)))
    {
      hide ReadInt32;
      var length := Int32Le();
      if length.Err? { return Err(length.error); }
      var subtype := Buf(1);
      if subtype.Err? { return Err(subtype.error); }
      var d := Buf(AsUsize(length.value));
      r := if d.Ok? then Ok(Binary(subtype.value[0], d.value)) else Err(d.error);
    }

    method ReadRegex(utf8: Text -> bool) returns (r: Result<BsonValue, BsonError>)
      modifies this`x
      ensures Agrees(x, r, Bson.ReadRegex(utf8, data, old(x)))
    {
      hide Bson.ReadCString;
      var pattern := ReadCString(utf8);
      if pattern.Err? { return Err(pattern.error); }
      var flags := ReadCString(utf8);
      r := if flags.Ok? then Ok(Regex(pattern.value, flags.value)) else Err(flags.error);
    }

    method ReadDbPointer(utf8: Text -> bool) returns (r: Result<BsonValue, BsonError>)
      modifies this`x
      ensures Agrees(x, r, Bson.ReadDbPointer(utf8, data, old(x)))
    {
      hide Bson.ReadString, Bson.ReadObjectId;
      var name := ReadString(utf8);
      if name.Err? { return Err(name.error); }
      var id := ReadObjectId();
      r := if id.Ok? then Ok(DbPointer(name.value, id.value)) else Err(id.error);
    }

    method ReadTimestamp() returns (r: Result<BsonValue, BsonError>)
      modifies this`x
      ensures Agrees(x, r, Bson.ReadTimestamp(data, old(x)))
    {
      hide ReadInt32;
      var increment := Int32Le();
      if increment.Err? { return Err(increment.error); }
      var timestamp := Int32Le();
      r := if timestamp.Ok? then Ok(Timestamp(increment.value, timestamp.value)) else Err(timestamp.error);
    }
  }

  /** Fields read so far, and what a read of the rest makes of the whole. */
  ghost predicate Continues(whole: At<seq<BsonField>>, got: seq<BsonField>, more: At<seq<BsonField>>) {
    && whole.x == more.x && whole.result.Ok? == more.result.Ok?
    && (more.result.Ok? ==> whole.result.value == got + more.result.value)
    && (more.result.Err? ==> whole.result.error == more.result.error)
  }

  lemma FieldsStart(whole: At<seq<BsonField>>)
    ensures Continues(whole, [], whole)
  {
    if whole.result.Ok? { assert [] + whole.result.value == whole.result.value; }
  }

  lemma FieldsOn(whole: At<seq<BsonField>>, got: seq<BsonField>, more: At<seq<BsonField>>, f: BsonField, left: At<seq<BsonField>>)
    requires Continues(whole, got, more) && more == MapAt(left, (fs: seq<BsonField>) => [f] + fs)
    ensures Continues(whole, got + [f], left)
  {
    if left.result.Ok? { ConcatAssoc(got, [f], left.result.value); }
  }
}
