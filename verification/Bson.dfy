/** BSON documents, what the encoder of crates/json-joy-json-pack/src/bson/encoder.rs writes and what the decoder of decoder.rs reads, by position. */
module Bson {
  import opened Common
  import opened Bytes
  import opened Decimals

  datatype ObjectIdParts = ObjectIdParts(timestamp: nat, process: nat, counter: nat)

  datatype BsonField = BsonField(key: Text, value: BsonValue)

  datatype BsonValue =
    | Float(f: F64)
    | Str(s: Text)
    | Document(fields: seq<BsonField>)
    | Array(items: seq<BsonValue>)
    | Binary(subtype: Byte, data: seq<Byte>)
    | Undefined
    | ObjectId(id: ObjectIdParts)
    | Boolean(b: bool)
    | DateTime(ms: I64)
    | Null
    | Regex(pattern: Text, flags: Text)
    | DbPointer(name: Text, id: ObjectIdParts)
    | JavaScriptCode(code: Text)
    | Symbol(symbol: Text)
    | JavaScriptCodeWithScope(code: Text, scope: seq<BsonField>)
    | Int32(i: I32)
    | Timestamp(increment: I32, timestamp: I32)
    | Int64(n: I64)
    | Decimal128(decimal: seq<Byte>)
    | MinKey
    | MaxKey

  /** `Panics` stands for the arithmetic and slicing the program does not guard. */
  datatype BsonError = UnexpectedEof | InvalidUtf8 | UnsupportedType(t: Byte) | Panics

  // ---------------------------------------------------------------- words

  /** The two's-complement word of a signed number, and back. */
  function Word32(n: I32): nat {
    if n < 0 then n + 0x1_0000_0000 else n
  }

  function Signed32(w: nat): I32
    requires w < 0x1_0000_0000
  {
    if w < 0x8000_0000 then w else w - 0x1_0000_0000
  }

  function Word64(n: I64): nat {
    if n < 0 then n + 0x1_0000_0000_0000_0000 else n
  }

  function Signed64(w: nat): I64
    requires w < 0x1_0000_0000_0000_0000
  {
    if w < 0x8000_0000_0000_0000 then w else w - 0x1_0000_0000_0000_0000
  }

  function Int32Bytes(n: I32): (r: seq<Byte>)
    ensures |r| == 4
  {
    LittleEndian(Word32(n), 4)
  }

  /** A length as the 32-bit number it is written as. */
  function LengthBytes(n: nat): (r: seq<Byte>)
    ensures |r| == 4
  {
    Int32Bytes(AsI32(n))
  }

  // ---------------------------------------------------------------- encoder

  /** The bytes in front of the first NUL. */
  function CutAtNul(s: Text): (r: Text)
    ensures forall i :: 0 <= i < |r| ==> r[i] != 0
    ensures |r| <= |s| && r == s[..|r|]
    ensures |r| < |s| ==> s[|r|] == 0
  {
    if s == [] || s[0] == 0 then [] else
    var r := [s[0]] + CutAtNul(s[1..]);
    assert r == s[..|r|];
    r
  }

  function CString(s: Text): seq<Byte> {
    CutAtNul(s) + [0]
  }

  function StringBytes(s: Text): seq<Byte> {
    LengthBytes(|s| + 1) + (s + [0])
  }

  /** Timestamp and counter most significant byte first, the process number between them least. */
  function ObjectIdBytes(id: ObjectIdParts): (r: seq<Byte>)
    ensures |r| == 12
  {
    BigEndian(id.timestamp, 4) + (LittleEndian(id.process, 5) + BigEndian(id.counter, 3))
  }

  function TypeByte(v: BsonValue): Byte {
    match v
    case Float(_) => 0x01
    case Str(_) => 0x02
    case Document(_) => 0x03
    case Array(_) => 0x04
    case Binary(_, _) => 0x05
    case Undefined => 0x06
    case ObjectId(_) => 0x07
    case Boolean(_) => 0x08
    case DateTime(_) => 0x09
    case Null => 0x0a
    case Regex(_, _) => 0x0b
    case DbPointer(_, _) => 0x0c
    case JavaScriptCode(_) => 0x0d
    case Symbol(_) => 0x0e
    case JavaScriptCodeWithScope(_, _) => 0x0f
    case Int32(_) => 0x10
    case Timestamp(_, _) => 0x11
    case Int64(_) => 0x12
    case Decimal128(_) => 0x13
    case MinKey => 0xff
    case MaxKey => 0x7f
  }

  /** The encoder panics on a decimal that is not 16 bytes, wherever it is. */
  predicate Encodable(v: BsonValue)
    decreases v, 0
  {
    match v
    case Document(fields) => EncodableFields(fields)
    case Array(items) => EncodableItems(items)
    case JavaScriptCodeWithScope(_, scope) => EncodableFields(scope)
    case Decimal128(decimal) => |decimal| == 16
    case _ => true
  }

  predicate EncodableFields(fields: seq<BsonField>)
    decreases fields, 2
  {
    fields == [] || (Encodable(fields[0].value) && EncodableFields(fields[1..]))
  }

  predicate EncodableItems(items: seq<BsonValue>)
    decreases items, 2
  {
    items == [] || (Encodable(items[0]) && EncodableItems(items[1..]))
  }

  function ValueBytes(v: BsonValue): seq<Byte>
    decreases v, 0
  {
    match v
    case Float(f) => LittleEndian(f, 8)
    case Str(s) => StringBytes(s)
    case Document(fields) => Framed(FieldsBytes(fields))
    case Array(items) => Framed(ItemsBytes(items, 0))
    case Binary(subtype, data) => LengthBytes(|data|) + ([subtype] + data)
    case Undefined => []
    case ObjectId(id) => ObjectIdBytes(id)
    case Boolean(b) => [if b then 1 else 0]
    case DateTime(ms) => LittleEndian(Word64(ms), 8)
    case Null => []
    case Regex(pattern, flags) => CString(pattern) + CString(flags)
    case DbPointer(name, id) => StringBytes(name) + ObjectIdBytes(id)
    case JavaScriptCode(code) => StringBytes(code)
    case Symbol(symbol) => StringBytes(symbol)
    case JavaScriptCodeWithScope(code, scope) =>
      var body := StringBytes(code) + Framed(FieldsBytes(scope));
      LengthBytes(|body| + 4) + body
    case Int32(i) => Int32Bytes(i)
    case Timestamp(increment, timestamp) => Int32Bytes(increment) + Int32Bytes(timestamp)
    case Int64(n) => LittleEndian(Word64(n), 8)
    case Decimal128(decimal) => decimal
    case MinKey => []
    case MaxKey => []
  }

  function FieldBytes(key: Text, v: BsonValue): (r: seq<Byte>)
    decreases v, 1
  {
    [TypeByte(v)] + (CString(key) + ValueBytes(v))
  }

  function FieldsBytes(fields: seq<BsonField>): seq<Byte>
    decreases fields, 2
  {
    if fields == [] then [] else FieldBytes(fields[0].key, fields[0].value) + FieldsBytes(fields[1..])
  }

  /** Array elements under their positions as decimal keys. */
  function ItemsBytes(items: seq<BsonValue>, from: nat): seq<Byte>
    decreases items, 2
  {
    if items == [] then [] else FieldBytes(Decimal(from), items[0]) + ItemsBytes(items[1..], from + 1)
  }

  /** A size, the elements, and a closing NUL; the size counts all of it. */
  function Framed(body: seq<Byte>): seq<Byte> {
    LengthBytes(|body| + 5) + (body + [0])
  }

  function Encode(fields: seq<BsonField>): seq<Byte> {
    Framed(FieldsBytes(fields))
  }

  // ---------------------------------------------------------------- decoder

  /** The position after a read, and what came of it. */
  datatype At<+T> = At(x: nat, result: Result<T, BsonError>)

  const USIZE: nat := 0x1_0000_0000_0000_0000

  /** `n as usize` */
  function AsUsize(n: I32): nat {
    if n < 0 then n + USIZE else n
  }

  function Take(data: seq<Byte>, x: nat, n: nat): (r: At<seq<Byte>>)
    ensures r.result.Ok? ==> r.x == x + n <= |data| && |r.result.value| == n && r.result.value == data[x..x + n]
  {
    if x + n >= USIZE then At(x, Err(Panics))
    else if x + n > |data| then At(x, Err(UnexpectedEof))
    else At(x + n, Ok(data[x..x + n]))
  }

  function MapAt<S, T>(r: At<S>, f: S -> T): At<T> {
    At(r.x, match r.result case Ok(v) => Ok(f(v)) case Err(e) => Err(e))
  }

  function ReadInt32(data: seq<Byte>, x: nat): (r: At<I32>)
    ensures r.result.Ok? ==> r.x == x + 4 <= |data|
  {
    var b := Take(data, x, 4);
    At(b.x, match b.result case Ok(w) => LittleEndianBound(w); Ok(Signed32(FromLittleEndian(w))) case Err(e) => Err(e))
  }

  function ReadWord64(data: seq<Byte>, x: nat): (r: At<F64>)
    ensures r.result.Ok? ==> r.x == x + 8 <= |data|
  {
    var b := Take(data, x, 8);
    At(b.x, match b.result case Ok(w) => LittleEndianBound(w); Ok(FromLittleEndian(w)) case Err(e) => Err(e))
  }

  /** Where the next NUL is, or the end. */
  function FindNul(data: seq<Byte>, x: nat): (r: nat)
    ensures x <= |data| ==> x <= r <= |data|
    ensures x > |data| ==> r == x
    ensures forall i :: x <= i < r && i < |data| ==> data[i] != 0
    ensures r < |data| ==> data[r] == 0
    decreases Left(data, x)
  {
    if x < |data| && data[x] != 0 then FindNul(data, x + 1) else x
  }

  function ReadCString(utf8: Text -> bool, data: seq<Byte>, x: nat): (r: At<Text>)
    ensures r.result.Ok? ==> x < r.x <= |data|
  {
    var end := FindNul(data, x);
    if end >= |data| then At(end, Err(UnexpectedEof))
    else if !utf8(data[x..end]) then At(end, Err(InvalidUtf8))
    else At(end + 1, Ok(data[x..end]))
  }

  /** The closing NUL is skipped unread, so the position may end up one past the data. */
  function ReadString(utf8: Text -> bool, data: seq<Byte>, x: nat): (r: At<Text>)
    ensures r.result.Ok? ==> x < r.x
  {
    var n := ReadInt32(data, x);
    match n.result
    case Err(e) => At(n.x, Err(e))
    case Ok(length) =>
      if length == 0 then At(n.x, Ok([])) else
      var b := Take(data, n.x, AsUsize(length) - 1);
      match b.result
      case Err(e) => At(b.x, Err(e))
      case Ok(t) => if utf8(t) then At(b.x + 1, Ok(t)) else At(b.x, Err(InvalidUtf8))
  }

  function ObjectIdFrom(b: seq<Byte>): ObjectIdParts
    requires |b| == 12
  {
    ObjectIdParts(FromBigEndian(b[0..4]), FromLittleEndian(b[4..9]), FromBigEndian(b[9..12]))
  }

  function ReadObjectId(data: seq<Byte>, x: nat): (r: At<ObjectIdParts>)
    ensures r.result.Ok? ==> x < r.x
  {
    var b := Take(data, x, 12);
    At(b.x, match b.result case Ok(w) => Ok(ObjectIdFrom(w)) case Err(e) => Err(e))
  }

  /** Values with no document in them. */
  function ReadLeaf(utf8: Text -> bool, data: seq<Byte>, x: nat, typ: Byte): (r: At<BsonValue>)
    ensures r.result.Ok? ==> x <= r.x
  {
    if typ == 0x01 then MapAt(ReadWord64(data, x), (w: F64) => Float(w))
    else if typ == 0x02 then MapAt(ReadString(utf8, data, x), (s: Text) => Str(s))
    else if typ == 0x05 then ReadBinary(data, x)
    else if typ == 0x06 then At(x, Ok(Undefined))
    else if typ == 0x07 then MapAt(ReadObjectId(data, x), (id: ObjectIdParts) => ObjectId(id))
    else if typ == 0x08 then
      var b := Take(data, x, 1);
      At(b.x, match b.result case Ok(w) => Ok(Boolean(w[0] == 1)) case Err(e) => Err(e))
    else if typ == 0x09 then MapAt(ReadWord64(data, x), (w: F64) => DateTime(Signed64(w)))
    else if typ == 0x0a then At(x, Ok(Null))
    else if typ == 0x0b then ReadRegex(utf8, data, x)
    else if typ == 0x0c then ReadDbPointer(utf8, data, x)
    else if typ == 0x0d then MapAt(ReadString(utf8, data, x), (s: Text) => JavaScriptCode(s))
    else if typ == 0x0e then MapAt(ReadString(utf8, data, x), (s: Text) => Symbol(s))
    else if typ == 0x10 then MapAt(ReadInt32(data, x), (n: I32) => Int32(n))
    else if typ == 0x11 then ReadTimestamp(data, x)
    else if typ == 0x12 then MapAt(ReadWord64(data, x), (w: F64) => Int64(Signed64(w)))
    else if typ == 0x13 then MapAt(Take(data, x, 16), (d: seq<Byte>) => Decimal128(d))
    else if typ == 0xff then At(x, Ok(MinKey))
    else if typ == 0x7f then At(x, Ok(MaxKey))
    else At(x, Err(UnsupportedType(typ)))
  }

  function ReadBinary(data: seq<Byte>, x: nat): (r: At<BsonValue>)
    ensures r.result.Ok? ==> x <= r.x
  {
    var n := ReadInt32(data, x);
    match n.result
    case Err(e) => At(n.x, Err(e))
    case Ok(length) =>
      var subtype := Take(data, n.x, 1);
      match subtype.result
      case Err(e) => At(subtype.x, Err(e))
      case Ok(s) => MapAt(Take(data, subtype.x, AsUsize(length)), (d: seq<Byte>) => Binary(s[0], d))
  }

  function ReadRegex(utf8: Text -> bool, data: seq<Byte>, x: nat): (r: At<BsonValue>)
    ensures r.result.Ok? ==> x <= r.x
  {
    var pattern := ReadCString(utf8, data, x);
    match pattern.result
    case Err(e) => At(pattern.x, Err(e))
    case Ok(p) => MapAt(ReadCString(utf8, data, pattern.x), (f: Text) => Regex(p, f))
  }

  function ReadDbPointer(utf8: Text -> bool, data: seq<Byte>, x: nat): (r: At<BsonValue>)
    ensures r.result.Ok? ==> x <= r.x
  {
    var name := ReadString(utf8, data, x);
    match name.result
    case Err(e) => At(name.x, Err(e))
    case Ok(s) => MapAt(ReadObjectId(data, name.x), (id: ObjectIdParts) => DbPointer(s, id))
  }

  function ReadTimestamp(data: seq<Byte>, x: nat): (r: At<BsonValue>)
    ensures r.result.Ok? ==> x <= r.x
  {
    var increment := ReadInt32(data, x);
    match increment.result
    case Err(e) => At(increment.x, Err(e))
    case Ok(i) => MapAt(ReadInt32(data, increment.x), (t: I32) => Timestamp(i, t))
  }

  function ReadDocument(utf8: Text -> bool, data: seq<Byte>, x: nat): (r: At<seq<BsonField>>)
    ensures r.result.Ok? ==> x < r.x
    decreases Left(data, x), 1
  {
    var n := ReadInt32(data, x);
    match n.result
    case Err(e) => At(n.x, Err(e))
    case Ok(size) =>
      var stated := AsUsize(size);
      if n.x + stated >= USIZE + 4 then At(n.x, Err(Panics))
      else if n.x + (if stated > 4 then stated - 4 else 0) > |data| then At(n.x, Err(UnexpectedEof))
      else if n.x + stated < 5 then At(n.x, Err(Panics))
      else
        var endPos: nat := n.x + stated - 5;
        var fields := ReadFields(utf8, data, n.x, endPos);
        At(if fields.result.Ok? && fields.x <= endPos then endPos + 1 else fields.x, fields.result)
  }

  function ReadFields(utf8: Text -> bool, data: seq<Byte>, x: nat, endPos: nat): (r: At<seq<BsonField>>)
    ensures r.result.Ok? ==> x <= r.x
    decreases Left(data, x), 2
  {
    if x >= endPos then At(x, Ok([])) else
    var typ := Take(data, x, 1);
    match typ.result
    case Err(e) => At(typ.x, Err(e))
    case Ok(t) =>
      if t[0] == 0 then At(typ.x, Ok([])) else
      var key := ReadCString(utf8, data, typ.x);
      match key.result
      case Err(e) => At(key.x, Err(e))
      case Ok(k) =>
        var v := ReadElementValue(utf8, data, key.x, t[0]);
        match v.result
        case Err(e) => At(v.x, Err(e))
        case Ok(w) => MapAt(ReadFields(utf8, data, v.x, endPos), (more: seq<BsonField>) => [BsonField(k, w)] + more)
  }

  function ReadElementValue(utf8: Text -> bool, data: seq<Byte>, x: nat, typ: Byte): (r: At<BsonValue>)
    ensures r.result.Ok? ==> x <= r.x
    decreases Left(data, x), 3
  {
    if typ == 0x03 then MapAt(ReadDocument(utf8, data, x), (fields: seq<BsonField>) => Document(fields))
    else if typ == 0x04 then MapAt(ReadDocument(utf8, data, x), (fields: seq<BsonField>) => Array(InKeyOrder(fields)))
    else if typ == 0x0f then ReadCodeWithScope(utf8, data, x)
    else ReadLeaf(utf8, data, x, typ)
  }

  function ReadCodeWithScope(utf8: Text -> bool, data: seq<Byte>, x: nat): (r: At<BsonValue>)
    ensures r.result.Ok? ==> x <= r.x
    decreases Left(data, x), 2
  {
    var total := ReadInt32(data, x);
    match total.result
    case Err(e) => At(total.x, Err(e))
    case Ok(_) =>
      var code := ReadString(utf8, data, total.x);
      match code.result
      case Err(e) => At(code.x, Err(e))
      case Ok(c) => MapAt(ReadDocument(utf8, data, code.x), (scope: seq<BsonField>) => JavaScriptCodeWithScope(c, scope))
  }

  function Decode(utf8: Text -> bool, data: seq<Byte>): At<seq<BsonField>> {
    ReadDocument(utf8, data, 0)
  }

  // ---------------------------------------------------------------- array keys

  /** `k.parse::<usize>().unwrap_or(0)` */
  function KeyNumber(k: Text): nat {
    var digits := if k != [] && k[0] == 43 then k[1..] else k;
    if digits != [] && AllDigits(digits) then
      if DigitsValue(digits) < USIZE then DigitsValue(digits) else 0
    else 0
  }

  /** A stable sort by key number. */
  function InKeyOrder(fields: seq<BsonField>): (r: seq<BsonValue>)
    ensures |r| == |fields|
  {
    Values(SortByKey(fields))
  }

  function SortByKey(fields: seq<BsonField>): (r: seq<BsonField>)
    ensures |r| == |fields|
  {
    if fields == [] then [] else InsertByKey(fields[0], SortByKey(fields[1..]))
  }

  function InsertByKey(f: BsonField, sorted: seq<BsonField>): (r: seq<BsonField>)
    ensures |r| == |sorted| + 1
  {
    if sorted == [] || KeyNumber(f.key) <= KeyNumber(sorted[0].key) then [f] + sorted
    else [sorted[0]] + InsertByKey(f, sorted[1..])
  }

  function Values(fields: seq<BsonField>): (r: seq<BsonValue>)
    ensures |r| == |fields|
  {
    if fields == [] then [] else [fields[0].value] + Values(fields[1..])
  }
}
