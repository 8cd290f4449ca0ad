/** Decoding what the BSON encoder wrote, in the middle of any buffer: every document comes back in its normal form and ends where its size says. */
module BsonRoundTrip {
  import opened Common
  import opened Bytes
  import opened Decimals
  import opened Bson

  // ---------------------------------------------------------------- what comes back

  const TWO_40 := 0x100_0000_0000
  const TWO_24 := 0x100_0000

  /** The parts of an object id that fit their bytes. */
  ghost function NormalId(id: ObjectIdParts): ObjectIdParts {
    ObjectIdParts(id.timestamp % 0x1_0000_0000, id.process % TWO_40, id.counter % TWO_24)
  }

  /** Keys and regular expressions end at their first NUL, object ids keep what fits; all else comes back as it was. */
  ghost function Normal(v: BsonValue): BsonValue
    decreases v, 0
  {
    match v
    case Document(fields) => Document(NormalFields(fields))
    case Array(items) => Array(NormalItems(items))
    case ObjectId(id) => ObjectId(NormalId(id))
    case Regex(pattern, flags) => Regex(CutAtNul(pattern), CutAtNul(flags))
    case DbPointer(name, id) => DbPointer(name, NormalId(id))
    case JavaScriptCodeWithScope(code, scope) => JavaScriptCodeWithScope(code, NormalFields(scope))
    case _ => v
  }

  ghost function NormalFields(fields: seq<BsonField>): (r: seq<BsonField>)
    ensures |r| == |fields|
    decreases fields, 1
  {
    if fields == [] then [] else [BsonField(CutAtNul(fields[0].key), Normal(fields[0].value))] + NormalFields(fields[1..])
  }

  ghost function NormalItems(items: seq<BsonValue>): (r: seq<BsonValue>)
    ensures |r| == |items|
    decreases items, 1
  {
    if items == [] then [] else [Normal(items[0])] + NormalItems(items[1..])
  }

  /** As UTF-8 is: ASCII is valid, and so is what comes before a NUL. */
  ghost predicate Utf8Like(utf8: Text -> bool) {
    && (forall t: Text :: (forall i :: 0 <= i < |t| ==> t[i] < 128) ==> utf8(t))
    && (forall t: Text :: utf8(t) ==> utf8(CutAtNul(t)))
  }

  /** Strings are UTF-8, and decimals have their 16 bytes. */
  ghost predicate Proper(utf8: Text -> bool, v: BsonValue)
    decreases v, 0
  {
    match v
    case Str(s) => utf8(s)
    case Document(fields) => ProperFields(utf8, fields)
    case Array(items) => forall i :: 0 <= i < |items| ==> Proper(utf8, items[i])
    case Regex(pattern, flags) => utf8(pattern) && utf8(flags)
    case DbPointer(name, _) => utf8(name)
    case JavaScriptCode(code) => utf8(code)
    case Symbol(symbol) => utf8(symbol)
    case JavaScriptCodeWithScope(code, scope) => utf8(code) && ProperFields(utf8, scope)
    case Decimal128(decimal) => |decimal| == 16
    case _ => true
  }

  ghost predicate ProperFields(utf8: Text -> bool, fields: seq<BsonField>)
    decreases fields, 1
  {
    forall i :: 0 <= i < |fields| ==> utf8(fields[i].key) && Proper(utf8, fields[i].value)
  }

  /** The encoder gets through every proper document: what comes back below is what it returned. */
  lemma {:induction false} ProperEncodes(utf8: Text -> bool, fields: seq<BsonField>)
    requires ProperFields(utf8, fields)
    ensures EncodableFields(fields)
    decreases fields, 1
  {
    if fields != [] {
      ProperValueEncodes(utf8, fields[0].value);
      ProperEncodes(utf8, fields[1..]);
    }
  }

  lemma {:induction false} ProperValueEncodes(utf8: Text -> bool, v: BsonValue)
    requires Proper(utf8, v)
    ensures Encodable(v)
    decreases v, 0
  {
    match v
    case Document(fields) => ProperEncodes(utf8, fields);
    case Array(items) => ProperItemsEncode(utf8, items);
    case JavaScriptCodeWithScope(_, scope) => ProperEncodes(utf8, scope);
    case _ =>
  }

  lemma {:induction false} ProperItemsEncode(utf8: Text -> bool, items: seq<BsonValue>)
    requires forall i :: 0 <= i < |items| ==> Proper(utf8, items[i])
    ensures EncodableItems(items)
    decreases items, 1
  {
    if items != [] {
      ProperValueEncodes(utf8, items[0]);
      ProperItemsEncode(utf8, items[1..]);
    }
  }

  // ---------------------------------------------------------------- bytes in place

  /** A read that takes exactly `w` and makes `v` of it. */
  ghost predicate Gives<T>(r: At<T>, x: nat, w: seq<Byte>, v: T) {
    r.x == x + |w| && r.result.Ok? && r.result.value == v
  }

  // ---------------------------------------------------------------- words

  lemma Pow256Values()
    ensures Pow256(3) == TWO_24 && Pow256(4) == 0x1_0000_0000 && Pow256(5) == TWO_40
    ensures Pow256(8) == 0x1_0000_0000_0000_0000
  {
    assert Pow256(8) == 256 * 256 * 256 * Pow256(5);
  }

  lemma WordsBack(n: I32, m: I64)
    ensures Word32(n) < 0x1_0000_0000 && Signed32(Word32(n)) == n
    ensures Word64(m) < 0x1_0000_0000_0000_0000 && Signed64(Word64(m)) == m
  {
  }

  lemma Int32Read(data: seq<Byte>, x: nat, n: I32)
    requires |data| < USIZE && Lies(data, x, Int32Bytes(n))
    ensures Gives(ReadInt32(data, x), x, Int32Bytes(n), n)
  {
    Pow256Values();
    WordsBack(n, 0);
    LittleEndianRead(Word32(n), 4);
  }

  lemma LengthIs(n: nat)
    requires n < 0x8000_0000
    ensures AsI32(n) == n && AsUsize(AsI32(n)) == n
  {
  }

  lemma LengthRead(data: seq<Byte>, x: nat, n: nat)
    requires |data| < USIZE && Lies(data, x, LengthBytes(n)) && n < 0x8000_0000
    ensures Gives(ReadInt32(data, x), x, LengthBytes(n), n)
  {
    Int32Read(data, x, AsI32(n));
    LengthIs(n);
  }

  lemma Word64Read(data: seq<Byte>, x: nat, w: F64)
    requires |data| < USIZE && Lies(data, x, LittleEndian(w, 8))
    ensures Gives(ReadWord64(data, x), x, LittleEndian(w, 8), w)
  {
    Pow256Values();
    LittleEndianRead(w, 8);
  }

  lemma {:induction false} LittleEndianWraps(n: nat, width: nat)
    ensures LittleEndian(n, width) == LittleEndian(n % Pow256(width), width)
  {
    if width > 0 {
      LittleEndianWraps(n / 256, width - 1);
      LowDigit(n, n % Pow256(width), Pow256(width - 1));
    }
  }

  lemma {:induction false} BigEndianWraps(n: nat, width: nat)
    ensures BigEndian(n, width) == BigEndian(n % Pow256(width), width)
  {
    if width > 0 {
      BigEndianWraps(n / 256, width - 1);
      LowDigit(n, n % Pow256(width), Pow256(width - 1));
    }
  }

  lemma LowDigit(n: nat, r: nat, m: nat)
    requires 0 < m && r == n % (256 * m)
    ensures r % 256 == n % 256 && r / 256 == n / 256 % m
  {
    ModNested(n, m);
  }

  /** The low digit of a number, and the rest of it, survive a wrap at a multiple of 256. */
  lemma ModNested(n: nat, m: nat)
    requires 0 < m
    ensures n % (256 * m) % 256 == n % 256
    ensures n % (256 * m) / 256 == n / 256 % m
  {
    var q, r := n / 256 / m, n / 256 % m;
    assert n / 256 == m * q + r;
    assert n == 256 * (m * q + r) + n % 256;
    var low := 256 * r + n % 256;
    assert 256 * (m * q) == (256 * m) * q;
    assert n == (256 * m) * q + low;
    assert 0 <= low < 256 * m;
    QuotientIs(n, 256 * m, q, low);
    QuotientIs(low, 256, r, n % 256);
  }

  lemma Wrapped(n: nat)
    ensures FromLittleEndian(LittleEndian(n, 5)) == n % TWO_40
    ensures FromBigEndian(BigEndian(n, 4)) == n % 0x1_0000_0000
    ensures FromBigEndian(BigEndian(n, 3)) == n % TWO_24
  {
    Pow256Values();
    LittleEndianWraps(n, 5);
    LittleEndianRead(n % TWO_40, 5);
    BigEndianWraps(n, 4);
    BigEndianRead(n % 0x1_0000_0000, 4);
    BigEndianWraps(n, 3);
    BigEndianRead(n % TWO_24, 3);
  }

  lemma ObjectIdBack(id: ObjectIdParts)
    ensures ObjectIdFrom(ObjectIdBytes(id)) == NormalId(id)
  {
    var b := ObjectIdBytes(id);
    assert b[0..4] == BigEndian(id.timestamp, 4) && b[4..9] == LittleEndian(id.process, 5) && b[9..12] == BigEndian(id.counter, 3);
    Wrapped(id.timestamp);
    Wrapped(id.process);
    Wrapped(id.counter);
  }

  lemma ObjectIdRead(data: seq<Byte>, x: nat, id: ObjectIdParts)
    requires |data| < USIZE && Lies(data, x, ObjectIdBytes(id))
    ensures Gives(ReadObjectId(data, x), x, ObjectIdBytes(id), NormalId(id))
  {
    ObjectIdBack(id);
  }

  // ---------------------------------------------------------------- strings

  lemma {:induction false} NulFound(data: seq<Byte>, x: nat, t: Text)
    requires |data| < USIZE && Lies(data, x, t + [0]) && forall i :: 0 <= i < |t| ==> t[i] != 0
    ensures FindNul(data, x) == x + |t|
    decreases |t|
  {
    if t == [] {
      assert t + [0] == [0] + [];
      LiesByte(data, x, 0, []);
    } else {
      assert t + [0] == [t[0]] + (t[1..] + [0]);
      LiesByte(data, x, t[0], t[1..] + [0]);
      NulFound(data, x + 1, t[1..]);
    }
  }

  lemma Shortened(utf8: Text -> bool, t: Text)
    requires Utf8Like(utf8) && utf8(t)
    ensures utf8(CutAtNul(t))
  {
  }

  lemma DecimalText(utf8: Text -> bool, n: nat)
    requires Utf8Like(utf8) && n < USIZE
    ensures utf8(Decimal(n))
  {
    DecimalBack(n);
  }

  lemma CStringRead(utf8: Text -> bool, data: seq<Byte>, x: nat, s: Text)
    requires |data| < USIZE && Lies(data, x, CString(s)) && utf8(CutAtNul(s))
    ensures Gives(ReadCString(utf8, data, x), x, CString(s), CutAtNul(s))
  {
    var t := CutAtNul(s);
    NulFound(data, x, t);
    LiesParts(data, x, t, [0]);
  }

  lemma StringRead(utf8: Text -> bool, data: seq<Byte>, x: nat, s: Text)
    requires |data| < USIZE && Lies(data, x, StringBytes(s)) && utf8(s) && |s| + 1 < 0x8000_0000
    ensures Gives(ReadString(utf8, data, x), x, StringBytes(s), s)
  {
    LiesParts(data, x, LengthBytes(|s| + 1), s + [0]);
    Int32Read(data, x, AsI32(|s| + 1));
    LengthIs(|s| + 1);
    LiesParts(data, x + 4, s, [0]);
  }

  // ---------------------------------------------------------------- leaves

  ghost predicate IsLeaf(v: BsonValue) {
    !v.Document? && !v.Array? && !v.JavaScriptCodeWithScope?
  }

  lemma DataRead(data: seq<Byte>, x: nat, d: seq<Byte>)
    requires |data| < USIZE && Lies(data, x, d)
    ensures Gives(Take(data, x, |d|), x, d, d)
  {
  }

  lemma BinaryRead(data: seq<Byte>, x: nat, subtype: Byte, d: seq<Byte>)
    requires |data| < USIZE && Lies(data, x, LengthBytes(|d|) + ([subtype] + d)) && |d| < 0x8000_0000
    ensures Gives(ReadBinary(data, x), x, LengthBytes(|d|) + ([subtype] + d), Binary(subtype, d))
  {
    hide Lies, ReadInt32, LengthBytes;
    LiesParts(data, x, LengthBytes(|d|), [subtype] + d);
    LengthRead(data, x, |d|);
    LengthIs(|d|);
    LiesByte(data, x + 4, subtype, d);
    DataRead(data, x + 5, d);
  }

  lemma RegexRead(utf8: Text -> bool, data: seq<Byte>, x: nat, pattern: Text, flags: Text)
    requires |data| < USIZE && Lies(data, x, CString(pattern) + CString(flags)) && utf8(CutAtNul(pattern)) && utf8(CutAtNul(flags))
    ensures Gives(ReadRegex(utf8, data, x), x, CString(pattern) + CString(flags), Regex(CutAtNul(pattern), CutAtNul(flags)))
  {
    hide Lies, ReadCString, CString, CutAtNul;
    LiesParts(data, x, CString(pattern), CString(flags));
    CStringRead(utf8, data, x, pattern);
    CStringRead(utf8, data, x + |CString(pattern)|, flags);
  }

  lemma DbPointerRead(utf8: Text -> bool, data: seq<Byte>, x: nat, name: Text, id: ObjectIdParts)
    requires |data| < USIZE && Lies(data, x, StringBytes(name) + ObjectIdBytes(id)) && utf8(name) && |name| + 1 < 0x8000_0000
    ensures Gives(ReadDbPointer(utf8, data, x), x, StringBytes(name) + ObjectIdBytes(id), DbPointer(name, NormalId(id)))
  {
    hide Lies, ReadString, ReadObjectId, StringBytes, ObjectIdBytes, NormalId;
    LiesParts(data, x, StringBytes(name), ObjectIdBytes(id));
    StringRead(utf8, data, x, name);
    ObjectIdRead(data, x + |StringBytes(name)|, id);
  }

  lemma TimestampRead(data: seq<Byte>, x: nat, increment: I32, timestamp: I32)
    requires |data| < USIZE && Lies(data, x, Int32Bytes(increment) + Int32Bytes(timestamp))
    ensures Gives(ReadTimestamp(data, x), x, Int32Bytes(increment) + Int32Bytes(timestamp), Timestamp(increment, timestamp))
  {
    hide Lies, ReadInt32, Int32Bytes;
    LiesParts(data, x, Int32Bytes(increment), Int32Bytes(timestamp));
    Int32Read(data, x, increment);
    Int32Read(data, x + 4, timestamp);
  }

  ghost predicate HasText(v: BsonValue) {
    v.Str? || v.JavaScriptCode? || v.Symbol?
  }

  lemma TextRead(utf8: Text -> bool, data: seq<Byte>, x: nat, v: BsonValue)
    requires HasText(v) && Proper(utf8, v) && |data| < USIZE && Lies(data, x, ValueBytes(v)) && |ValueBytes(v)| < 0x8000_0000
    ensures Gives(ReadLeaf(utf8, data, x, TypeByte(v)), x, ValueBytes(v), Normal(v))
  {
    hide Lies, ReadString, StringBytes;
    match v
    case Str(s) => StringSize(s); StringRead(utf8, data, x, s);
    case JavaScriptCode(code) => StringSize(code); StringRead(utf8, data, x, code);
    case Symbol(symbol) => StringSize(symbol); StringRead(utf8, data, x, symbol);
  }

  lemma PairRead(utf8: Text -> bool, data: seq<Byte>, x: nat, v: BsonValue)
    requires Utf8Like(utf8) && (v.Regex? || v.DbPointer?) && Proper(utf8, v) && |data| < USIZE && Lies(data, x, ValueBytes(v)) && |ValueBytes(v)| < 0x8000_0000
    ensures Gives(ReadLeaf(utf8, data, x, TypeByte(v)), x, ValueBytes(v), Normal(v))
  {
    hide Utf8Like, Lies, ReadRegex, ReadDbPointer, StringBytes, CString, ObjectIdBytes, NormalId, CutAtNul;
    match v
    case Regex(pattern, flags) => Shortened(utf8, pattern); Shortened(utf8, flags); RegexRead(utf8, data, x, pattern, flags);
    case DbPointer(name, id) => StringSize(name); DbPointerRead(utf8, data, x, name, id);
  }

  lemma NumberRead(utf8: Text -> bool, data: seq<Byte>, x: nat, v: BsonValue)
    requires v.Float? || v.DateTime? || v.Int32? || v.Timestamp? || v.Int64?
    requires |data| < USIZE && Lies(data, x, ValueBytes(v))
    ensures Gives(ReadLeaf(utf8, data, x, TypeByte(v)), x, ValueBytes(v), Normal(v))
  {
    hide Lies, ReadInt32, ReadWord64, ReadTimestamp, LittleEndian, Int32Bytes;
    match v
    case Float(f) => Word64Read(data, x, f);
    case DateTime(ms) => WordsBack(0, ms); Word64Read(data, x, Word64(ms));
    case Int32(i) => Int32Read(data, x, i);
    case Timestamp(increment, timestamp) => TimestampRead(data, x, increment, timestamp);
    case Int64(n) => WordsBack(0, n); Word64Read(data, x, Word64(n));
  }

  lemma LeafRead(utf8: Text -> bool, data: seq<Byte>, x: nat, v: BsonValue)
    requires Utf8Like(utf8) && IsLeaf(v) && Proper(utf8, v) && |data| < USIZE && Lies(data, x, ValueBytes(v)) && |ValueBytes(v)| < 0x8000_0000
    ensures Gives(ReadElementValue(utf8, data, x, TypeByte(v)), x, ValueBytes(v), Normal(v))
  {
    hide Utf8Like;
    if HasText(v) {
      TextRead(utf8, data, x, v);
    } else if v.Regex? || v.DbPointer? {
      PairRead(utf8, data, x, v);
    } else if v.Float? || v.DateTime? || v.Int32? || v.Timestamp? || v.Int64? {
      NumberRead(utf8, data, x, v);
    } else {
      PlainRead(utf8, data, x, v);
    }
    LeafElement(utf8, data, x, v);
  }

  lemma LeafElement(utf8: Text -> bool, data: seq<Byte>, x: nat, v: BsonValue)
    requires IsLeaf(v)
    ensures ReadElementValue(utf8, data, x, TypeByte(v)) == ReadLeaf(utf8, data, x, TypeByte(v))
  {
    hide ReadLeaf, ReadDocument, ReadCodeWithScope;
  }

  lemma PlainRead(utf8: Text -> bool, data: seq<Byte>, x: nat, v: BsonValue)
    requires v.Binary? || v.Undefined? || v.ObjectId? || v.Boolean? || v.Null? || v.Decimal128? || v.MinKey? || v.MaxKey?
    requires Proper(utf8, v) && |data| < USIZE && Lies(data, x, ValueBytes(v)) && |ValueBytes(v)| < 0x8000_0000
    ensures Gives(ReadLeaf(utf8, data, x, TypeByte(v)), x, ValueBytes(v), Normal(v))
  {
    hide Lies, ReadObjectId, ReadBinary, ObjectIdBytes, LengthBytes, NormalId;
    match v
    case Binary(subtype, d) => BinaryRead(data, x, subtype, d);
    case Undefined =>
    case ObjectId(id) => ObjectIdRead(data, x, id);
    case Boolean(b) => BooleanRead(utf8, data, x, b);
    case Null =>
    case Decimal128(decimal) => DecimalRead(utf8, data, x, decimal);
    case MinKey =>
    case MaxKey =>
  }

  lemma BooleanRead(utf8: Text -> bool, data: seq<Byte>, x: nat, b: bool)
    requires |data| < USIZE && Lies(data, x, [if b then 1 else 0])
    ensures Gives(ReadLeaf(utf8, data, x, 0x08), x, [if b then 1 else 0], Boolean(b))
  {
    LiesByte(data, x, if b then 1 else 0, []);
  }

  lemma DecimalRead(utf8: Text -> bool, data: seq<Byte>, x: nat, d: seq<Byte>)
    requires |data| < USIZE && Lies(data, x, d) && |d| == 16
    ensures Gives(ReadLeaf(utf8, data, x, 0x13), x, d, Decimal128(d))
  {
  }

  lemma StringSize(s: Text)
    ensures |StringBytes(s)| == |s| + 5
  {
  }

  // ---------------------------------------------------------------- arrays

  lemma DecimalKey(n: nat)
    requires n < USIZE
    ensures KeyNumber(Decimal(n)) == n && CutAtNul(Decimal(n)) == Decimal(n)
  {
    DecimalBack(n);
    assert Decimal(n)[0] != 43;
    var cut := CutAtNul(Decimal(n));
    assert |cut| < |Decimal(n)| ==> IsDigit(Decimal(n)[|cut|]);
  }

  /** Array elements as the fields they are written as. */
  ghost function ItemFields(items: seq<BsonValue>, from: nat): (r: seq<BsonField>)
    ensures |r| == |items|
    ensures forall i :: 0 <= i < |r| ==> r[i] == BsonField(Decimal(from + i), items[i])
  {
    if items == [] then [] else
    var r := [BsonField(Decimal(from), items[0])] + ItemFields(items[1..], from + 1);
    assert forall i :: 1 <= i < |r| ==> r[i] == ItemFields(items[1..], from + 1)[i - 1];
    r
  }

  lemma {:induction false} ItemsAreFields(items: seq<BsonValue>, from: nat)
    ensures ItemsBytes(items, from) == FieldsBytes(ItemFields(items, from))
  {
    if items != [] {
      ItemsAreFields(items[1..], from + 1);
      assert ItemFields(items, from)[1..] == ItemFields(items[1..], from + 1);
    }
  }

  /** Keys in ascending order are left alone by the sort. */
  lemma {:induction false} SortedStays(fields: seq<BsonField>)
    requires forall i, j :: 0 <= i < j < |fields| ==> KeyNumber(fields[i].key) <= KeyNumber(fields[j].key)
    ensures SortByKey(fields) == fields
  {
    if fields != [] {
      SortedStays(fields[1..]);
      if |fields| > 1 { assert fields[1..][0] == fields[1]; }
      assert fields == [fields[0]] + fields[1..];
    }
  }

  lemma {:induction false} NormalFieldAt(fields: seq<BsonField>, i: nat)
    requires i < |fields|
    ensures NormalFields(fields)[i] == BsonField(CutAtNul(fields[i].key), Normal(fields[i].value))
  {
    if i > 0 { NormalFieldAt(fields[1..], i - 1); }
  }

  lemma {:induction false} NormalItemValues(items: seq<BsonValue>, from: nat)
    ensures Values(NormalFields(ItemFields(items, from))) == NormalItems(items)
  {
    if items != [] {
      NormalItemValues(items[1..], from + 1);
      assert ItemFields(items, from)[1..] == ItemFields(items[1..], from + 1);
    }
  }

  /** The decoder's sort brings the elements back in their order. */
  lemma ArrayOrder(items: seq<BsonValue>)
    requires |items| < USIZE
    ensures InKeyOrder(NormalFields(ItemFields(items, 0))) == NormalItems(items)
  {
    var fields := NormalFields(ItemFields(items, 0));
    forall i | 0 <= i < |fields| ensures KeyNumber(fields[i].key) == i {
      NormalFieldAt(ItemFields(items, 0), i);
      DecimalKey(i);
    }
    SortedStays(fields);
    NormalItemValues(items, 0);
  }

  // ---------------------------------------------------------------- documents

  lemma FrameRead(utf8: Text -> bool, data: seq<Byte>, x: nat, body: seq<Byte>, normal: seq<BsonField>)
    requires |data| < USIZE && Lies(data, x, Framed(body)) && |body| + 5 < 0x8000_0000
    requires Gives(ReadFields(utf8, data, x + 4, x + 4 + |body|), x + 4, body, normal)
    ensures Gives(ReadDocument(utf8, data, x), x, Framed(body), normal)
  {
    hide Lies, ReadFields, ReadDocument, LengthBytes, ReadInt32;
    LiesParts(data, x, LengthBytes(|body| + 5), body + [0]);
    LengthRead(data, x, |body| + 5);
    LiesWithin(data, x, Framed(body));
    FrameStep(utf8, data, x, |body|, normal);
  }

  /** The size field, and the fields behind it. */
  lemma FrameStep(utf8: Text -> bool, data: seq<Byte>, x: nat, size: nat, normal: seq<BsonField>)
    requires x + 5 + size <= |data| < USIZE && size + 5 < 0x8000_0000
    requires ReadInt32(data, x) == At(x + 4, Ok(size + 5))
    requires ReadFields(utf8, data, x + 4, x + 4 + size) == At(x + 4 + size, Ok(normal))
    ensures ReadDocument(utf8, data, x) == At(x + 5 + size, Ok(normal))
  {
    hide ReadFields, ReadInt32;
  }

  lemma {:induction false} DocumentRead(utf8: Text -> bool, data: seq<Byte>, x: nat, fields: seq<BsonField>)
    requires Utf8Like(utf8) && ProperFields(utf8, fields) && |data| < USIZE && Lies(data, x, Framed(FieldsBytes(fields))) && |FieldsBytes(fields)| + 5 < 0x8000_0000
    ensures Gives(ReadDocument(utf8, data, x), x, Framed(FieldsBytes(fields)), NormalFields(fields))
    decreases |FieldsBytes(fields)|, 3
  {
    hide Utf8Like, Lies, ReadFields, ReadDocument, NormalFields, ProperFields, LengthBytes, FieldsBytes;
    var body := FieldsBytes(fields);
    LiesParts(data, x, LengthBytes(|body| + 5), body + [0]);
    LiesParts(data, x + 4, body, [0]);
    FieldsRead(utf8, data, x + 4, x + 4 + |body|, fields);
    FrameRead(utf8, data, x, body, NormalFields(fields));
  }

  lemma {:induction false} FieldsRead(utf8: Text -> bool, data: seq<Byte>, x: nat, endPos: nat, fields: seq<BsonField>)
    requires Utf8Like(utf8) && ProperFields(utf8, fields) && |data| < USIZE && Lies(data, x, FieldsBytes(fields)) && |FieldsBytes(fields)| < 0x8000_0000
    requires endPos == x + |FieldsBytes(fields)|
    ensures Gives(ReadFields(utf8, data, x, endPos), x, FieldsBytes(fields), NormalFields(fields))
    decreases |FieldsBytes(fields)|, 2
  {
    hide Utf8Like, Lies, ReadElementValue, ReadCString, ValueBytes, CutAtNul, Normal, CString, Proper;
    if fields != [] {
      hide ReadFields;
      var f := fields[0];
      var v, rest := ValueBytes(f.value), FieldsBytes(fields[1..]);
      FieldLies(data, x, f, rest);
      Shortened(utf8, f.key);
      CStringRead(utf8, data, x + 1, f.key);
      var at := x + 1 + |CString(f.key)|;
      ValueRead(utf8, data, at, f.value);
      FieldsRead(utf8, data, at + |v|, endPos, fields[1..]);
      FieldsStep(utf8, data, x, endPos, f, NormalFields(fields[1..]), rest);
    }
  }

  lemma FieldLies(data: seq<Byte>, x: nat, f: BsonField, rest: seq<Byte>)
    requires |data| < USIZE && Lies(data, x, FieldBytes(f.key, f.value) + rest)
    ensures x + 1 <= |data| < USIZE && data[x..x + 1] == [TypeByte(f.value)]
    ensures Lies(data, x + 1, CString(f.key))
    ensures Lies(data, x + 1 + |CString(f.key)|, ValueBytes(f.value))
    ensures Lies(data, x + 1 + |CString(f.key)| + |ValueBytes(f.value)|, rest)
  {
    hide Lies, CString, ValueBytes;
    var w := CString(f.key) + ValueBytes(f.value);
    LiesParts(data, x, [TypeByte(f.value)] + w, rest);
    LiesByte(data, x, TypeByte(f.value), w);
    LiesParts(data, x + 1, CString(f.key), ValueBytes(f.value));
    LiesWithin(data, x + 1, w);
  }

  lemma LiesWithin(data: seq<Byte>, x: nat, w: seq<Byte>)
    requires |data| < USIZE && Lies(data, x, w)
    ensures x + |w| <= |data| < USIZE
  {
  }

  /** One field, and the fields behind it. */
  lemma FieldsStep(utf8: Text -> bool, data: seq<Byte>, x: nat, endPos: nat, f: BsonField, more: seq<BsonField>, rest: seq<Byte>)
    requires x < endPos && x + 1 <= |data| < USIZE && data[x..x + 1] == [TypeByte(f.value)]
    requires Gives(ReadCString(utf8, data, x + 1), x + 1, CString(f.key), CutAtNul(f.key))
    requires var at := x + 1 + |CString(f.key)|;
             && Gives(ReadElementValue(utf8, data, at, TypeByte(f.value)), at, ValueBytes(f.value), Normal(f.value))
             && Gives(ReadFields(utf8, data, at + |ValueBytes(f.value)|, endPos), at + |ValueBytes(f.value)|, rest, more)
    ensures Gives(ReadFields(utf8, data, x, endPos), x, [TypeByte(f.value)] + (CString(f.key) + ValueBytes(f.value)) + rest,
                  [BsonField(CutAtNul(f.key), Normal(f.value))] + more)
  {
    hide ReadCString, ReadElementValue, CString, ValueBytes, Normal, CutAtNul;
  }

  lemma {:induction false} ValueRead(utf8: Text -> bool, data: seq<Byte>, x: nat, v: BsonValue)
    requires Utf8Like(utf8) && Proper(utf8, v) && |data| < USIZE && Lies(data, x, ValueBytes(v)) && |ValueBytes(v)| < 0x8000_0000
    ensures Gives(ReadElementValue(utf8, data, x, TypeByte(v)), x, ValueBytes(v), Normal(v))
    decreases |ValueBytes(v)|, 1
  {
    hide Utf8Like, Lies, ReadElementValue, ValueBytes, Normal;
    match v
    case Document(fields) => DocumentValueRead(utf8, data, x, fields);
    case Array(items) => ArrayRead(utf8, data, x, items);
    case JavaScriptCodeWithScope(code, scope) => ScopeRead(utf8, data, x, code, scope);
    case _ => LeafRead(utf8, data, x, v);
  }

  lemma {:induction false} DocumentValueRead(utf8: Text -> bool, data: seq<Byte>, x: nat, fields: seq<BsonField>)
    requires Utf8Like(utf8) && ProperFields(utf8, fields) && |data| < USIZE && Lies(data, x, ValueBytes(Document(fields))) && |ValueBytes(Document(fields))| < 0x8000_0000
    ensures Gives(ReadElementValue(utf8, data, x, 0x03), x, ValueBytes(Document(fields)), Normal(Document(fields)))
    decreases |ValueBytes(Document(fields))|, 0
  {
    hide Utf8Like, Lies, ReadDocument, FieldsBytes;
    FramedSize(FieldsBytes(fields));
    DocumentRead(utf8, data, x, fields);
  }

  lemma {:induction false} ArrayRead(utf8: Text -> bool, data: seq<Byte>, x: nat, items: seq<BsonValue>)
    requires Utf8Like(utf8) && Proper(utf8, Array(items)) && |data| < USIZE && Lies(data, x, ValueBytes(Array(items))) && |ValueBytes(Array(items))| < 0x8000_0000
    ensures Gives(ReadElementValue(utf8, data, x, 0x04), x, ValueBytes(Array(items)), Normal(Array(items)))
    decreases |ValueBytes(Array(items))|, 0
  {
    hide Utf8Like, Lies, ReadDocument, InKeyOrder, NormalFields, NormalItems;
    var fields := ItemFields(items, 0);
    ItemsAreFields(items, 0);
    FieldsCount(fields);
    forall i | 0 <= i < |fields| ensures utf8(fields[i].key) && Proper(utf8, fields[i].value) { DecimalText(utf8, i); }
    DocumentRead(utf8, data, x, fields);
    ArrayOrder(items);
  }

  lemma {:induction false} FieldsCount(fields: seq<BsonField>)
    ensures |fields| <= |FieldsBytes(fields)|
  {
    if fields != [] { FieldsCount(fields[1..]); }
  }

  lemma {:induction false} ScopeRead(utf8: Text -> bool, data: seq<Byte>, x: nat, code: Text, scope: seq<BsonField>)
    requires Utf8Like(utf8) && utf8(code) && ProperFields(utf8, scope)
    requires |data| < USIZE && Lies(data, x, ValueBytes(JavaScriptCodeWithScope(code, scope))) && |ValueBytes(JavaScriptCodeWithScope(code, scope))| < 0x8000_0000
    ensures Gives(ReadElementValue(utf8, data, x, 0x0f), x, ValueBytes(JavaScriptCodeWithScope(code, scope)), Normal(JavaScriptCodeWithScope(code, scope)))
    decreases |ValueBytes(JavaScriptCodeWithScope(code, scope))|, 0
  {
    hide Utf8Like, Lies, ReadDocument, FieldsBytes, NormalFields, ReadString, LengthBytes, ProperFields, StringBytes, Framed, ReadCodeWithScope, ValueBytes;
    var a, b := StringBytes(code), Framed(FieldsBytes(scope));
    ScopeBytes(code, scope);
    LiesParts(data, x, LengthBytes(|a + b| + 4), a + b);
    LengthRead(data, x, |a + b| + 4);
    LiesParts(data, x + 4, a, b);
    StringSize(code);
    StringRead(utf8, data, x + 4, code);
    FramedSize(FieldsBytes(scope));
    DocumentRead(utf8, data, x + 4 + |a|, scope);
    ScopeStep(utf8, data, x, code, NormalFields(scope), a, b);
  }

  lemma ScopeBytes(code: Text, scope: seq<BsonField>)
    ensures var body := StringBytes(code) + Framed(FieldsBytes(scope));
            ValueBytes(JavaScriptCodeWithScope(code, scope)) == LengthBytes(|body| + 4) + body
  {
  }

  lemma FramedSize(body: seq<Byte>)
    ensures |Framed(body)| == |body| + 5
  {
  }

  lemma ScopeStep(utf8: Text -> bool, data: seq<Byte>, x: nat, code: Text, scope: seq<BsonField>, a: seq<Byte>, b: seq<Byte>)
    requires Gives(ReadInt32(data, x), x, LengthBytes(|a + b| + 4), |a + b| + 4) && Gives(ReadString(utf8, data, x + 4), x + 4, a, code)
    requires Gives(ReadDocument(utf8, data, x + 4 + |a|), x + 4 + |a|, b, scope)
    ensures Gives(ReadCodeWithScope(utf8, data, x), x, LengthBytes(|a + b| + 4) + (a + b), JavaScriptCodeWithScope(code, scope))
  {
    hide ReadDocument, ReadString, ReadInt32, LengthBytes;
  }

  // ---------------------------------------------------------------- round trip

  /** No key and no part of a regular expression has a NUL in it, and object ids fit their bytes. */
  ghost predicate Faithful(v: BsonValue)
    decreases v, 0
  {
    match v
    case Document(fields) => FaithfulFields(fields)
    case Array(items) => forall i :: 0 <= i < |items| ==> Faithful(items[i])
    case ObjectId(id) => IdFits(id)
    case Regex(pattern, flags) => 0 !in pattern && 0 !in flags
    case DbPointer(_, id) => IdFits(id)
    case JavaScriptCodeWithScope(_, scope) => FaithfulFields(scope)
    case _ => true
  }

  ghost predicate FaithfulFields(fields: seq<BsonField>)
    decreases fields, 1
  {
    forall i :: 0 <= i < |fields| ==> 0 !in fields[i].key && Faithful(fields[i].value)
  }

  ghost predicate IdFits(id: ObjectIdParts) {
    id.timestamp < 0x1_0000_0000 && id.process < TWO_40 && id.counter < TWO_24
  }

  lemma CutIsWhole(t: Text)
    ensures CutAtNul(t) == t <==> 0 !in t
  {
    var cut := CutAtNul(t);
    if |cut| < |t| {
      assert t[|cut|] == 0;
    } else {
      assert cut == t;
    }
  }

  lemma {:induction false} NormalIsSame(v: BsonValue)
    ensures Normal(v) == v <==> Faithful(v)
    decreases v, 0
  {
    match v
    case Document(fields) => NormalFieldsSame(fields);
    case Array(items) => NormalItemsSame(items);
    case Regex(pattern, flags) => CutIsWhole(pattern); CutIsWhole(flags);
    case JavaScriptCodeWithScope(_, scope) => NormalFieldsSame(scope);
    case _ =>
  }

  lemma {:induction false} NormalFieldsSame(fields: seq<BsonField>)
    ensures NormalFields(fields) == fields <==> FaithfulFields(fields)
    decreases fields, 1
  {
    forall i | 0 <= i < |fields| ensures NormalFields(fields)[i] == fields[i] <==> 0 !in fields[i].key && Faithful(fields[i].value) {
      NormalFieldAt(fields, i);
      NormalIsSame(fields[i].value);
      CutIsWhole(fields[i].key);
    }
  }

  lemma {:induction false} NormalItemAt(items: seq<BsonValue>, i: nat)
    requires i < |items|
    ensures NormalItems(items)[i] == Normal(items[i])
  {
    if i > 0 { NormalItemAt(items[1..], i - 1); }
  }

  lemma {:induction false} NormalItemsSame(items: seq<BsonValue>)
    ensures NormalItems(items) == items <==> forall i :: 0 <= i < |items| ==> Faithful(items[i])
    decreases items, 1
  {
    forall i | 0 <= i < |items| ensures NormalItems(items)[i] == items[i] <==> Faithful(items[i]) {
      NormalItemAt(items, i);
      NormalIsSame(items[i]);
    }
  }

  /**
   A document under 2^31 bytes decodes from any place in a buffer to its normal form and ends where
   its size field says; it decodes to itself if and only if it is faithful.
   */
  lemma RoundTrip(utf8: Text -> bool, fields: seq<BsonField>, before: seq<Byte>, after: seq<Byte>)
    requires Utf8Like(utf8) && ProperFields(utf8, fields) && |Encode(fields)| < 0x8000_0000
    requires |before| + |Encode(fields)| + |after| < USIZE
    ensures var r := ReadDocument(utf8, before + Encode(fields) + after, |before|);
            && r == At(|before| + |Encode(fields)|, Ok(NormalFields(fields)))
            && (r.result == Ok(fields) <==> FaithfulFields(fields))
  {
    hide Utf8Like;
    var data := before + Encode(fields) + after;
    assert data[|before|..|before| + |Encode(fields)|] == Encode(fields);
    DocumentRead(utf8, data, |before|, fields);
    NormalFieldsSame(fields);
  }

  /** Two faithful documents with the same encoding are the same. */
  lemma EncodingIsInjective(utf8: Text -> bool, a: seq<BsonField>, b: seq<BsonField>)
    requires Utf8Like(utf8) && ProperFields(utf8, a) && ProperFields(utf8, b) && FaithfulFields(a) && FaithfulFields(b)
    requires |Encode(a)| < 0x8000_0000 && Encode(a) == Encode(b)
    ensures a == b
  {
    hide Utf8Like;
    RoundTrip(utf8, a, [], []);
    RoundTrip(utf8, b, [], []);
  }

  // ---------------------------------------------------------------- bytes the decoder does not look at

  /** A document of one boolean: its size, the type, the key, one byte that is 1 or 0, and the end. */
  lemma BooleanBytes(key: Text, b: bool)
    requires forall i :: 0 <= i < |key| ==> key[i] != 0
    ensures Encode([BsonField(key, Boolean(b))]) == LengthBytes(|key| + 8) + ([8] + key + [0] + [if b then 1 else 0] + [0])
  {
    hide LengthBytes;
    CutIsWhole(key);
    var fields := [BsonField(key, Boolean(b))];
    assert fields[1..] == [];
    assert CString(key) == key + [0];
    assert FieldsBytes(fields) == FieldBytes(key, Boolean(b)) + FieldsBytes([]);
    assert FieldBytes(key, Boolean(b)) == [8] + (CString(key) + [if b then 1 else 0]);
    assert FieldsBytes(fields) == [8] + key + [0] + [if b then 1 else 0];
  }

  /** The length in front of code with scope counts itself, code and scope. */
  lemma ScopeLength(code: Text, scope: seq<BsonField>)
    requires |ValueBytes(JavaScriptCodeWithScope(code, scope))| < 0x8000_0000
    ensures var w := ValueBytes(JavaScriptCodeWithScope(code, scope));
            |w| >= 4 && FromLittleEndian(w[..4]) == |w| && w[4..] == ValueBytes(JavaScriptCode(code)) + ValueBytes(Document(scope))
  {
    hide FieldsBytes, StringBytes, Framed;
    var w := ValueBytes(JavaScriptCodeWithScope(code, scope));
    var body := StringBytes(code) + Framed(FieldsBytes(scope));
    assert w == LengthBytes(|body| + 4) + body;
    assert w[..4] == LengthBytes(|w|) && w[4..] == body;
    LengthIsBytes(|w|);
  }

  lemma LengthIsBytes(n: nat)
    requires n < 0x8000_0000
    ensures FromLittleEndian(LengthBytes(n)) == n
  {
    LengthIs(n);
    Pow256Values();
    LittleEndianRead(n, 4);
  }
}
