/**
 What the Avro encoder writes and the decoder reads, as functions of value, schema and input.
 `depth` bounds the nesting of recursive calls, as the call stack does for the program: a schema
 that refers to itself through a default makes the encoder recurse without end.
 */
module AvroCodec {
  import opened Common
  import opened AvroTypes
  import opened Bytes

  // ---------------------------------------------------------------- integers

  /** Seven bits a byte, least significant first, the top bit set on all but the last. */
  function Varint(n: nat): (r: seq<Byte>)
    ensures 0 < |r|
  {
    if n < 128 then [n] else [n % 128 + 128] + Varint(n / 128)
  }

  /** `(n << 1) ^ (n >> 31)` on a two's-complement word. */
  function ZigZag(n: int): nat {
    if n >= 0 then 2 * n else -2 * n - 1
  }

  function UnZigZag(n: nat): int {
    if n % 2 == 0 then n / 2 else -(n / 2) - 1
  }

  function Signed(n: int): seq<Byte> {
    Varint(ZigZag(n))
  }

  /** `n as u32` */
  function AsU32(n: nat): nat {
    n % 0x1_0000_0000
  }

  function Prefixed(b: seq<Byte>): seq<Byte> {
    Varint(AsU32(|b|)) + b
  }

  // ---------------------------------------------------------------- matching

  function Resolve(names: Names, s: Schema): Result<Schema, EncodeError> {
    if s.RefType? then
      if s.target in names then Ok(names[s.target]) else Err(UnresolvedRef(s.target))
    else Ok(s)
  }

  /** The value of the first entry called `key`. */
  function Find(pairs: seq<Entry>, key: Text): (r: Option<AvroValue>)
    ensures r.Some? ==> exists i :: 0 <= i < |pairs| && pairs[i] == Entry(key, r.value)
  {
    if pairs == [] then None
    else if pairs[0].key == key then assert pairs[0] == Entry(key, pairs[0].value); Some(pairs[0].value)
    else Find(pairs[1..], key)
  }

  function InI32(n: int): bool {
    I32_MIN <= n <= I32_MAX
  }

  /** References and unions are looked through before a value is taken apart. */
  function Stage(s: Schema): nat {
    if s.RefType? || s.UnionType? then 1 else 0
  }

  predicate Matches(names: Names, v: AvroValue, s: Schema)
    decreases v, Stage(s), s
  {
    match s
    case RefType(n) => n in names && Matches(names, v, names[n])
    case NullType => v.Null?
    case BooleanType => v.Bool?
    case IntType => v.Int? || (v.Long? && InI32(v.int64))
    case LongType => v.Long? || v.Int?
    case FloatType => v.Float? || v.Double? || v.Int? || v.Long?
    case DoubleType => v.Double? || v.Float? || v.Int? || v.Long?
    case BytesType => v.Bytes?
    case StringType => v.Str?
    case RecordType(_, _, fields) => v.Record? && MatchFields(names, v.pairs, fields)
    case EnumType(_, _, symbols, _) => v.Enum? && v.symbol in symbols
    case ArrayType(items) => v.Array? && MatchItems(names, v.items, items)
    case MapType(values) => v.Map? && MatchEntries(names, v.entries, values)
    case FixedType(_, _, size) => v.Fixed? && |v.data| == size
    case UnionType(alts) =>
      if v.Union? then v.index < |alts| && Matches(names, v.value, alts[v.index])
      else MatchAny(names, v, alts)
  }

  predicate MatchFields(names: Names, pairs: seq<Entry>, fields: seq<Field>)
    decreases pairs, 0, fields
  {
    fields == [] ||
    ((match Find(pairs, fields[0].name)
      case Some(v) => Matches(names, v, fields[0].type_)
      case None => fields[0].default.Some?)
     && MatchFields(names, pairs, fields[1..]))
  }

  predicate MatchItems(names: Names, vs: seq<AvroValue>, s: Schema)
    decreases vs, 0, s
  {
    vs == [] || (Matches(names, vs[0], s) && MatchItems(names, vs[1..], s))
  }

  predicate MatchEntries(names: Names, es: seq<Entry>, s: Schema)
    decreases es, 0, s
  {
    es == [] || (Matches(names, es[0].value, s) && MatchEntries(names, es[1..], s))
  }

  predicate MatchAny(names: Names, v: AvroValue, alts: seq<Schema>)
    decreases v, 1, alts
  {
    alts != [] && (Matches(names, v, alts[0]) || MatchAny(names, v, alts[1..]))
  }

  /** The branch a bare value is written under. */
  function FirstMatch(names: Names, v: AvroValue, alts: seq<Schema>): (r: Option<nat>)
    ensures r.Some? ==> r.value < |alts| && Matches(names, v, alts[r.value])
    ensures r.Some? ==> forall j :: 0 <= j < r.value ==> !Matches(names, v, alts[j])
    ensures r.None? ==> forall j :: 0 <= j < |alts| ==> !Matches(names, v, alts[j])
  {
    if alts == [] then None
    else if Matches(names, v, alts[0]) then Some(0)
    else match FirstMatch(names, v, alts[1..])
         case Some(i) => Some(i + 1)
         case None => None
  }

  /** The first position of `x`. */
  function Position(xs: seq<Text>, x: Text): (r: Option<nat>)
    ensures r.Some? ==> r.value < |xs| && xs[r.value] == x && x !in xs[..r.value]
    ensures r.None? <==> x !in xs
  {
    if xs == [] then None
    else if xs[0] == x then Some(0)
    else match Position(xs[1..], x)
         case Some(i) => assert xs[..i + 1] == [xs[0]] + xs[1..][..i]; Some(i + 1)
         case None => None
  }

  // ---------------------------------------------------------------- encoding

  /** The bytes appended, and the error that stopped the encoder if any. */
  datatype Out = Out(bytes: seq<Byte>, error: Option<EncodeError>)

  function Done(bytes: seq<Byte>): Out {
    Out(bytes, None)
  }

  function Fail(e: EncodeError): Out {
    Out([], Some(e))
  }

  function Then(a: Out, b: Out): Out {
    if a.error.Some? then a else Out(a.bytes + b.bytes, b.error)
  }

  /** The encoder with some stack left, as a function of value and schema. */
  type ValueWriter = (AvroValue, Schema) -> Out

  function WriterAt(c: Platform, names: Names, depth: nat): ValueWriter
    decreases depth, 1
  {
    (v, s) => WriteValue(c, names, depth, v, s)
  }

  function WriteValue(c: Platform, names: Names, depth: nat, v: AvroValue, s: Schema): Out
    decreases depth, 0
  {
    if depth == 0 then Fail(DepthExceeded) else
    match Resolve(names, s)
    case Err(e) => Fail(e)
    case Ok(schema) => WriteAs(c, names, WriterAt(c, names, depth - 1), v, schema)
  }

  /** `v` under a schema that is no reference; `wv` writes what is inside. */
  function WriteAs(c: Platform, names: Names, wv: ValueWriter, v: AvroValue, schema: Schema): Out {
    match schema
    case NullType => if v.Null? then Done([]) else Fail(TypeMismatch)
    case BooleanType => if v.Bool? then Done([if v.b then 1 else 0]) else Fail(TypeMismatch)
    case IntType =>
      if v.Int? then Done(Signed(v.int32))
      else if v.Long? && InI32(v.int64) then Done(Signed(v.int64))
      else Fail(TypeMismatch)
    case LongType =>
      if v.Long? then Done(Signed(v.int64))
      else if v.Int? then Done(Signed(v.int32))
      else Fail(TypeMismatch)
    case FloatType => if IsNumber(v) then Done(LittleEndian(ToF32(c, v), 4)) else Fail(TypeMismatch)
    case DoubleType => if IsNumber(v) then Done(LittleEndian(ToF64(c, v), 8)) else Fail(TypeMismatch)
    case BytesType => if v.Bytes? then Done(Prefixed(v.bytes)) else Fail(TypeMismatch)
    case StringType => if v.Str? then Done(Prefixed(v.text)) else Fail(TypeMismatch)
    case RecordType(_, _, fields) => if v.Record? then WriteFields(wv, v.pairs, fields) else Fail(TypeMismatch)
    case EnumType(_, _, symbols, _) => if v.Enum? then WriteSymbol(symbols, v.symbol) else Fail(TypeMismatch)
    case ArrayType(items) =>
      if v.Array? then WriteBlock(|v.items|, WriteList(ItemWriter(wv, items), v.items)) else Fail(TypeMismatch)
    case MapType(values) =>
      if v.Map? then WriteBlock(|v.entries|, WriteList(EntryWriter(wv, values), v.entries)) else Fail(TypeMismatch)
    case FixedType(_, _, size) =>
      if !v.Fixed? then Fail(TypeMismatch)
      else if |v.data| != size then Fail(FixedSizeMismatch)
      else Done(v.data)
    case UnionType(alts) => WriteUnion(wv, v, Branch(names, v, alts), alts)
    case RefType(_) => Fail(TypeMismatch)
  }

  function WriteSymbol(symbols: seq<Text>, symbol: Text): Out {
    match Position(symbols, symbol)
    case Some(i) => Done(Signed(AsI32(i)))
    case None => Fail(SymbolNotFound(symbol))
  }

  function WriteUnion(wv: ValueWriter, v: AvroValue, branch: Result<nat, EncodeError>, alts: seq<Schema>): Out
    requires branch.Ok? ==> branch.value < |alts|
  {
    match branch
    case Err(e) => Fail(e)
    case Ok(i) => Then(Done(Signed(AsI32(i))), wv(Payload(v), alts[i]))
  }

  /** A count, that many elements, and a closing zero count, also when there are none. */
  function WriteBlock(count: nat, elements: Out): Out {
    Then(Then(Done(Varint(AsU32(count))), elements), Done(Varint(0)))
  }

  function IsNumber(v: AvroValue): bool {
    v.Int? || v.Long? || v.Float? || v.Double?
  }

  function ToF32(c: Platform, v: AvroValue): F32
    requires IsNumber(v)
  {
    match v
    case Float(f) => f
    case Int(n) => c.intToF32(n)
    case Long(n) => c.intToF32(n)
    case Double(f) => c.narrow(f)
  }

  function ToF64(c: Platform, v: AvroValue): F64
    requires IsNumber(v)
  {
    match v
    case Double(f) => f
    case Float(f) => c.widen(f)
    case Int(n) => c.intToF64(n)
    case Long(n) => c.intToF64(n)
  }

  /** The union branch `v` is written under: the one it names, or the first that matches. */
  function Branch(names: Names, v: AvroValue, alts: seq<Schema>): (r: Result<nat, EncodeError>)
    ensures r.Ok? ==> r.value < |alts|
  {
    if v.Union? then
      if v.index >= |alts| then Err(UnionIndexOutOfRange) else Ok(v.index)
    else match FirstMatch(names, v, alts)
         case Some(i) => Ok(i)
         case None => Err(UnionNoMatchingType)
  }

  function Payload(v: AvroValue): AvroValue {
    if v.Union? then v.value else v
  }

  /** What a record field is written from: its own entry, else the default. */
  function FieldValue(pairs: seq<Entry>, field: Field): Option<AvroValue> {
    match Find(pairs, field.name)
    case Some(v) => Some(v)
    case None => field.default
  }

  function WriteFields(wv: ValueWriter, pairs: seq<Entry>, fields: seq<Field>): Out {
    if fields == [] then Done([]) else
    match FieldValue(pairs, fields[0])
    case None => Fail(MissingField(fields[0].name))
    case Some(v) => Then(wv(v, fields[0].type_), WriteFields(wv, pairs, fields[1..]))
  }

  function ItemWriter(wv: ValueWriter, s: Schema): AvroValue -> Out {
    v => wv(v, s)
  }

  function EntryWriter(wv: ValueWriter, s: Schema): Entry -> Out {
    (e: Entry) => Then(Done(Prefixed(e.key)), wv(e.value, s))
  }

  function WriteList<T>(we: T -> Out, xs: seq<T>): Out {
    if xs == [] then Done([]) else Then(we(xs[0]), WriteList(we, xs[1..]))
  }

  // ---------------------------------------------------------------- decoding

  /** The input left unread, and what came of the read. */
  datatype In<+T> = In(rest: seq<Byte>, result: Result<T, DecodeError>)

  /** The varint at `at`, of at most `left` bytes, on top of the bits read so far. */
  function ReadVarint(input: seq<Byte>, at: nat, left: nat, scale: nat, modulus: nat, acc: nat, tooLong: DecodeError): (r: In<nat>)
    requires acc < modulus && at <= |input|
    ensures |r.rest| <= |input| - at
    ensures r.result.Ok? ==> r.result.value < modulus && |r.rest| < |input| - at
    decreases |input| - at
  {
    if left == 0 then In(input[at..], Err(tooLong))
    else if at == |input| then In(input[at..], Err(EndOfInput))
    else
      var acc' := (acc + (input[at] % 128) * scale) % modulus;
      if input[at] < 128 then In(input[at + 1..], Ok(acc'))
      else ReadVarint(input, at + 1, left - 1, scale * 128, modulus, acc', tooLong)
  }

  function ReadU32(input: seq<Byte>): (r: In<nat>)
    ensures |r.rest| <= |input|
    ensures r.result.Ok? ==> r.result.value < 0x1_0000_0000 && |r.rest| < |input|
  {
    ReadVarint(input, 0, 5, 1, 0x1_0000_0000, 0, VarIntTooLong)
  }

  function ReadU64(input: seq<Byte>): (r: In<nat>)
    ensures |r.rest| <= |input|
    ensures r.result.Ok? ==> r.result.value < 0x1_0000_0000_0000_0000 && |r.rest| < |input|
  {
    ReadVarint(input, 0, 10, 1, 0x1_0000_0000_0000_0000, 0, VarLongTooLong)
  }

  /** The same read, its value put through `f`. */
  function MapIn<S, T>(r: In<S>, f: S -> T): In<T> {
    In(r.rest, match r.result case Ok(x) => Ok(f(x)) case Err(e) => Err(e))
  }

  function ReadInt(input: seq<Byte>): (r: In<I32>)
    ensures |r.rest| <= |input|
  {
    var u := ReadU32(input);
    match u.result
    case Ok(n) => In(u.rest, Ok(UnZigZag(n)))
    case Err(e) => In(u.rest, Err(e))
  }

  function ReadLong(input: seq<Byte>): (r: In<I64>)
    ensures |r.rest| <= |input|
  {
    var u := ReadU64(input);
    match u.result
    case Ok(n) => In(u.rest, Ok(UnZigZag(n)))
    case Err(e) => In(u.rest, Err(e))
  }

  function ReadRaw(input: seq<Byte>, n: nat): (r: In<seq<Byte>>)
    ensures |r.rest| <= |input|
  {
    if n > |input| then In(input, Err(EndOfInput)) else In(input[n..], Ok(input[..n]))
  }

  /** As many bytes as the count `n` in front of them says. */
  function ReadCounted(n: In<nat>): (r: In<seq<Byte>>)
    ensures |r.rest| <= |n.rest|
  {
    match n.result
    case Err(e) => In(n.rest, Err(e))
    case Ok(len) => ReadRaw(n.rest, len)
  }

  function ReadPrefixed(input: seq<Byte>): (r: In<seq<Byte>>)
    ensures |r.rest| <= |input|
  {
    ReadCounted(ReadU32(input))
  }

  function ReadText(c: Platform, input: seq<Byte>): (r: In<Text>)
    ensures |r.rest| <= |input|
  {
    var b := ReadPrefixed(input);
    match b.result
    case Err(e) => In(b.rest, Err(e))
    case Ok(t) => if c.utf8(t) then b else In(b.rest, Err(InvalidUtf8))
  }

  function TextReader(c: Platform): seq<Byte> -> In<Text> {
    (input: seq<Byte>) => ReadText(c, input)
  }

  type ValueReader = (seq<Byte>, Schema) -> In<AvroValue>

  function ReaderAt(c: Platform, names: Names, depth: nat): ValueReader
    decreases depth, 1
  {
    (input, s) => ReadValue(c, names, depth, input, s)
  }

  function ReadValue(c: Platform, names: Names, depth: nat, input: seq<Byte>, s: Schema): In<AvroValue>
    decreases depth, 0
  {
    if depth == 0 then In(input, Err(StackExhausted)) else
    ReadAs(c, ReaderAt(c, names, depth - 1), input, Deref(names, s))
  }

  function Deref(names: Names, s: Schema): Schema {
    if s.RefType? && s.target in names then names[s.target] else s
  }

  /** What a schema that is no resolved reference reads; `rv` reads what is inside. */
  function ReadAs(c: Platform, rv: ValueReader, input: seq<Byte>, schema: Schema): In<AvroValue> {
    match schema
    case NullType => In(input, Ok(Null))
    case BooleanType => ReadBoolean(input)
    case IntType => MapIn(ReadInt(input), (n: I32) => Int(n))
    case LongType => MapIn(ReadLong(input), (n: I64) => Long(n))
    case FloatType => MapIn(ReadRaw(input, 4), (d: seq<Byte>) => Float(F32Bits(d)))
    case DoubleType => MapIn(ReadRaw(input, 8), (d: seq<Byte>) => Double(F64Bits(d)))
    case BytesType => MapIn(ReadPrefixed(input), (d: seq<Byte>) => Bytes(d))
    case StringType => MapIn(ReadText(c, input), (t: Text) => Str(t))
    case RecordType(_, _, fields) => MapIn(ReadFields(rv, input, fields), (es: seq<Entry>) => Record(es))
    case EnumType(_, _, symbols, _) => ReadEnum(input, symbols)
    case ArrayType(items) => AsArray(ReadBlocks(ItemReader(rv, items), input, |input|))
    case MapType(values) => AsMap(ReadBlocks(EntryReader(TextReader(c), rv, values), input, |input|))
    case FixedType(_, _, size) => MapIn(ReadRaw(input, size), (d: seq<Byte>) => Fixed(d))
    case UnionType(alts) => ReadUnion(rv, input, alts)
    case RefType(_) => In(input, Err(EndOfInput))
  }

  function AsArray(r: In<seq<AvroValue>>): In<AvroValue> {
    MapIn(r, (vs: seq<AvroValue>) => Array(vs))
  }

  function AsMap(r: In<seq<Entry>>): In<AvroValue> {
    MapIn(r, (es: seq<Entry>) => Map(es))
  }

  function ReadBoolean(input: seq<Byte>): In<AvroValue> {
    if input == [] then In(input, Err(EndOfInput)) else In(input[1..], Ok(Bool(input[0] != 0)))
  }

  function F32Bits(d: seq<Byte>): F32 {
    if |d| == 4 then LittleEndianBound(d); FromLittleEndian(d) else 0
  }

  function F64Bits(d: seq<Byte>): F64 {
    if |d| == 8 then LittleEndianBound(d); FromLittleEndian(d) else 0
  }

  function ReadEnum(input: seq<Byte>, symbols: seq<Text>): In<AvroValue> {
    var n := ReadInt(input);
    match n.result
    case Ok(i) => In(n.rest, if 0 <= i < |symbols| then Ok(Enum(symbols[i])) else Err(InvalidEnumIndex(i)))
    case Err(e) => In(n.rest, Err(e))
  }

  function ReadUnion(rv: ValueReader, input: seq<Byte>, alts: seq<Schema>): In<AvroValue> {
    var n := ReadInt(input);
    match n.result
    case Err(e) => In(n.rest, Err(e))
    case Ok(i) =>
      if i < 0 || i >= |alts| then In(n.rest, Err(BadUnionIndex)) else
      MapIn(rv(n.rest, alts[i]), (w: AvroValue) => Union(i, w))
  }

  /** `x` in front of what a later read found. */
  function Prepend<T>(x: T, more: In<seq<T>>): In<seq<T>> {
    MapIn(more, (xs: seq<T>) => [x] + xs)
  }

  function ReadFields(rv: ValueReader, input: seq<Byte>, fields: seq<Field>): In<seq<Entry>>
    decreases |fields|
  {
    if fields == [] then In(input, Ok([])) else
    var v := rv(input, fields[0].type_);
    match v.result
    case Err(e) => In(v.rest, Err(e))
    case Ok(w) => Prepend(Entry(fields[0].name, w), ReadFields(rv, v.rest, fields[1..]))
  }

  function ItemReader(rv: ValueReader, s: Schema): seq<Byte> -> In<AvroValue> {
    (input: seq<Byte>) => rv(input, s)
  }

  function EntryReader(rt: seq<Byte> -> In<Text>, rv: ValueReader, s: Schema): seq<Byte> -> In<Entry> {
    (input: seq<Byte>) => ReadEntry(rv, s, rt(input))
  }

  /** One key and value of a map block, the key read already. */
  function ReadEntry(rv: ValueReader, s: Schema, k: In<Text>): In<Entry> {
    match k.result
    case Err(e) => In(k.rest, Err(e))
    case Ok(key) =>
      if key == PROTO then In(k.rest, Err(InvalidKey)) else
      MapIn(rv(k.rest, s), (w: AvroValue) => Entry(key, w))
  }

  function ReadList<T>(re: seq<Byte> -> In<T>, input: seq<Byte>, count: nat): In<seq<T>>
    decreases count
  {
    if count == 0 then In(input, Ok([])) else
    var x := re(input);
    match x.result
    case Err(e) => In(x.rest, Err(e))
    case Ok(y) => Prepend(y, ReadList(re, x.rest, count - 1))
  }

  /** Blocks of elements until a block of none. Every block takes a byte, so an input of n bytes has at most n of them. */
  function ReadBlocks<T>(re: seq<Byte> -> In<T>, input: seq<Byte>, blocks: nat): In<seq<T>>
    decreases blocks
  {
    var n := ReadU32(input);
    match n.result
    case Err(e) => In(n.rest, Err(e))
    case Ok(count) =>
      if count == 0 || blocks == 0 then In(n.rest, Ok([])) else
      var xs := ReadList(re, n.rest, count);
      match xs.result
      case Err(e) => In(xs.rest, Err(e))
      case Ok(ys) => MapIn(ReadBlocks(re, xs.rest, blocks - 1), (more: seq<T>) => ys + more)
  }
}
