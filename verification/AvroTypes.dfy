/** Avro schemas and values of crates/json-joy-json-pack/src/avro/types.rs, and the errors of the codec. */
module AvroTypes {
  import opened Common
  import opened Bytes

  const I32_MIN := -0x8000_0000
  const I32_MAX := 0x7fff_ffff

  datatype Entry = Entry(key: Text, value: AvroValue)

  datatype AvroValue =
    | Null
    | Bool(b: bool)
    | Int(int32: I32)
    | Long(int64: I64)
    | Float(f32: F32)
    | Double(f64: F64)
    | Bytes(bytes: seq<Byte>)
    | Str(text: Text)
    | Record(pairs: seq<Entry>)
    | Enum(symbol: Text)
    | Array(items: seq<AvroValue>)
    | Map(entries: seq<Entry>)
    | Fixed(data: seq<Byte>)
    | Union(index: nat, value: AvroValue)

  datatype Field = Field(name: Text, type_: Schema, default: Option<AvroValue>)

  datatype Schema =
    | NullType
    | BooleanType
    | IntType
    | LongType
    | FloatType
    | DoubleType
    | BytesType
    | StringType
    | RecordType(name: Text, namespace: Option<Text>, fields: seq<Field>)
    | EnumType(name: Text, namespace: Option<Text>, symbols: seq<Text>, default: Option<Text>)
    | ArrayType(items: Schema)
    | MapType(values: Schema)
    | FixedType(name: Text, namespace: Option<Text>, size: nat)
    | UnionType(alternatives: seq<Schema>)
    | RefType(target: Text)

  predicate IsNamedType(s: Schema) {
    s.RecordType? || s.EnumType? || s.FixedType?
  }

  /** A table of named types: the tables only ever hold records, enums and fixed types. */
  type Names = m: map<Text, Schema> | forall n :: n in m ==> IsNamedType(m[n])

  function Qualify(name: Text, namespace: Option<Text>): Text {
    if namespace.Some? && namespace.value != [] then namespace.value + [46] + name else name
  }

  function FullName(s: Schema): Text
    requires IsNamedType(s)
  {
    Qualify(s.name, s.namespace)
  }

  /** What the codec takes from the platform: UTF-8 validity, float conversions and classification. */
  datatype Platform = Platform(
    utf8: Text -> bool,
    intToF32: I64 -> F32,
    intToF64: I64 -> F64,
    narrow: F64 -> F32,
    widen: F32 -> F64,
    integral: F64 -> bool,
    inInt32Range: F64 -> bool
  )

  datatype EncodeError =
    | TypeMismatch
    | SymbolNotFound(symbol: Text)
    | MissingField(field: Text)
    | UnionIndexOutOfRange
    | UnionNoMatchingType
    | FixedSizeMismatch
    | InvalidSchema
    | ValueDoesNotConform
    | UnresolvedRef(target: Text)
    | DepthExceeded

  datatype DecodeError =
    | EndOfInput
    | BadSchema
    | VarIntTooLong
    | VarLongTooLong
    | InvalidUtf8
    | InvalidKey
    | InvalidEnumIndex(index: int)
    | BadUnionIndex
    | StackExhausted

  /** The key the decoder refuses: `__proto__`. */
  const PROTO: Text := [95, 95, 112, 114, 111, 116, 111, 95, 95]
}
