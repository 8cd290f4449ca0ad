/** The schema and value checks of crates/json-joy-json-pack/src/avro/schema_validator.rs, and the name table both codecs collect. */
module AvroValidator {
  import opened Common
  import opened AvroTypes
  import opened Bytes
  import opened AvroCodec

  // ---------------------------------------------------------------- names

  const NULL_NAME: Text := [110, 117, 108, 108]
  const BOOLEAN_NAME: Text := [98, 111, 111, 108, 101, 97, 110]
  const INT_NAME: Text := [105, 110, 116]
  const LONG_NAME: Text := [108, 111, 110, 103]
  const FLOAT_NAME: Text := [102, 108, 111, 97, 116]
  const DOUBLE_NAME: Text := [100, 111, 117, 98, 108, 101]
  const BYTES_NAME: Text := [98, 121, 116, 101, 115]
  const STRING_NAME: Text := [115, 116, 114, 105, 110, 103]
  const RECORD_NAME: Text := [114, 101, 99, 111, 114, 100]
  const ENUM_NAME: Text := [101, 110, 117, 109]
  const ARRAY_NAME: Text := [97, 114, 114, 97, 121]
  const MAP_NAME: Text := [109, 97, 112]
  const FIXED_NAME: Text := [102, 105, 120, 101, 100]
  const UNION_NAME: Text := [117, 110, 105, 111, 110]

  /** The primitive type a reference may name. */
  function Primitive(n: Text): (r: Option<Schema>)
    ensures r.Some? ==> !IsNamedType(r.value) && Stage(r.value) == 0
  {
    if n == NULL_NAME then Some(NullType)
    else if n == BOOLEAN_NAME then Some(BooleanType)
    else if n == INT_NAME then Some(IntType)
    else if n == LONG_NAME then Some(LongType)
    else if n == FLOAT_NAME then Some(FloatType)
    else if n == DOUBLE_NAME then Some(DoubleType)
    else if n == BYTES_NAME then Some(BytesType)
    else if n == STRING_NAME then Some(StringType)
    else None
  }

  /** What must differ between the alternatives of a union. */
  function TypeName(s: Schema): Text {
    match s
    case NullType => NULL_NAME
    case BooleanType => BOOLEAN_NAME
    case IntType => INT_NAME
    case LongType => LONG_NAME
    case FloatType => FLOAT_NAME
    case DoubleType => DOUBLE_NAME
    case BytesType => BYTES_NAME
    case StringType => STRING_NAME
    case RecordType(_, _, _) => RECORD_NAME
    case EnumType(_, _, _, _) => ENUM_NAME
    case ArrayType(_) => ARRAY_NAME
    case MapType(_) => MAP_NAME
    case FixedType(_, _, _) => FIXED_NAME
    case UnionType(_) => UNION_NAME
    case RefType(n) => n
  }

  // ---------------------------------------------------------------- schemas

  /** Whether the schema passed, and the names known afterwards. */
  datatype Checked = Checked(ok: bool, names: Names)

  ghost function CheckSchema(s: Schema, names: Names): Checked {
    match s
    case RefType(n) => Checked(Primitive(n).Some? || n in names, names)
    case UnionType(alts) => if alts == [] then Checked(false, names) else CheckAlternatives(alts, {}, names)
    case RecordType(name, _, fields) =>
      if name == [] || FullName(s) in names then Checked(false, names)
      else CheckFields(fields, {}, names[FullName(s) := s])
    case EnumType(name, _, symbols, default) =>
      if name == [] || FullName(s) in names then Checked(false, names)
      else Checked(symbols != [] && Distinct(symbols) && (default.Some? ==> default.value in symbols), names[FullName(s) := s])
    case FixedType(name, _, _) =>
      if name == [] || FullName(s) in names then Checked(false, names)
      else Checked(true, names[FullName(s) := s])
    case ArrayType(items) => CheckSchema(items, names)
    case MapType(values) => CheckSchema(values, names)
    case _ => Checked(true, names)
  }

  ghost function CheckAlternatives(alts: seq<Schema>, seen: set<Text>, names: Names): Checked {
    if alts == [] then Checked(true, names) else
    var r := CheckSchema(alts[0], names);
    if !r.ok then r
    else if TypeName(alts[0]) in seen then Checked(false, r.names)
    else CheckAlternatives(alts[1..], seen + {TypeName(alts[0])}, r.names)
  }

  ghost function CheckFields(fields: seq<Field>, seen: set<Text>, names: Names): Checked {
    if fields == [] then Checked(true, names)
    else if fields[0].name == [] then Checked(false, names) else
    var r := CheckSchema(fields[0].type_, names);
    if !r.ok then r
    else if fields[0].name in seen then Checked(false, r.names)
    else CheckFields(fields[1..], seen + {fields[0].name}, r.names)
  }

  /** The named types of a schema, later definitions winning. */
  ghost function Collect(s: Schema, names: Names): Names {
    match s
    case RecordType(_, _, fields) => CollectFields(fields, names[FullName(s) := s])
    case EnumType(_, _, _, _) => names[FullName(s) := s]
    case FixedType(_, _, _) => names[FullName(s) := s]
    case ArrayType(items) => Collect(items, names)
    case MapType(values) => Collect(values, names)
    case UnionType(alts) => CollectAll(alts, names)
    case _ => names
  }

  ghost function CollectAll(alts: seq<Schema>, names: Names): Names {
    if alts == [] then names else CollectAll(alts[1..], Collect(alts[0], names))
  }

  ghost function CollectFields(fields: seq<Field>, names: Names): Names {
    if fields == [] then names else CollectFields(fields[1..], Collect(fields[0].type_, names))
  }

  /** The validator's own table is the one the codecs collect, and no name is defined twice. */
  lemma {:induction false} CheckedNames(s: Schema, names: Names)
    requires CheckSchema(s, names).ok
    ensures CheckSchema(s, names).names == Collect(s, names)
    ensures forall n :: n in names ==> n in Collect(s, names) && Collect(s, names)[n] == names[n]
  {
    match s
    case RecordType(_, _, fields) => CheckedFieldNames(fields, {}, names[FullName(s) := s]);
    case UnionType(alts) => CheckedAlternativeNames(alts, {}, names);
    case ArrayType(items) => CheckedNames(items, names);
    case MapType(values) => CheckedNames(values, names);
    case _ =>
  }

  lemma {:induction false} CheckedAlternativeNames(alts: seq<Schema>, seen: set<Text>, names: Names)
    requires CheckAlternatives(alts, seen, names).ok
    ensures CheckAlternatives(alts, seen, names).names == CollectAll(alts, names)
    ensures forall n :: n in names ==> n in CollectAll(alts, names) && CollectAll(alts, names)[n] == names[n]
  {
    if alts != [] {
      CheckedNames(alts[0], names);
      CheckedAlternativeNames(alts[1..], seen + {TypeName(alts[0])}, Collect(alts[0], names));
    }
  }

  lemma {:induction false} CheckedFieldNames(fields: seq<Field>, seen: set<Text>, names: Names)
    requires CheckFields(fields, seen, names).ok
    ensures CheckFields(fields, seen, names).names == CollectFields(fields, names)
    ensures forall n :: n in names ==> n in CollectFields(fields, names) && CollectFields(fields, names)[n] == names[n]
  {
    if fields != [] {
      CheckedNames(fields[0].type_, names);
      CheckedFieldNames(fields[1..], seen + {fields[0].name}, Collect(fields[0].type_, names));
    }
  }

  // ---------------------------------------------------------------- unions

  /** Of one kind, or references to one name, or `b` a reference to the word for the kind of `a`. */
  ghost predicate KindClash(a: Schema, b: Schema) {
    match a
    case NullType => b.NullType? || b == RefType(NULL_NAME)
    case BooleanType => b.BooleanType? || b == RefType(BOOLEAN_NAME)
    case IntType => b.IntType? || b == RefType(INT_NAME)
    case LongType => b.LongType? || b == RefType(LONG_NAME)
    case FloatType => b.FloatType? || b == RefType(FLOAT_NAME)
    case DoubleType => b.DoubleType? || b == RefType(DOUBLE_NAME)
    case BytesType => b.BytesType? || b == RefType(BYTES_NAME)
    case StringType => b.StringType? || b == RefType(STRING_NAME)
    case RecordType(_, _, _) => b.RecordType? || b == RefType(RECORD_NAME)
    case EnumType(_, _, _, _) => b.EnumType? || b == RefType(ENUM_NAME)
    case ArrayType(_) => b.ArrayType? || b == RefType(ARRAY_NAME)
    case MapType(_) => b.MapType? || b == RefType(MAP_NAME)
    case FixedType(_, _, _) => b.FixedType? || b == RefType(FIXED_NAME)
    case UnionType(_) => b.UnionType? || b == RefType(UNION_NAME)
    case RefType(_) => b == a
  }

  /** Two alternatives no union may have together. */
  ghost predicate Clash(a: Schema, b: Schema) {
    KindClash(a, b) || KindClash(b, a)
  }

  /** Length and first two letters of the word for a kind, which differ between any two. */
  function Mark(s: Schema): (int, int, int) {
    match s
    case NullType => (4, 110, 117)
    case BooleanType => (7, 98, 111)
    case IntType => (3, 105, 110)
    case LongType => (4, 108, 111)
    case FloatType => (5, 102, 108)
    case DoubleType => (6, 100, 111)
    case BytesType => (5, 98, 121)
    case StringType => (6, 115, 116)
    case RecordType(_, _, _) => (6, 114, 101)
    case EnumType(_, _, _, _) => (4, 101, 110)
    case ArrayType(_) => (5, 97, 114)
    case MapType(_) => (3, 109, 97)
    case FixedType(_, _, _) => (5, 102, 105)
    case UnionType(_) => (5, 117, 110)
    case RefType(_) => (0, 0, 0)
  }

  lemma WordMark(s: Schema)
    requires !s.RefType?
    ensures |TypeName(s)| >= 2 && (|TypeName(s)|, TypeName(s)[0], TypeName(s)[1]) == Mark(s)
  {
  }

  lemma MarksDiffer(a: Schema, b: Schema)
    requires !a.RefType? && !b.RefType?
    ensures Mark(a) == Mark(b) <==> KindClash(a, b)
  {
  }

  lemma RefClash(a: Schema, b: Schema)
    requires a.RefType? || b.RefType?
    ensures Clash(a, b) <==> TypeName(a) == TypeName(b)
  {
  }

  lemma SameKind(a: Schema, b: Schema)
    requires !a.RefType? && !b.RefType?
    ensures KindClash(a, b) ==> KindClash(b, a) && TypeName(a) == TypeName(b)
  {
  }

  lemma ClashIs(a: Schema, b: Schema)
    ensures Clash(a, b) <==> TypeName(a) == TypeName(b)
  {
    hide TypeName, Mark, KindClash;
    if a.RefType? || b.RefType? {
      RefClash(a, b);
    } else {
      WordMark(a);
      WordMark(b);
      MarksDiffer(a, b);
      SameKind(a, b);
      SameKind(b, a);
    }
  }

  /** A union is accepted exactly when it has alternatives, each is accepted behind the ones before, and no two clash. */
  lemma UnionAccepted(alts: seq<Schema>, names: Names)
    ensures CheckSchema(UnionType(alts), names).ok
            <==> alts != [] && EachAccepted(alts, names) && forall i, j :: 0 <= i < j < |alts| ==> !Clash(alts[i], alts[j])
  {
    hide Clash, TypeName;
    AlternativesAccepted(alts, {}, names);
    forall i, j | 0 <= i < j < |alts| ensures Clash(alts[i], alts[j]) <==> TypeName(alts[i]) == TypeName(alts[j]) { ClashIs(alts[i], alts[j]); }
  }

  ghost predicate EachAccepted(alts: seq<Schema>, names: Names) {
    alts == [] || (CheckSchema(alts[0], names).ok && EachAccepted(alts[1..], CheckSchema(alts[0], names).names))
  }

  lemma {:induction false} AlternativesAccepted(alts: seq<Schema>, seen: set<Text>, names: Names)
    ensures CheckAlternatives(alts, seen, names).ok
            <==> && EachAccepted(alts, names) && (forall i :: 0 <= i < |alts| ==> TypeName(alts[i]) !in seen)
                 && forall i, j :: 0 <= i < j < |alts| ==> TypeName(alts[i]) != TypeName(alts[j])
  {
    hide TypeName, CheckSchema;
    if alts != [] {
      var rest, more := alts[1..], seen + {TypeName(alts[0])};
      AlternativesAccepted(rest, more, CheckSchema(alts[0], names).names);
      assert forall i :: 0 <= i < |rest| ==> rest[i] == alts[i + 1];
      assert forall i :: 1 <= i < |alts| ==> alts[i] == rest[i - 1];
    }
  }

  // ---------------------------------------------------------------- values

  function NumberOf(c: Platform, v: AvroValue): F64
    requires IsNumber(v)
  {
    ToF64(c, v)
  }

  predicate CheckValue(c: Platform, names: Names, v: AvroValue, s: Schema)
    decreases v, Stage(s), s
  {
    match s
    case RefType(n) =>
      (match Primitive(n)
       case Some(p) => CheckValue(c, names, v, p)
       case None => n in names && CheckValue(c, names, v, names[n]))
    case UnionType(alts) =>
      if v.Union? then v.index < |alts| && CheckValue(c, names, v.value, alts[v.index])
      else CheckAny(c, names, v, alts)
    case NullType => v.Null?
    case BooleanType => v.Bool?
    case IntType => IsNumber(v) && c.integral(NumberOf(c, v)) && c.inInt32Range(NumberOf(c, v))
    case LongType => IsNumber(v) && c.integral(NumberOf(c, v))
    case FloatType => IsNumber(v)
    case DoubleType => IsNumber(v)
    case BytesType => v.Bytes?
    case StringType => v.Str?
    case RecordType(_, _, fields) => v.Record? && CheckRecord(c, names, v.pairs, fields)
    case EnumType(_, _, symbols, _) => v.Enum? && v.symbol in symbols
    case ArrayType(items) => v.Array? && CheckItems(c, names, v.items, items)
    case MapType(values) => v.Map? && CheckEntries(c, names, v.entries, values)
    case FixedType(_, _, size) => v.Fixed? && |v.data| == size
  }

  predicate CheckRecord(c: Platform, names: Names, pairs: seq<Entry>, fields: seq<Field>)
    decreases pairs, 0, fields
  {
    fields == [] ||
    ((match Find(pairs, fields[0].name)
      case Some(v) => CheckValue(c, names, v, fields[0].type_)
      case None => fields[0].default.Some?)
     && CheckRecord(c, names, pairs, fields[1..]))
  }

  predicate CheckItems(c: Platform, names: Names, vs: seq<AvroValue>, s: Schema)
    decreases vs, 0, s
  {
    vs == [] || (CheckValue(c, names, vs[0], s) && CheckItems(c, names, vs[1..], s))
  }

  predicate CheckEntries(c: Platform, names: Names, es: seq<Entry>, s: Schema)
    decreases es, 0, s
  {
    es == [] || (CheckValue(c, names, es[0].value, s) && CheckEntries(c, names, es[1..], s))
  }

  predicate CheckAny(c: Platform, names: Names, v: AvroValue, alts: seq<Schema>)
    decreases v, 1, alts
  {
    alts != [] && (CheckValue(c, names, v, alts[0]) || CheckAny(c, names, v, alts[1..]))
  }
}
