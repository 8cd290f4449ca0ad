/**
 What a value written under a schema stands for, told of value and schema alone, and that this is
 what decoding its encoding gives.
 */
module AvroMeaning {
  import opened Common
  import opened AvroTypes
  import opened Bytes
  import opened AvroCodec
  import opened AvroValidator
  import opened AvroRoundTrip
  import opened AvroDepth
  import opened AvroMatching
  import opened AvroSession

  // ---------------------------------------------------------------- what a value stands for

  /** A record's field is taken from its first entry of that name, or else from its default. */
  ghost predicate Source(pairs: seq<Entry>, field: Field, u: AvroValue) {
    || (exists i :: 0 <= i < |pairs| && pairs[i] == Entry(field.name, u) && forall j :: 0 <= j < i ==> pairs[j].key != field.name)
    || ((forall j :: 0 <= j < |pairs| ==> pairs[j].key != field.name) && field.default == Some(u))
  }

  /** Under the schema `s`, with names looked up at most `d` deep, `v` stands for `w`. */
  ghost predicate Stands(c: Platform, names: Names, d: nat, v: AvroValue, s: Schema, w: AvroValue)
    decreases d, 0
  {
    d > 0 && if s.RefType? then s.target in names && StandsAs(c, names, d - 1, v, names[s.target], w) else StandsAs(c, names, d - 1, v, s, w)
  }

  ghost predicate StandsAs(c: Platform, names: Names, d: nat, v: AvroValue, s: Schema, w: AvroValue)
    decreases d, 2
  {
    match s
    case NullType => v.Null? && w == v
    case BooleanType => v.Bool? && w == v
    case IntType => (v.Int? && w == v) || (v.Long? && -0x8000_0000 <= v.int64 < 0x8000_0000 && w == Int(v.int64))
    case LongType => (v.Long? && w == v) || (v.Int? && w == Long(v.int32))
    case FloatType =>
      || (v.Float? && w == v)
      || (v.Int? && w == Float(c.intToF32(v.int32))) || (v.Long? && w == Float(c.intToF32(v.int64)))
      || (v.Double? && w == Float(c.narrow(v.f64)))
    case DoubleType =>
      || (v.Double? && w == v)
      || (v.Int? && w == Double(c.intToF64(v.int32))) || (v.Long? && w == Double(c.intToF64(v.int64)))
      || (v.Float? && w == Double(c.widen(v.f32)))
    case BytesType => v.Bytes? && w == v
    case StringType => v.Str? && w == v
    case RecordType(_, _, fields) =>
      && v.Record? && w.Record? && |w.pairs| == |fields|
      && forall i :: 0 <= i < |fields| ==> FieldStands(c, names, d, v.pairs, fields[i], w.pairs[i])
    case EnumType(_, _, symbols, _) => v.Enum? && v.symbol in symbols && w == v
    case ArrayType(items) =>
      v.Array? && w.Array? && |w.items| == |v.items| && forall i :: 0 <= i < |v.items| ==> Stands(c, names, d, v.items[i], items, w.items[i])
    case MapType(values) =>
      && v.Map? && w.Map? && |w.entries| == |v.entries|
      && forall i :: 0 <= i < |v.entries| ==> EntryStands(c, names, d, v.entries[i], values, w.entries[i])
    case FixedType(_, _, size) => v.Fixed? && |v.data| == size && w == v
    case UnionType(alts) =>
      && w.Union? && w.index < |alts|
      && (if v.Union? then v.index == w.index else Matches(names, v, alts[w.index]) && forall j :: 0 <= j < w.index ==> !Matches(names, v, alts[j]))
      && Stands(c, names, d, if v.Union? then v.value else v, alts[w.index], w.value)
    case RefType(_) => false
  }

  ghost predicate FieldStands(c: Platform, names: Names, d: nat, pairs: seq<Entry>, field: Field, e: Entry)
    decreases d, 1
  {
    e.key == field.name && exists u :: Source(pairs, field, u) && Stands(c, names, d, u, field.type_, e.value)
  }

  ghost predicate EntryStands(c: Platform, names: Names, d: nat, e: Entry, values: Schema, e': Entry)
    decreases d, 1
  {
    e'.key == e.key && Stands(c, names, d, e.value, values, e'.value)
  }

  // ---------------------------------------------------------------- it is what the round trip speaks of

  lemma {:induction false} FindFirst(pairs: seq<Entry>, key: Text, u: AvroValue)
    ensures Find(pairs, key) == Some(u) <==> exists i :: 0 <= i < |pairs| && pairs[i] == Entry(key, u) && forall j :: 0 <= j < i ==> pairs[j].key != key
    ensures Find(pairs, key).None? <==> forall j :: 0 <= j < |pairs| ==> pairs[j].key != key
  {
    if pairs != [] {
      var rest := pairs[1..];
      FindFirst(rest, key, u);
      if pairs[0].key == key {
        if u == pairs[0].value { assert pairs[0] == Entry(key, u); }
      } else {
        if Find(rest, key) == Some(u) {
          var i :| 0 <= i < |rest| && rest[i] == Entry(key, u) && forall j :: 0 <= j < i ==> rest[j].key != key;
          assert pairs[i + 1] == Entry(key, u);
          forall j | 0 <= j < i + 1 ensures pairs[j].key != key { if j > 0 { assert pairs[j] == rest[j - 1]; } }
        }
        if i :| 0 <= i < |pairs| && pairs[i] == Entry(key, u) && forall j :: 0 <= j < i ==> pairs[j].key != key {
          assert rest[i - 1] == Entry(key, u);
          forall j | 0 <= j < i - 1 ensures rest[j].key != key { assert rest[j] == pairs[j + 1]; }
        }
        if Find(rest, key).None? {
          forall j | 0 <= j < |pairs| ensures pairs[j].key != key { if j > 0 { assert pairs[j] == rest[j - 1]; } }
        } else {
          var j :| 0 <= j < |rest| && rest[j].key == key;
          assert pairs[j + 1].key == key;
        }
      }
    }
  }

  lemma SourceIs(pairs: seq<Entry>, field: Field, u: AvroValue)
    ensures Source(pairs, field, u) <==> FieldValue(pairs, field) == Some(u)
  {
    FindFirst(pairs, field.name, u);
    if Find(pairs, field.name).Some? { FindFirst(pairs, field.name, Find(pairs, field.name).value); }
  }

  /** Whatever `wv` writes stands for what `nv` makes of it and nothing else. */
  ghost predicate Meant(c: Platform, names: Names, d: nat, wv: ValueWriter, nv: Normalizer) {
    forall v, s, w :: wv(v, s).error.None? ==> (Stands(c, names, d, v, s, w) <==> w == nv(v, s))
  }

  lemma {:induction false} NormFieldAt(wv: ValueWriter, nv: Normalizer, pairs: seq<Entry>, fields: seq<Field>, i: nat)
    requires WriteFields(wv, pairs, fields).error.None? && i < |fields|
    ensures |NormFields(nv, pairs, fields)| == |fields|
    ensures FieldValue(pairs, fields[i]).Some?
    ensures var u := FieldValue(pairs, fields[i]).value;
            wv(u, fields[i].type_).error.None? && NormFields(nv, pairs, fields)[i] == Entry(fields[i].name, nv(u, fields[i].type_))
  {
    if i > 0 {
      NormFieldAt(wv, nv, pairs, fields[1..], i - 1);
    } else {
      NormFieldCount(wv, nv, pairs, fields);
    }
  }

  lemma {:induction false} NormFieldCount(wv: ValueWriter, nv: Normalizer, pairs: seq<Entry>, fields: seq<Field>)
    requires WriteFields(wv, pairs, fields).error.None?
    ensures |NormFields(nv, pairs, fields)| == |fields|
  {
    if fields != [] { NormFieldCount(wv, nv, pairs, fields[1..]); }
  }

  lemma {:induction false} ListAt<T>(we: T -> Out, ne: T -> T, xs: seq<T>, i: nat)
    requires WriteList(we, xs).error.None? && i < |xs|
    ensures we(xs[i]).error.None? && NormList(ne, xs)[i] == ne(xs[i])
  {
    if i > 0 { ListAt(we, ne, xs[1..], i - 1); }
  }

  lemma RecordMeant(c: Platform, names: Names, d: nat, wv: ValueWriter, nv: Normalizer, pairs: seq<Entry>, fields: seq<Field>, ws: seq<Entry>)
    requires Meant(c, names, d, wv, nv) && WriteFields(wv, pairs, fields).error.None? && |ws| == |fields|
    ensures (forall i :: 0 <= i < |fields| ==> FieldStands(c, names, d, pairs, fields[i], ws[i])) <==> ws == NormFields(nv, pairs, fields)
  {
    hide Stands, WriteFields, NormFields, Source;
    NormFieldCount(wv, nv, pairs, fields);
    var norm := NormFields(nv, pairs, fields);
    forall i | 0 <= i < |fields| ensures FieldStands(c, names, d, pairs, fields[i], ws[i]) <==> ws[i] == norm[i] {
      NormFieldAt(wv, nv, pairs, fields, i);
      FieldMeant(c, names, d, wv, nv, pairs, fields[i], ws[i]);
    }
  }

  lemma FieldMeant(c: Platform, names: Names, d: nat, wv: ValueWriter, nv: Normalizer, pairs: seq<Entry>, field: Field, e: Entry)
    requires Meant(c, names, d, wv, nv) && FieldValue(pairs, field).Some? && wv(FieldValue(pairs, field).value, field.type_).error.None?
    ensures FieldStands(c, names, d, pairs, field, e) <==> e == Entry(field.name, nv(FieldValue(pairs, field).value, field.type_))
  {
    hide Stands, FieldValue, Source;
    var u := FieldValue(pairs, field).value;
    SourceIs(pairs, field, u);
    if FieldStands(c, names, d, pairs, field, e) {
      var u' :| Source(pairs, field, u') && Stands(c, names, d, u', field.type_, e.value);
      SourceIs(pairs, field, u');
    }
  }

  lemma ItemsMeant(c: Platform, names: Names, d: nat, wv: ValueWriter, nv: Normalizer, vs: seq<AvroValue>, s: Schema, ws: seq<AvroValue>)
    requires Meant(c, names, d, wv, nv) && WriteList(ItemWriter(wv, s), vs).error.None? && |ws| == |vs|
    ensures (forall i :: 0 <= i < |vs| ==> Stands(c, names, d, vs[i], s, ws[i])) <==> ws == NormList(ItemNormer(nv, s), vs)
  {
    hide Stands, WriteList, NormList;
    var norm := NormList(ItemNormer(nv, s), vs);
    forall i | 0 <= i < |vs| ensures Stands(c, names, d, vs[i], s, ws[i]) <==> ws[i] == norm[i] {
      ListAt(ItemWriter(wv, s), ItemNormer(nv, s), vs, i);
      assert wv(vs[i], s).error.None?;
    }
  }

  lemma EntriesMeant(c: Platform, names: Names, d: nat, wv: ValueWriter, nv: Normalizer, es: seq<Entry>, s: Schema, ws: seq<Entry>)
    requires Meant(c, names, d, wv, nv) && WriteList(EntryWriter(wv, s), es).error.None? && |ws| == |es|
    ensures (forall i :: 0 <= i < |es| ==> EntryStands(c, names, d, es[i], s, ws[i])) <==> ws == NormList(EntryNormer(nv, s), es)
  {
    hide Stands, WriteList, NormList;
    var norm := NormList(EntryNormer(nv, s), es);
    forall i | 0 <= i < |es| ensures EntryStands(c, names, d, es[i], s, ws[i]) <==> ws[i] == norm[i] {
      ListAt(EntryWriter(wv, s), EntryNormer(nv, s), es, i);
      EntryWritten(wv, s, es[i]);
      assert wv(es[i].value, s).error.None?;
    }
  }

  lemma UnionMeant(c: Platform, names: Names, d: nat, wv: ValueWriter, nv: Normalizer, v: AvroValue, alts: seq<Schema>, w: AvroValue)
    requires Meant(c, names, d, wv, nv) && WriteAs(c, names, wv, v, UnionType(alts)).error.None?
    ensures StandsAs(c, names, d, v, UnionType(alts), w) <==> w == NormAs(c, names, nv, v, UnionType(alts))
  {
    hide Stands, Matches;
    var i: nat := Branch(names, v, alts).value;
    assert wv(Payload(v), alts[i]).error.None?;
    if w.Union? { assert Stands(c, names, d, Payload(v), alts[i], w.value) <==> w.value == nv(Payload(v), alts[i]); }
  }

  lemma NumberMeant(c: Platform, names: Names, d: nat, wv: ValueWriter, nv: Normalizer, v: AvroValue, s: Schema, w: AvroValue)
    requires (s.IntType? || s.LongType? || s.FloatType? || s.DoubleType?) && WriteAs(c, names, wv, v, s).error.None?
    ensures StandsAs(c, names, d, v, s, w) <==> w == NormAs(c, names, nv, v, s)
  {
    hide LittleEndian, Signed;
  }

  lemma StepMeant(c: Platform, names: Names, d: nat, wv: ValueWriter, nv: Normalizer, v: AvroValue, s: Schema, w: AvroValue)
    requires Meant(c, names, d, wv, nv) && WriteAs(c, names, wv, v, s).error.None?
    ensures StandsAs(c, names, d, v, s, w) <==> w == NormAs(c, names, nv, v, s)
  {
    hide Stands, FieldStands, EntryStands, WriteFields, WriteList, NormFields, NormList, Meant, Branch, LittleEndian, Signed, Prefixed, ToF32, ToF64;
    match s
    case RecordType(_, _, fields) =>
      NormFieldCount(wv, nv, v.pairs, fields);
      if w.Record? && |w.pairs| == |fields| { RecordMeant(c, names, d, wv, nv, v.pairs, fields, w.pairs); }
    case ArrayType(items) => if w.Array? && |w.items| == |v.items| { ItemsMeant(c, names, d, wv, nv, v.items, items, w.items); }
    case MapType(values) => if w.Map? && |w.entries| == |v.entries| { EntriesMeant(c, names, d, wv, nv, v.entries, values, w.entries); }
    case UnionType(alts) => UnionMeant(c, names, d, wv, nv, v, alts, w);
    case IntType => NumberMeant(c, names, d, wv, nv, v, s, w);
    case LongType => NumberMeant(c, names, d, wv, nv, v, s, w);
    case FloatType => NumberMeant(c, names, d, wv, nv, v, s, w);
    case DoubleType => NumberMeant(c, names, d, wv, nv, v, s, w);
    case _ =>
  }

  /** A written value stands for its normal form and for nothing else. */
  lemma {:induction false} NormStands(c: Platform, names: Names, d: nat, v: AvroValue, s: Schema, w: AvroValue)
    requires WriteValue(c, names, d, v, s).error.None?
    ensures Stands(c, names, d, v, s, w) <==> w == Norm(c, names, d, v, s)
    decreases d
  {
    hide WriteValue, Norm, FlawsOf, WriteAs, NormAs, FlawsAs, StandsAs, At;
    OneLevel(c, names, d, v, s);
    Coded(c, names, d - 1);
    var e: nat := d - 1;
    var p := At(c, names, e);
    forall v', s', w' | p.w(v', s').error.None? ensures Stands(c, names, e, v', s', w') <==> w' == p.n(v', s') {
      NormStands(c, names, e, v', s', w');
    }
    StepMeant(c, names, e, p.w, p.n, v, Resolve(names, s).value, w);
  }

  lemma Coded(c: Platform, names: Names, d: nat)
    ensures forall v, s :: At(c, names, d).w(v, s) == WriteValue(c, names, d, v, s) && At(c, names, d).n(v, s) == Norm(c, names, d, v, s)
    ensures forall v, s :: At(c, names, d).f(v, s) == FlawsOf(c, names, d, v, s)
  {
    hide WriteValue, Norm, FlawsOf;
  }

  // ---------------------------------------------------------------- what the decoder takes wrongly

  /** No empty array or map anywhere, and no map key `__proto__`. */
  ghost predicate Whole(w: AvroValue) {
    match w
    case Record(pairs) => forall i :: 0 <= i < |pairs| ==> Whole(pairs[i].value)
    case Array(items) => items != [] && forall i :: 0 <= i < |items| ==> Whole(items[i])
    case Map(entries) => entries != [] && forall i :: 0 <= i < |entries| ==> entries[i].key != PROTO && Whole(entries[i].value)
    case Union(_, u) => Whole(u)
    case _ => true
  }

  ghost predicate Flawless(wv: ValueWriter, nv: Normalizer, fv: FlawFinder) {
    forall v, s :: wv(v, s).error.None? ==> (IsClean(fv(v, s)) <==> Whole(nv(v, s)))
  }

  /** All of the list, for a property of its elements. */
  ghost predicate All<T>(xs: seq<T>, p: T -> bool) {
    forall i :: 0 <= i < |xs| ==> p(xs[i])
  }

  lemma AllFirst<T>(x: T, xs: seq<T>, p: T -> bool)
    ensures All([x] + xs, p) <==> p(x) && All(xs, p)
  {
    var all := [x] + xs;
    assert all[0] == x && forall i :: 0 <= i < |xs| ==> all[i + 1] == xs[i];
  }

  ghost function WholeValue(): AvroValue -> bool {
    (w: AvroValue) => Whole(w)
  }

  ghost function WholeField(): Entry -> bool {
    (e: Entry) => Whole(e.value)
  }

  ghost function WholeEntry(): Entry -> bool {
    (e: Entry) => e.key != PROTO && Whole(e.value)
  }

  lemma {:induction false} FieldsFlawless(wv: ValueWriter, nv: Normalizer, fv: FlawFinder, pairs: seq<Entry>, fields: seq<Field>)
    requires Flawless(wv, nv, fv) && WriteFields(wv, pairs, fields).error.None?
    ensures IsClean(FlawsOfFields(fv, pairs, fields)) <==> All(NormFields(nv, pairs, fields), WholeField())
  {
    hide FieldValue, Whole, All;
    if fields == [] {
      assert All(NormFields(nv, pairs, fields), WholeField()) by { NothingIsAll<Entry>(WholeField()); }
    } else {
      FieldsFlawless(wv, nv, fv, pairs, fields[1..]);
      AllFirst(NormFields(nv, pairs, fields)[0], NormFields(nv, pairs, fields[1..]), WholeField());
    }
  }

  lemma NothingIsAll<T>(p: T -> bool)
    ensures All([], p)
  {
  }

  lemma {:induction false} ListFlawless<T>(we: T -> Out, ne: T -> T, fe: T -> Flaws, p: T -> bool, xs: seq<T>)
    requires (forall x :: x in xs && we(x).error.None? ==> (IsClean(fe(x)) <==> p(ne(x)))) && WriteList(we, xs).error.None?
    ensures IsClean(FlawsOfList(fe, xs)) <==> All(NormList(ne, xs), p)
  {
    hide All;
    if xs == [] {
      NothingIsAll(p);
    } else {
      ListFlawless(we, ne, fe, p, xs[1..]);
      AllFirst(ne(xs[0]), NormList(ne, xs[1..]), p);
      assert xs[0] in xs;
    }
  }

  lemma ItemsFlawless(wv: ValueWriter, nv: Normalizer, fv: FlawFinder, vs: seq<AvroValue>, s: Schema)
    requires Flawless(wv, nv, fv) && WriteList(ItemWriter(wv, s), vs).error.None?
    ensures IsClean(FlawsOfList(ItemFinder(fv, s), vs)) <==> All(NormList(ItemNormer(nv, s), vs), WholeValue())
  {
    hide Whole, All, WriteList, NormList, FlawsOfList, IsClean;
    ListFlawless(ItemWriter(wv, s), ItemNormer(nv, s), ItemFinder(fv, s), WholeValue(), vs);
  }

  lemma EntriesFlawless(wv: ValueWriter, nv: Normalizer, fv: FlawFinder, es: seq<Entry>, s: Schema)
    requires Flawless(wv, nv, fv) && WriteList(EntryWriter(wv, s), es).error.None?
    ensures IsClean(FlawsOfList(EntryFinder(fv, s), es)) <==> All(NormList(EntryNormer(nv, s), es), WholeEntry())
  {
    hide Whole, All, WriteList, NormList, FlawsOfList;
    forall e: Entry | e in es && EntryWriter(wv, s)(e).error.None?
      ensures IsClean(EntryFinder(fv, s)(e)) <==> WholeEntry()(EntryNormer(nv, s)(e))
    {
      EntryFlawless(wv, nv, fv, e, s);
    }
    ListFlawless(EntryWriter(wv, s), EntryNormer(nv, s), EntryFinder(fv, s), WholeEntry(), es);
  }

  lemma EntryFlawless(wv: ValueWriter, nv: Normalizer, fv: FlawFinder, e: Entry, s: Schema)
    requires Flawless(wv, nv, fv) && EntryWriter(wv, s)(e).error.None?
    ensures IsClean(EntryFinder(fv, s)(e)) <==> WholeEntry()(EntryNormer(nv, s)(e))
  {
    hide Whole;
    EntryWritten(wv, s, e);
    assert wv(e.value, s).error.None?;
  }

  lemma StepFlawless(c: Platform, names: Names, wv: ValueWriter, nv: Normalizer, fv: FlawFinder, v: AvroValue, s: Schema)
    requires Flawless(wv, nv, fv) && WriteAs(c, names, wv, v, s).error.None?
    ensures IsClean(FlawsAs(names, fv, v, s)) <==> Whole(NormAs(c, names, nv, v, s))
  {
    hide WriteFields, WriteList, NormFields, NormList, FlawsOfFields, FlawsOfList, Branch, LittleEndian, Signed, Prefixed;
    match s
    case RecordType(_, _, fields) => FieldsFlawless(wv, nv, fv, v.pairs, fields);
    case ArrayType(items) => ItemsFlawless(wv, nv, fv, v.items, items);
    case MapType(values) => EntriesFlawless(wv, nv, fv, v.entries, values);
    case UnionType(alts) => assert wv(Payload(v), alts[Branch(names, v, alts).value]).error.None?;
    case _ =>
  }

  lemma {:induction false} WholeIsClean(c: Platform, names: Names, d: nat, v: AvroValue, s: Schema)
    requires WriteValue(c, names, d, v, s).error.None?
    ensures IsClean(FlawsOf(c, names, d, v, s)) <==> Whole(Norm(c, names, d, v, s))
    decreases d
  {
    hide WriteValue, Norm, FlawsOf, WriteAs, NormAs, FlawsAs, IsClean, Whole, At;
    OneLevel(c, names, d, v, s);
    Coded(c, names, d - 1);
    var p := At(c, names, d - 1);
    forall v', s' | p.w(v', s').error.None? ensures IsClean(p.f(v', s')) <==> Whole(p.n(v', s')) {
      WholeIsClean(c, names, d - 1, v', s');
    }
    StepFlawless(c, names, p.w, p.n, p.f, v, Resolve(names, s).value);
  }

  // ---------------------------------------------------------------- decoding what was encoded

  /**
   What a clean encoder wrote stands for exactly one value, and decodes to it, with exactly the bytes
   behind it left, if and only if that value has no empty array or map and no `__proto__` key.
   */
  lemma DecodesToMeaning(c: Platform, d: nat, d': nat, v: AvroValue, s: Schema, more: seq<Byte>) returns (w: AvroValue)
    requires SchemaFits(c, s) && Fits(c, v) && d <= d' && Encode(c, d, [], v, s).result.Ok?
    ensures forall w' :: Stands(c, Collect(s, map[]), d, v, s, w') <==> w' == w
    ensures Decode(c, d', Encode(c, d, [], v, s).result.value + more, s) == In(more, Ok(w)) <==> Whole(w)
  {
    hide SchemaFits, Fits, Stands, Norm, FlawsOf, WriteValue, Whole, CheckSchema, CheckValue, Collect, Decode;
    var names := Collect(s, map[]);
    w := Norm(c, names, d, v, s);
    forall w' ensures Stands(c, names, d, v, s, w') <==> w' == w { NormStands(c, names, d, v, s, w'); }
    RoundTrip(c, d, d', v, s, more);
    WholeIsClean(c, names, d, v, s);
  }

  // ---------------------------------------------------------------- values that come back as they are

  /** The value's constructors are the schema's own throughout: fields in order and no others, branches named. */
  ghost predicate Own(names: Names, v: AvroValue, s: Schema)
    decreases v, Stage(s), s
  {
    match s
    case RefType(n) => n in names && Own(names, v, names[n])
    case NullType => v.Null?
    case BooleanType => v.Bool?
    case IntType => v.Int?
    case LongType => v.Long?
    case FloatType => v.Float?
    case DoubleType => v.Double?
    case BytesType => v.Bytes?
    case StringType => v.Str?
    case RecordType(_, _, fields) =>
      && v.Record? && |v.pairs| == |fields|
      && forall i :: 0 <= i < |fields| ==> v.pairs[i].key == fields[i].name && Own(names, v.pairs[i].value, fields[i].type_)
    case EnumType(_, _, symbols, _) => v.Enum? && v.symbol in symbols
    case ArrayType(items) => v.Array? && forall i :: 0 <= i < |v.items| ==> Own(names, v.items[i], items)
    case MapType(values) => v.Map? && forall i :: 0 <= i < |v.entries| ==> Own(names, v.entries[i].value, values)
    case FixedType(_, _, size) => v.Fixed? && |v.data| == size
    case UnionType(alts) => v.Union? && v.index < |alts| && Own(names, v.value, alts[v.index])
  }

  ghost predicate OwnStand(c: Platform, names: Names, d: nat, wv: ValueWriter) {
    forall v, s :: wv(v, s).error.None? && EveryRecordDistinct(s) && Own(names, v, s) ==> Stands(c, names, d, v, s, v)
  }

  lemma StepOwn(c: Platform, names: Names, d: nat, wv: ValueWriter, v: AvroValue, s: Schema)
    requires OwnStand(c, names, d, wv) && WriteAs(c, names, wv, v, s).error.None? && EveryRecordDistinct(s) && Own(names, v, s) && !s.RefType?
    ensures StandsAs(c, names, d, v, s, v)
  {
    hide Stands, WriteFields, WriteList, FirstMatch, LittleEndian, Signed, Prefixed, Source, FieldValue, Find;
    match s
    case RecordType(_, _, fields) =>
      forall i | 0 <= i < |fields| ensures FieldStands(c, names, d, v.pairs, fields[i], v.pairs[i]) { OwnField(c, names, d, wv, v, s, i); }
    case ArrayType(items) =>
      forall i | 0 <= i < |v.items| ensures Stands(c, names, d, v.items[i], items, v.items[i]) {
        ListAt(ItemWriter(wv, items), (x: AvroValue) => x, v.items, i);
        assert wv(v.items[i], items).error.None?;
      }
    case MapType(values) =>
      forall i | 0 <= i < |v.entries| ensures EntryStands(c, names, d, v.entries[i], values, v.entries[i]) {
        ListAt(EntryWriter(wv, values), (e: Entry) => e, v.entries, i);
        EntryWritten(wv, values, v.entries[i]);
        assert wv(v.entries[i].value, values).error.None?;
      }
    case UnionType(alts) => assert wv(v.value, alts[v.index]).error.None?;
    case _ =>
  }

  lemma OwnField(c: Platform, names: Names, d: nat, wv: ValueWriter, v: AvroValue, s: Schema, i: nat)
    requires OwnStand(c, names, d, wv) && s.RecordType? && v.Record? && EveryRecordDistinct(s) && Own(names, v, s)
    requires WriteFields(wv, v.pairs, s.fields).error.None? && i < |s.fields|
    ensures FieldStands(c, names, d, v.pairs, s.fields[i], v.pairs[i])
  {
    hide Stands, WriteFields, FieldValue, Find;
    var f, u := s.fields[i], v.pairs[i].value;
    assert v.pairs[i] == Entry(f.name, u);
    forall j | 0 <= j < i ensures v.pairs[j].key != f.name { assert s.fields[j].name != f.name; }
    assert Source(v.pairs, f, u);
    SourceIs(v.pairs, f, u);
    FieldWritten(wv, v.pairs, s.fields, i);
    assert wv(u, f.type_).error.None?;
  }

  lemma {:induction false} OwnStands(c: Platform, names: Names, d: nat, v: AvroValue, s: Schema)
    requires WriteValue(c, names, d, v, s).error.None? && EveryRecordDistinct(s) && NamesDistinct(names) && Own(names, v, s)
    ensures Stands(c, names, d, v, s, v)
    decreases d
  {
    hide WriteValue, WriteAs, StandsAs, EveryRecordDistinct, Own, At, Norm, FlawsOf;
    OneLevel(c, names, d, v, s);
    Coded(c, names, d - 1);
    var p := At(c, names, d - 1);
    forall v', s' | p.w(v', s').error.None? && EveryRecordDistinct(s') && Own(names, v', s') ensures Stands(c, names, d - 1, v', s', v') {
      OwnStands(c, names, d - 1, v', s');
    }
    OwnResolved(names, v, s);
    StepOwn(c, names, d - 1, p.w, v, Resolve(names, s).value);
  }

  lemma OwnResolved(names: Names, v: AvroValue, s: Schema)
    requires EveryRecordDistinct(s) && NamesDistinct(names) && Own(names, v, s)
    ensures Resolve(names, s).Ok? && var r := Resolve(names, s).value; EveryRecordDistinct(r) && Own(names, v, r) && !r.RefType?
  {
  }

  /**
   A value made of the schema's own constructors comes back from decoding its encoding as it is, if
   and only if it has no empty array or map and no `__proto__` key.
   */
  lemma OwnRoundTrip(c: Platform, d: nat, d': nat, v: AvroValue, s: Schema, more: seq<Byte>)
    requires SchemaFits(c, s) && Fits(c, v) && d <= d' && Encode(c, d, [], v, s).result.Ok? && Own(Collect(s, map[]), v, s)
    ensures Decode(c, d', Encode(c, d, [], v, s).result.value + more, s) == In(more, Ok(v)) <==> Whole(v)
  {
    hide SchemaFits, Fits, Stands, WriteValue, Whole, CheckSchema, CheckValue, Collect, Decode, EveryRecordDistinct, Own;
    CheckedDistinct(s, map[]);
    CollectDistinct(s, map[]);
    OwnStands(c, Collect(s, map[]), d, v, s);
    var w := DecodesToMeaning(c, d, d', v, s, more);
  }

  /** A number under a schema of another width comes back as the platform converts it. */
  lemma PromotionRoundTrip(c: Platform, d: nat, d': nat, v: AvroValue, s: Schema, w: AvroValue, more: seq<Byte>)
    requires d <= d' && Encode(c, d, [], v, s).result.Ok?
    requires match s
             case FloatType => (v.Int? && w == Float(c.intToF32(v.int32))) || (v.Long? && w == Float(c.intToF32(v.int64))) || (v.Double? && w == Float(c.narrow(v.f64)))
             case DoubleType => (v.Int? && w == Double(c.intToF64(v.int32))) || (v.Long? && w == Double(c.intToF64(v.int64))) || (v.Float? && w == Double(c.widen(v.f32)))
             case LongType => v.Int? && w == Long(v.int32)
             case IntType => v.Long? && I32_MIN <= v.int64 <= I32_MAX && w == Int(v.int64)
             case _ => false
    ensures Decode(c, d', Encode(c, d, [], v, s).result.value + more, s) == In(more, Ok(w))
  {
    hide WriteValue, CheckSchema, CheckValue, Decode;
    var w' := DecodesToMeaning(c, d, d', v, s, more);
    assert d > 0 by { WriteLevel(c, Collect(s, map[]), d, v, s); }
    assert Stands(c, Collect(s, map[]), d, v, s, w);
  }
}
