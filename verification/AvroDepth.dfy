/** The stack only has to be deep enough: more of it changes nothing about a value that could be written. */
module AvroDepth {
  import opened Common
  import opened AvroTypes
  import opened Bytes
  import opened AvroCodec
  import opened AvroRoundTrip

  /** Whatever `p` writes, `q` treats alike. */
  ghost predicate Extends(p: Coders, q: Coders) {
    forall v, s :: p.w(v, s).error.None? ==> q.w(v, s) == p.w(v, s) && q.n(v, s) == p.n(v, s) && q.f(v, s) == p.f(v, s)
  }

  lemma {:induction false} ItemsExtend(p: Coders, q: Coders, vs: seq<AvroValue>, s: Schema)
    requires Extends(p, q) && WriteList(ItemWriter(p.w, s), vs).error.None?
    ensures WriteList(ItemWriter(q.w, s), vs) == WriteList(ItemWriter(p.w, s), vs)
    ensures NormList(ItemNormer(q.n, s), vs) == NormList(ItemNormer(p.n, s), vs)
    ensures FlawsOfList(ItemFinder(q.f, s), vs) == FlawsOfList(ItemFinder(p.f, s), vs)
  {
    if vs != [] {
      assert ItemWriter(p.w, s)(vs[0]) == p.w(vs[0], s);
      ItemsExtend(p, q, vs[1..], s);
    }
  }

  lemma {:induction false} EntriesExtend(p: Coders, q: Coders, es: seq<Entry>, s: Schema)
    requires Extends(p, q) && WriteList(EntryWriter(p.w, s), es).error.None?
    ensures WriteList(EntryWriter(q.w, s), es) == WriteList(EntryWriter(p.w, s), es)
    ensures NormList(EntryNormer(q.n, s), es) == NormList(EntryNormer(p.n, s), es)
    ensures FlawsOfList(EntryFinder(q.f, s), es) == FlawsOfList(EntryFinder(p.f, s), es)
  {
    if es != [] {
      EntryWritten(p.w, s, es[0]);
      EntryWritten(q.w, s, es[0]);
      EntriesExtend(p, q, es[1..], s);
    }
  }

  lemma {:induction false} FieldsExtend(p: Coders, q: Coders, pairs: seq<Entry>, fields: seq<Field>)
    requires Extends(p, q) && WriteFields(p.w, pairs, fields).error.None?
    ensures WriteFields(q.w, pairs, fields) == WriteFields(p.w, pairs, fields)
    ensures NormFields(q.n, pairs, fields) == NormFields(p.n, pairs, fields)
    ensures FlawsOfFields(q.f, pairs, fields) == FlawsOfFields(p.f, pairs, fields)
  {
    if fields != [] { FieldsExtend(p, q, pairs, fields[1..]); }
  }

  lemma StepExtends(c: Platform, names: Names, p: Coders, q: Coders, v: AvroValue, schema: Schema)
    requires Extends(p, q) && WriteAs(c, names, p.w, v, schema).error.None?
    ensures WriteAs(c, names, q.w, v, schema) == WriteAs(c, names, p.w, v, schema)
    ensures NormAs(c, names, q.n, v, schema) == NormAs(c, names, p.n, v, schema)
    ensures FlawsAs(names, q.f, v, schema) == FlawsAs(names, p.f, v, schema)
  {
    hide FirstMatch, Matches, WriteFields, WriteList, NormFields, NormList, FlawsOfFields, FlawsOfList, Varint, LittleEndian, Signed, Prefixed;
    match schema
    case RecordType(_, _, fields) => FieldsExtend(p, q, v.pairs, fields);
    case ArrayType(items) => ItemsExtend(p, q, v.items, items);
    case MapType(values) => EntriesExtend(p, q, v.entries, values);
    case UnionType(alts) =>
      var i: nat := Branch(names, v, alts).value;
      assert p.w(Payload(v), alts[i]).error.None?;
    case _ =>
  }

  /** More stack changes nothing about a value that could be written. */
  lemma {:induction false} Deeper(c: Platform, names: Names, d: nat, d': nat, v: AvroValue, s: Schema)
    requires d <= d' && WriteValue(c, names, d, v, s).error.None?
    ensures WriteValue(c, names, d', v, s) == WriteValue(c, names, d, v, s)
    ensures Norm(c, names, d', v, s) == Norm(c, names, d, v, s)
    ensures FlawsOf(c, names, d', v, s) == FlawsOf(c, names, d, v, s)
    decreases d
  {
    hide WriteValue, Norm, FlawsOf, WriteAs, NormAs, FlawsAs, Resolve;
    OneLevel(c, names, d, v, s);
    OneLevel(c, names, d', v, s);
    var p, q := At(c, names, d - 1), At(c, names, d' - 1);
    forall v', s' | p.w(v', s').error.None?
      ensures q.w(v', s') == p.w(v', s') && q.n(v', s') == p.n(v', s') && q.f(v', s') == p.f(v', s')
    {
      Deeper(c, names, d - 1, d' - 1, v', s');
    }
    StepExtends(c, names, p, q, v, Resolve(names, s).value);
  }

  lemma OneLevel(c: Platform, names: Names, d: nat, v: AvroValue, s: Schema)
    ensures WriteValue(c, names, d, v, s).error.None? ==> d > 0 && Resolve(names, s).Ok?
    ensures d > 0 && Resolve(names, s).Ok? ==>
              var p, schema := At(c, names, d - 1), Resolve(names, s).value;
              && WriteValue(c, names, d, v, s) == WriteAs(c, names, p.w, v, schema)
              && Norm(c, names, d, v, s) == NormAs(c, names, p.n, v, schema)
              && FlawsOf(c, names, d, v, s) == FlawsAs(names, p.f, v, schema)
  {
    hide WriteValue, Norm, FlawsOf, WriterAt, Normer, Finder, WriteAs, NormAs, FlawsAs, Resolve;
    WriteLevel(c, names, d, v, s);
    NormLevel(c, names, d, v, s);
    FlawsLevel(c, names, d, v, s);
  }

  lemma WriteLevel(c: Platform, names: Names, d: nat, v: AvroValue, s: Schema)
    ensures WriteValue(c, names, d, v, s).error.None? ==> d > 0 && Resolve(names, s).Ok?
    ensures d == 0 ==> WriteValue(c, names, d, v, s) == Fail(DepthExceeded)
    ensures d > 0 && Resolve(names, s).Err? ==> WriteValue(c, names, d, v, s) == Fail(Resolve(names, s).error)
    ensures d > 0 && Resolve(names, s).Ok? ==> WriteValue(c, names, d, v, s) == WriteAs(c, names, WriterAt(c, names, d - 1), v, Resolve(names, s).value)
  {
    hide WriteAs, WriterAt, Resolve;
  }

  lemma NormLevel(c: Platform, names: Names, d: nat, v: AvroValue, s: Schema)
    ensures d > 0 && Resolve(names, s).Ok? ==> Norm(c, names, d, v, s) == NormAs(c, names, Normer(c, names, d - 1), v, Resolve(names, s).value)
  {
    hide NormAs, Normer, Resolve;
  }

  lemma FlawsLevel(c: Platform, names: Names, d: nat, v: AvroValue, s: Schema)
    ensures d > 0 && Resolve(names, s).Ok? ==> FlawsOf(c, names, d, v, s) == FlawsAs(names, Finder(c, names, d - 1), v, Resolve(names, s).value)
  {
    hide FlawsAs, Finder, Resolve;
  }
}
