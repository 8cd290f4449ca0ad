/**
 The matcher that picks union branches against the writer it picks them for and the validator in
 front of both: when a match is written, and when it passes validation.
 */
module AvroMatching {
  import opened Common
  import opened AvroTypes
  import opened Bytes
  import opened AvroCodec
  import opened AvroValidator
  import opened AvroRoundTrip
  import opened AvroDepth

  // ---------------------------------------------------------------- what is written matches

  ghost predicate WritesMatches(names: Names, wv: ValueWriter) {
    forall v, s :: wv(v, s).error.None? ==> Matches(names, v, s)
  }

  lemma {:induction false} FieldsMatch(names: Names, wv: ValueWriter, pairs: seq<Entry>, fields: seq<Field>)
    requires WritesMatches(names, wv) && WriteFields(wv, pairs, fields).error.None?
    ensures MatchFields(names, pairs, fields)
  {
    if fields != [] { FieldsMatch(names, wv, pairs, fields[1..]); }
  }

  lemma {:induction false} ItemsMatch(names: Names, wv: ValueWriter, vs: seq<AvroValue>, s: Schema)
    requires WritesMatches(names, wv) && WriteList(ItemWriter(wv, s), vs).error.None?
    ensures MatchItems(names, vs, s)
  {
    if vs != [] { ItemsMatch(names, wv, vs[1..], s); }
  }

  lemma {:induction false} EntriesMatch(names: Names, wv: ValueWriter, es: seq<Entry>, s: Schema)
    requires WritesMatches(names, wv) && WriteList(EntryWriter(wv, s), es).error.None?
    ensures MatchEntries(names, es, s)
  {
    if es != [] {
      assert EntryWriter(wv, s)(es[0]) == Then(Done(Prefixed(es[0].key)), wv(es[0].value, s));
      EntriesMatch(names, wv, es[1..], s);
    }
  }

  lemma {:induction false} AnyMatches(names: Names, v: AvroValue, alts: seq<Schema>, i: nat)
    requires i < |alts| && Matches(names, v, alts[i])
    ensures MatchAny(names, v, alts)
    decreases i
  {
    if i > 0 { AnyMatches(names, v, alts[1..], i - 1); }
  }

  lemma StepMatches(c: Platform, names: Names, wv: ValueWriter, v: AvroValue, schema: Schema)
    requires WritesMatches(names, wv) && WriteAs(c, names, wv, v, schema).error.None?
    ensures Matches(names, v, schema)
  {
    match schema
    case RecordType(_, _, fields) => FieldsMatch(names, wv, v.pairs, fields);
    case ArrayType(items) => ItemsMatch(names, wv, v.items, items);
    case MapType(values) => EntriesMatch(names, wv, v.entries, values);
    case UnionType(alts) =>
      var i: nat := Branch(names, v, alts).value;
      assert Matches(names, Payload(v), alts[i]);
      if !v.Union? { AnyMatches(names, v, alts, i); }
    case _ =>
  }

  /** Whatever is written, the matcher accepts. */
  lemma {:induction false} WrittenMatches(c: Platform, names: Names, depth: nat, v: AvroValue, s: Schema)
    requires WriteValue(c, names, depth, v, s).error.None?
    ensures Matches(names, v, s)
    decreases depth
  {
    var wv := WriterAt(c, names, depth - 1);
    forall v', s' | wv(v', s').error.None? ensures Matches(names, v', s') {
      WrittenMatches(c, names, depth - 1, v', s');
    }
    StepMatches(c, names, wv, v, Resolve(names, s).value);
  }

  // ---------------------------------------------------------------- the errors a writer can meet

  ghost predicate Errs(o: Out, p: EncodeError -> bool) {
    o.error.Some? ==> p(o.error.value)
  }

  lemma {:induction false} ListErrs<T>(we: T -> Out, xs: seq<T>, p: EncodeError -> bool)
    requires forall i :: 0 <= i < |xs| ==> Errs(we(xs[i]), p)
    ensures Errs(WriteList(we, xs), p)
  {
    if xs != [] {
      assert Errs(we(xs[0]), p);
      ListErrs(we, xs[1..], p);
    }
  }

  lemma {:induction false} FieldsErr(wv: ValueWriter, pairs: seq<Entry>, fields: seq<Field>, p: EncodeError -> bool)
    requires forall i :: 0 <= i < |fields| ==> match FieldValue(pairs, fields[i])
                                               case Some(v) => Errs(wv(v, fields[i].type_), p)
                                               case None => p(MissingField(fields[i].name))
    ensures Errs(WriteFields(wv, pairs, fields), p)
  {
    if fields != [] {
      assert FieldValue(pairs, fields[0]).Some? ==> Errs(wv(FieldValue(pairs, fields[0]).value, fields[0].type_), p);
      FieldsErr(wv, pairs, fields[1..], p);
    }
  }

  // ---------------------------------------------------------------- what matches is written

  /** Every field default is a value its field accepts. */
  ghost predicate DefaultsMatch(names: Names, s: Schema) {
    match s
    case RecordType(_, _, fields) =>
      forall i :: 0 <= i < |fields| ==>
        DefaultsMatch(names, fields[i].type_) && (fields[i].default.Some? ==> Matches(names, fields[i].default.value, fields[i].type_))
    case ArrayType(items) => DefaultsMatch(names, items)
    case MapType(values) => DefaultsMatch(names, values)
    case UnionType(alts) => forall i :: 0 <= i < |alts| ==> DefaultsMatch(names, alts[i])
    case _ => true
  }

  ghost predicate AllDefaultsMatch(names: Names) {
    forall n :: n in names ==> DefaultsMatch(names, names[n])
  }

  ghost function OutOfStack(): EncodeError -> bool {
    (e: EncodeError) => e == DepthExceeded
  }

  ghost predicate MatchesWrite(names: Names, wv: ValueWriter) {
    forall v, s :: Matches(names, v, s) && DefaultsMatch(names, s) ==> Errs(wv(v, s), OutOfStack())
  }

  lemma {:induction false} FieldMatches(names: Names, pairs: seq<Entry>, fields: seq<Field>, i: nat)
    requires MatchFields(names, pairs, fields) && i < |fields|
    ensures match Find(pairs, fields[i].name) case Some(v) => Matches(names, v, fields[i].type_) case None => fields[i].default.Some?
  {
    if i > 0 { FieldMatches(names, pairs, fields[1..], i - 1); }
  }

  lemma {:induction false} ItemMatches(names: Names, vs: seq<AvroValue>, s: Schema, i: nat)
    requires MatchItems(names, vs, s) && i < |vs|
    ensures Matches(names, vs[i], s)
  {
    if i > 0 { ItemMatches(names, vs[1..], s, i - 1); }
  }

  lemma {:induction false} EntryMatches(names: Names, es: seq<Entry>, s: Schema, i: nat)
    requires MatchEntries(names, es, s) && i < |es|
    ensures Matches(names, es[i].value, s)
  {
    if i > 0 { EntryMatches(names, es[1..], s, i - 1); }
  }

  lemma {:induction false} SomeMatch(names: Names, v: AvroValue, alts: seq<Schema>)
    requires MatchAny(names, v, alts)
    ensures FirstMatch(names, v, alts).Some?
  {
    if !Matches(names, v, alts[0]) { SomeMatch(names, v, alts[1..]); }
  }

  lemma StepWrites(c: Platform, names: Names, wv: ValueWriter, v: AvroValue, schema: Schema)
    requires MatchesWrite(names, wv) && Matches(names, v, schema) && DefaultsMatch(names, schema) && !schema.RefType?
    ensures Errs(WriteAs(c, names, wv, v, schema), OutOfStack())
  {
    match schema
    case RecordType(_, _, fields) =>
      forall i | 0 <= i < |fields|
        ensures match FieldValue(v.pairs, fields[i])
                case Some(w) => Errs(wv(w, fields[i].type_), OutOfStack())
                case None => OutOfStack()(MissingField(fields[i].name))
      {
        FieldMatches(names, v.pairs, fields, i);
        assert Matches(names, FieldValue(v.pairs, fields[i]).value, fields[i].type_);
      }
      FieldsErr(wv, v.pairs, fields, OutOfStack());
    case ArrayType(items) =>
      forall i | 0 <= i < |v.items| ensures Errs(ItemWriter(wv, items)(v.items[i]), OutOfStack()) {
        ItemMatches(names, v.items, items, i);
      }
      ListErrs(ItemWriter(wv, items), v.items, OutOfStack());
    case MapType(values) =>
      forall i | 0 <= i < |v.entries| ensures Errs(EntryWriter(wv, values)(v.entries[i]), OutOfStack()) {
        EntryMatches(names, v.entries, values, i);
        assert Errs(wv(v.entries[i].value, values), OutOfStack());
      }
      ListErrs(EntryWriter(wv, values), v.entries, OutOfStack());
    case UnionType(alts) =>
      if !v.Union? { SomeMatch(names, v, alts); }
      var i: nat := Branch(names, v, alts).value;
      assert Errs(wv(Payload(v), alts[i]), OutOfStack());
    case _ =>
  }

  lemma ResolvedMatches(names: Names, v: AvroValue, s: Schema)
    requires AllDefaultsMatch(names) && DefaultsMatch(names, s) && Matches(names, v, s)
    ensures var r := Resolve(names, s); r.Ok? && !r.value.RefType? && DefaultsMatch(names, r.value) && Matches(names, v, r.value)
  {
  }

  /** With defaults that match, a match can only fail to be written for want of stack. */
  lemma {:induction false} MatchedWrites(c: Platform, names: Names, depth: nat, v: AvroValue, s: Schema)
    requires AllDefaultsMatch(names) && DefaultsMatch(names, s) && Matches(names, v, s)
    ensures Errs(WriteValue(c, names, depth, v, s), OutOfStack())
    decreases depth
  {
    hide Matches, DefaultsMatch, AllDefaultsMatch, WriteAs;
    if depth > 0 {
      ResolvedMatches(names, v, s);
      var wv := WriterAt(c, names, depth - 1);
      forall v', s' | Matches(names, v', s') && DefaultsMatch(names, s') ensures Errs(wv(v', s'), OutOfStack()) {
        MatchedWrites(c, names, depth - 1, v', s');
      }
      StepWrites(c, names, wv, v, Resolve(names, s).value);
    }
  }

  // ---------------------------------------------------------------- references without cycles

  /** `s` unfolds, references included, to at most `h` levels. */
  ghost predicate Unfolds(names: Names, s: Schema, h: nat)
    decreases h
  {
    match Resolve(names, s)
    case Err(_) => h > 0
    case Ok(schema) => h > 0 && UnfoldsInside(names, schema, h)
  }

  ghost predicate UnfoldsInside(names: Names, schema: Schema, h: nat)
    requires h > 0
    decreases h, 0
  {
    match schema
    case RecordType(_, _, fields) => forall i :: 0 <= i < |fields| ==> Unfolds(names, fields[i].type_, h - 1)
    case ArrayType(items) => Unfolds(names, items, h - 1)
    case MapType(values) => Unfolds(names, values, h - 1)
    case UnionType(alts) => forall i :: 0 <= i < |alts| ==> Unfolds(names, alts[i], h - 1)
    case _ => true
  }

  lemma {:induction false} UnfoldsMore(names: Names, s: Schema, h: nat, h': nat)
    requires Unfolds(names, s, h) && h <= h'
    ensures Unfolds(names, s, h')
    decreases h
  {
    if Resolve(names, s).Ok? {
      match Resolve(names, s).value
      case RecordType(_, _, fields) =>
        forall i | 0 <= i < |fields| ensures Unfolds(names, fields[i].type_, h' - 1) { UnfoldsMore(names, fields[i].type_, h - 1, h' - 1); }
      case ArrayType(items) => UnfoldsMore(names, items, h - 1, h' - 1);
      case MapType(values) => UnfoldsMore(names, values, h - 1, h' - 1);
      case UnionType(alts) =>
        forall i | 0 <= i < |alts| ensures Unfolds(names, alts[i], h' - 1) { UnfoldsMore(names, alts[i], h - 1, h' - 1); }
      case _ =>
    }
  }

  ghost function Tallest(ss: seq<Schema>): nat
    ensures forall i :: 0 <= i < |ss| ==> Height(ss[i]) <= Tallest(ss)
  {
    if ss == [] then 0 else var t := Tallest(ss[1..]); if Height(ss[0]) > t then Height(ss[0]) else t
  }

  ghost function TallestField(fs: seq<Field>): nat
    ensures forall i :: 0 <= i < |fs| ==> Height(fs[i].type_) <= TallestField(fs)
  {
    if fs == [] then 0 else var t := TallestField(fs[1..]); if Height(fs[0].type_) > t then Height(fs[0].type_) else t
  }

  ghost function Height(s: Schema): nat {
    match s
    case RecordType(_, _, fields) => TallestField(fields) + 1
    case ArrayType(items) => Height(items) + 1
    case MapType(values) => Height(values) + 1
    case UnionType(alts) => Tallest(alts) + 1
    case _ => 1
  }

  /** Every reference in `s` to a known name ranks below `r`. */
  ghost predicate RefsBelow(names: Names, rank: Text -> nat, s: Schema, r: nat) {
    match s
    case RefType(n) => n in names ==> rank(n) < r
    case RecordType(_, _, fields) => forall i :: 0 <= i < |fields| ==> RefsBelow(names, rank, fields[i].type_, r)
    case ArrayType(items) => RefsBelow(names, rank, items, r)
    case MapType(values) => RefsBelow(names, rank, values, r)
    case UnionType(alts) => forall i :: 0 <= i < |alts| ==> RefsBelow(names, rank, alts[i], r)
    case _ => true
  }

  /** No named type reaches itself: the references inside each rank below it. */
  ghost predicate Acyclic(names: Names, rank: Text -> nat) {
    forall n :: n in names ==> RefsBelow(names, rank, names[n], rank(n))
  }

  /** Room for `r` named types inside one another, each at most `m` high. */
  ghost function Rounds(r: nat, m: nat): nat {
    if r == 0 then 0 else m + Rounds(r - 1, m)
  }

  lemma {:induction false} RoundsMore(r: nat, r': nat, m: nat)
    requires r < r'
    ensures m + Rounds(r, m) <= Rounds(r', m)
    decreases r'
  {
    if r + 1 < r' { RoundsMore(r, r' - 1, m); }
  }

  ghost predicate HeightsBelow(names: Names, m: nat) {
    forall n :: n in names ==> Height(names[n]) <= m
  }

  lemma {:induction false} AcyclicUnfolds(names: Names, rank: Text -> nat, m: nat, s: Schema, r: nat)
    requires Acyclic(names, rank) && RefsBelow(names, rank, s, r) && HeightsBelow(names, m)
    ensures Unfolds(names, s, Height(s) + Rounds(r, m))
    decreases r, s, 0
  {
    hide Acyclic, Rounds, HeightsBelow, Tallest, TallestField;
    var h := Rounds(r, m);
    match s
    case RefType(n) => if n in names { NamedUnfolds(names, rank, m, n, r); }
    case RecordType(_, _, fields) =>
      forall i | 0 <= i < |fields| ensures Unfolds(names, fields[i].type_, Height(fields[i].type_) + h) {
        AcyclicUnfolds(names, rank, m, fields[i].type_, r);
      }
      RecordUnfolds(names, s, h);
    case ArrayType(items) => AcyclicUnfolds(names, rank, m, items, r);
    case MapType(values) => AcyclicUnfolds(names, rank, m, values, r);
    case UnionType(alts) =>
      forall i | 0 <= i < |alts| ensures Unfolds(names, alts[i], Height(alts[i]) + h) {
        AcyclicUnfolds(names, rank, m, alts[i], r);
      }
      UnionUnfolds(names, alts, h);
    case _ =>
  }

  lemma RecordUnfolds(names: Names, s: Schema, h: nat)
    requires s.RecordType? && forall i :: 0 <= i < |s.fields| ==> Unfolds(names, s.fields[i].type_, Height(s.fields[i].type_) + h)
    ensures Unfolds(names, s, Height(s) + h)
  {
    var top := TallestField(s.fields) + h;
    forall i | 0 <= i < |s.fields| ensures Unfolds(names, s.fields[i].type_, top) {
      UnfoldsMore(names, s.fields[i].type_, Height(s.fields[i].type_) + h, top);
    }
    assert UnfoldsInside(names, s, top + 1);
  }

  lemma UnionUnfolds(names: Names, alts: seq<Schema>, h: nat)
    requires forall i :: 0 <= i < |alts| ==> Unfolds(names, alts[i], Height(alts[i]) + h)
    ensures Unfolds(names, UnionType(alts), Height(UnionType(alts)) + h)
  {
    var top := Tallest(alts) + h;
    forall i | 0 <= i < |alts| ensures Unfolds(names, alts[i], top) { UnfoldsMore(names, alts[i], Height(alts[i]) + h, top); }
    assert UnfoldsInside(names, UnionType(alts), top + 1);
  }

  lemma {:induction false} NamedUnfolds(names: Names, rank: Text -> nat, m: nat, n: Text, r: nat)
    requires Acyclic(names, rank) && HeightsBelow(names, m) && n in names && rank(n) < r
    ensures Unfolds(names, RefType(n), 1 + Rounds(r, m))
    decreases rank(n), names[n], 1
  {
    hide Rounds;
    AcyclicUnfolds(names, rank, m, names[n], rank(n));
    RoundsMore(rank(n), r, m);
    UnfoldsMore(names, names[n], Height(names[n]) + Rounds(rank(n), m), 1 + Rounds(r, m));
  }

  lemma {:induction false} HeightBound(names: Names) returns (m: nat)
    ensures HeightsBelow(names, m)
    decreases |names|
  {
    m := 0;
    if n :| n in names {
      var m' := HeightBound(names - {n});
      m := if Height(names[n]) > m' then Height(names[n]) else m';
      forall n' | n' in names ensures Height(names[n']) <= m {
        assert n' != n ==> n' in names - {n};
      }
    }
  }

  ghost function Finished(): EncodeError -> bool {
    (e: EncodeError) => e != DepthExceeded
  }

  ghost predicate Finishes(names: Names, wv: ValueWriter, h: nat) {
    forall v, s :: Unfolds(names, s, h) ==> Errs(wv(v, s), Finished())
  }

  lemma RecordFinishes(c: Platform, names: Names, wv: ValueWriter, v: AvroValue, s: Schema, h: nat)
    requires s.RecordType? && h > 0 && UnfoldsInside(names, s, h) && Finishes(names, wv, h - 1)
    ensures Errs(WriteAs(c, names, wv, v, s), Finished())
  {
    hide Unfolds, WriteFields;
    if v.Record? { FieldsErr(wv, v.pairs, s.fields, Finished()); }
  }

  lemma ArrayFinishes(c: Platform, names: Names, wv: ValueWriter, v: AvroValue, s: Schema, h: nat)
    requires s.ArrayType? && h > 0 && UnfoldsInside(names, s, h) && Finishes(names, wv, h - 1)
    ensures Errs(WriteAs(c, names, wv, v, s), Finished())
  {
    hide Unfolds, WriteList, Varint;
    if v.Array? {
      forall i | 0 <= i < |v.items| ensures Errs(ItemWriter(wv, s.items)(v.items[i]), Finished()) { }
      ListErrs(ItemWriter(wv, s.items), v.items, Finished());
    }
  }

  lemma MapFinishes(c: Platform, names: Names, wv: ValueWriter, v: AvroValue, s: Schema, h: nat)
    requires s.MapType? && h > 0 && UnfoldsInside(names, s, h) && Finishes(names, wv, h - 1)
    ensures Errs(WriteAs(c, names, wv, v, s), Finished())
  {
    hide Unfolds, WriteList, Varint;
    if v.Map? {
      forall i | 0 <= i < |v.entries| ensures Errs(EntryWriter(wv, s.values)(v.entries[i]), Finished()) {
        assert Errs(wv(v.entries[i].value, s.values), Finished());
      }
      ListErrs(EntryWriter(wv, s.values), v.entries, Finished());
    }
  }

  lemma UnionFinishes(c: Platform, names: Names, wv: ValueWriter, v: AvroValue, s: Schema, h: nat)
    requires s.UnionType? && h > 0 && UnfoldsInside(names, s, h) && Finishes(names, wv, h - 1)
    ensures Errs(WriteAs(c, names, wv, v, s), Finished())
  {
    hide Unfolds, Matches, FirstMatch, Varint;
    var branch := Branch(names, v, s.alternatives);
    if branch.Ok? { assert Errs(wv(Payload(v), s.alternatives[branch.value]), Finished()); }
  }

  lemma StepFinishes(c: Platform, names: Names, wv: ValueWriter, v: AvroValue, schema: Schema, h: nat)
    requires h > 0 && UnfoldsInside(names, schema, h) && Finishes(names, wv, h - 1)
    ensures Errs(WriteAs(c, names, wv, v, schema), Finished())
  {
    hide UnfoldsInside, Finishes;
    if schema.RecordType? {
      RecordFinishes(c, names, wv, v, schema, h);
    } else if schema.ArrayType? {
      ArrayFinishes(c, names, wv, v, schema, h);
    } else if schema.MapType? {
      MapFinishes(c, names, wv, v, schema, h);
    } else if schema.UnionType? {
      UnionFinishes(c, names, wv, v, schema, h);
    }
  }

  /** Stack for as many calls as the schema unfolds to is enough for any value. */
  lemma {:induction false} UnfoldedWrites(c: Platform, names: Names, depth: nat, v: AvroValue, s: Schema)
    requires Unfolds(names, s, depth)
    ensures Errs(WriteValue(c, names, depth, v, s), Finished())
    decreases depth
  {
    if Resolve(names, s).Ok? {
      var wv := WriterAt(c, names, depth - 1);
      forall v', s' | Unfolds(names, s', depth - 1) ensures Errs(wv(v', s'), Finished()) {
        UnfoldedWrites(c, names, depth - 1, v', s');
      }
      StepFinishes(c, names, wv, v, Resolve(names, s).value, depth);
    }
  }

  /** From `h` levels of stack on, the writer takes exactly what the matcher accepts. */
  ghost predicate MatchIsWrite(c: Platform, names: Names, s: Schema, h: nat) {
    forall depth: nat, v :: h <= depth ==> (Matches(names, v, s) <==> WriteValue(c, names, depth, v, s).error.None?)
  }

  /**
   When every default matches its field and references make no cycle, one depth of stack serves all
   values: from there on the matcher accepts exactly what is written.
   */
  lemma OneDepthForAll(c: Platform, names: Names, rank: Text -> nat, s: Schema, r: nat)
    requires Acyclic(names, rank) && RefsBelow(names, rank, s, r)
    requires AllDefaultsMatch(names) && DefaultsMatch(names, s)
    ensures exists h: nat :: MatchIsWrite(c, names, s, h)
  {
    hide Matches, WriteValue, Unfolds, Acyclic, RefsBelow, DefaultsMatch, AllDefaultsMatch, Height, HeightsBelow, Rounds;
    var m := HeightBound(names);
    AcyclicUnfolds(names, rank, m, s, r);
    var h: nat := Height(s) + Rounds(r, m);
    forall depth: nat, v | h <= depth ensures Matches(names, v, s) <==> WriteValue(c, names, depth, v, s).error.None? {
      UnfoldsMore(names, s, h, depth);
      UnfoldedWrites(c, names, depth, v, s);
      if Matches(names, v, s) { MatchedWrites(c, names, depth, v, s); }
      if WriteValue(c, names, depth, v, s).error.None? { WrittenMatches(c, names, depth, v, s); }
    }
    assert MatchIsWrite(c, names, s, h);
  }

  // ---------------------------------------------------------------- what matches can be written, recursive schemas included

  /** With some depth of stack it is written. */
  ghost predicate Writable(c: Platform, names: Names, v: AvroValue, s: Schema) {
    exists h: nat :: WriteValue(c, names, h, v, s).error.None?
  }

  ghost predicate Inhabited(names: Names, s: Schema) {
    exists v :: Matches(names, v, s)
  }

  /** A value of `s` may hold a value of `p`. */
  ghost predicate Holds(names: Names, s: Schema, p: Schema) {
    match s
    case RefType(n) => n in names && p == names[n]
    case RecordType(_, _, fields) => Inhabited(names, s) && exists i :: 0 <= i < |fields| && fields[i].type_ == p
    case ArrayType(items) => p == items
    case MapType(values) => p == values
    case UnionType(alts) => p in alts
    case _ => false
  }

  /** A value of `s` may hold one of `p`, `k` steps down. */
  ghost predicate Reaches(names: Names, s: Schema, p: Schema, k: nat)
    decreases k
  {
    if k == 0 then p == s else exists q :: Holds(names, s, q) && Reaches(names, q, p, k - 1)
  }

  /** A record with any value has no default that cannot be written. */
  ghost predicate OwnDefaultsWrite(c: Platform, names: Names, s: Schema) {
    s.RecordType? && Inhabited(names, s) ==>
      forall i :: 0 <= i < |s.fields| && s.fields[i].default.Some? ==> Writable(c, names, s.fields[i].default.value, s.fields[i].type_)
  }

  /** That of every record inside a value of `s`. */
  ghost predicate DefaultsWrite(c: Platform, names: Names, s: Schema) {
    forall p, k: nat :: Reaches(names, s, p, k) ==> OwnDefaultsWrite(c, names, p)
  }

  predicate DistinctFields(fields: seq<Field>) {
    forall i, j :: 0 <= i < j < |fields| ==> fields[i].name != fields[j].name
  }

  /** Every record inside a value of `s` has distinct field names, as the validator demands. */
  ghost predicate FieldsDistinct(names: Names, s: Schema) {
    forall p, k: nat :: Reaches(names, s, p, k) && p.RecordType? ==> DistinctFields(p.fields)
  }

  lemma ReachesPart(names: Names, s: Schema, p: Schema, q: Schema, k: nat)
    requires Holds(names, s, p) && Reaches(names, p, q, k)
    ensures Reaches(names, s, q, k + 1)
  {
  }

  lemma DefaultsInside(c: Platform, names: Names, s: Schema)
    requires DefaultsWrite(c, names, s)
    ensures OwnDefaultsWrite(c, names, s)
    ensures forall p :: Holds(names, s, p) ==> DefaultsWrite(c, names, p)
  {
    hide Holds, OwnDefaultsWrite;
    assert Reaches(names, s, s, 0);
    forall p | Holds(names, s, p) ensures DefaultsWrite(c, names, p) {
      forall q, k: nat | Reaches(names, p, q, k) ensures OwnDefaultsWrite(c, names, q) { ReachesPart(names, s, p, q, k); }
    }
  }

  lemma Extending(c: Platform, names: Names, h: nat, h': nat)
    requires h <= h'
    ensures Extends(At(c, names, h), At(c, names, h'))
    ensures At(c, names, h).w == WriterAt(c, names, h)
  {
    hide WriteValue, Norm, FlawsOf;
    var p, q := At(c, names, h), At(c, names, h');
    forall v, s | p.w(v, s).error.None? ensures q.w(v, s) == p.w(v, s) && q.n(v, s) == p.n(v, s) && q.f(v, s) == p.f(v, s) {
      Deeper(c, names, h, h', v, s);
    }
  }

  lemma Higher(c: Platform, names: Names, h: nat, h': nat, v: AvroValue, s: Schema)
    requires WriterAt(c, names, h)(v, s).error.None? && h <= h'
    ensures WriterAt(c, names, h')(v, s).error.None?
  {
    Deeper(c, names, h, h', v, s);
  }

  lemma ResolvedWrites(c: Platform, names: Names, h: nat, v: AvroValue, s: Schema)
    requires Resolve(names, s).Ok?
    ensures WriteValue(c, names, h + 1, v, s) == WriteAs(c, names, WriterAt(c, names, h), v, Resolve(names, s).value)
  {
    hide WriteAs;
  }

  /** A match is written with some depth of stack, if the defaults in it are. */
  lemma {:induction false} Write(c: Platform, names: Names, v: AvroValue, s: Schema) returns (h: nat)
    requires DefaultsWrite(c, names, s) && Matches(names, v, s)
    ensures WriteValue(c, names, h, v, s).error.None?
    decreases v, Stage(s), s
  {
    hide WriteAs, DefaultsWrite, WriteValue, OwnDefaultsWrite, WriterAt;
    DefaultsInside(c, names, s);
    var d: nat := 0;
    match s {
      case RefType(n) =>
        h := Write(c, names, v, names[n]);
        SameTarget(c, names, h, v, n);
        return;
      case RecordType(_, _, fields) =>
        assert Inhabited(names, s);
        d := FieldsWrite(c, names, s, v.pairs, 0);
        assert fields[0..] == fields;
      case ArrayType(items) => d := ItemsWrite(c, names, v.items, items);
      case MapType(values) => d := EntriesWrite(c, names, v.entries, values);
      case UnionType(alts) =>
        if !v.Union? { SomeMatch(names, v, alts); }
        var i: nat := Branch(names, v, alts).value;
        d := WriteBranch(c, names, v, alts, i);
      case _ =>
    }
    ResolvedWrites(c, names, d, v, s);
    h := d + 1;
    WrittenInside(c, names, WriterAt(c, names, d), v, s);
  }

  lemma SameTarget(c: Platform, names: Names, h: nat, v: AvroValue, n: Text)
    requires n in names
    ensures WriteValue(c, names, h, v, RefType(n)) == WriteValue(c, names, h, v, names[n])
  {
    hide WriteAs;
  }

  /** Where all that is inside is written, so is the value. */
  lemma WrittenInside(c: Platform, names: Names, wv: ValueWriter, v: AvroValue, s: Schema)
    requires Matches(names, v, s) && !s.RefType?
    requires s.RecordType? ==> WriteFields(wv, v.pairs, s.fields).error.None?
    requires s.ArrayType? ==> WriteList(ItemWriter(wv, s.items), v.items).error.None?
    requires s.MapType? ==> WriteList(EntryWriter(wv, s.values), v.entries).error.None?
    requires s.UnionType? ==> var b := Branch(names, v, s.alternatives); b.Ok? && wv(Payload(v), s.alternatives[b.value]).error.None?
    ensures WriteAs(c, names, wv, v, s).error.None?
  {
    hide WriteFields, WriteList, FirstMatch;
  }

  lemma {:induction false} WriteBranch(c: Platform, names: Names, v: AvroValue, alts: seq<Schema>, i: nat) returns (h: nat)
    requires DefaultsWrite(c, names, UnionType(alts)) && Branch(names, v, alts) == Ok(i) && (v.Union? ==> Matches(names, v.value, alts[i]))
    ensures WriterAt(c, names, h)(Payload(v), alts[i]).error.None?
    decreases v, 1, alts
  {
    hide WriteValue, DefaultsWrite;
    DefaultsInside(c, names, UnionType(alts));
    assert alts[i] in alts && Holds(names, UnionType(alts), alts[i]);
    h := Write(c, names, Payload(v), alts[i]);
  }

  lemma {:induction false} FieldsWrite(c: Platform, names: Names, s: Schema, pairs: seq<Entry>, k: nat) returns (h: nat)
    requires s.RecordType? && k <= |s.fields| && DefaultsWrite(c, names, s) && Inhabited(names, s) && MatchFields(names, pairs, s.fields[k..])
    ensures WriteFields(WriterAt(c, names, h), pairs, s.fields[k..]).error.None?
    decreases pairs, 0, s, |s.fields| - k
  {
    hide WriteValue, DefaultsWrite;
    h := 0;
    if k < |s.fields| {
      var f := s.fields[k];
      assert s.fields[k..][0] == f && s.fields[k..][1..] == s.fields[k + 1..];
      var rest := FieldsWrite(c, names, s, pairs, k + 1);
      DefaultsInside(c, names, s);
      assert Holds(names, s, f.type_);
      var own: nat := 0;
      if Find(pairs, f.name).Some? {
        own := Write(c, names, Find(pairs, f.name).value, f.type_);
      } else {
        own :| WriteValue(c, names, own, f.default.value, f.type_).error.None?;
      }
      h := if own > rest then own else rest;
      Higher(c, names, own, h, FieldValue(pairs, f).value, f.type_);
      Extending(c, names, rest, h);
      FieldsExtend(At(c, names, rest), At(c, names, h), pairs, s.fields[k + 1..]);
    }
  }

  lemma {:induction false} ItemsWrite(c: Platform, names: Names, vs: seq<AvroValue>, s: Schema) returns (h: nat)
    requires DefaultsWrite(c, names, s) && MatchItems(names, vs, s)
    ensures WriteList(ItemWriter(WriterAt(c, names, h), s), vs).error.None?
    decreases vs, 0, s
  {
    hide WriteValue, DefaultsWrite;
    h := 0;
    if vs != [] {
      var own := Write(c, names, vs[0], s);
      var rest := ItemsWrite(c, names, vs[1..], s);
      h := if own > rest then own else rest;
      Higher(c, names, own, h, vs[0], s);
      Extending(c, names, rest, h);
      ItemsExtend(At(c, names, rest), At(c, names, h), vs[1..], s);
    }
  }

  lemma {:induction false} EntriesWrite(c: Platform, names: Names, es: seq<Entry>, s: Schema) returns (h: nat)
    requires DefaultsWrite(c, names, s) && MatchEntries(names, es, s)
    ensures WriteList(EntryWriter(WriterAt(c, names, h), s), es).error.None?
    decreases es, 0, s
  {
    hide WriteValue, DefaultsWrite;
    h := 0;
    if es != [] {
      var own := Write(c, names, es[0].value, s);
      var rest := EntriesWrite(c, names, es[1..], s);
      h := if own > rest then own else rest;
      Higher(c, names, own, h, es[0].value, s);
      EntryWritten(WriterAt(c, names, h), s, es[0]);
      Extending(c, names, rest, h);
      EntriesExtend(At(c, names, rest), At(c, names, h), es[1..], s);
    }
  }

  // ---------------------------------------------------------------- and only then

  ghost predicate MatchesAreWritable(c: Platform, names: Names, s: Schema) {
    forall v :: Matches(names, v, s) ==> Writable(c, names, v, s)
  }

  function Without(pairs: seq<Entry>, key: Text): seq<Entry> {
    if pairs == [] then [] else (if pairs[0].key == key then [] else [pairs[0]]) + Without(pairs[1..], key)
  }

  lemma {:induction false} FindWithout(pairs: seq<Entry>, key: Text, other: Text)
    ensures Find(Without(pairs, key), other) == if other == key then None else Find(pairs, other)
  {
    if pairs != [] {
      FindWithout(pairs[1..], key, other);
      var rest := Without(pairs[1..], key);
      if pairs[0].key == key {
        assert Without(pairs, key) == [] + rest == rest;
      } else {
        assert Without(pairs, key) == [pairs[0]] + rest && ([pairs[0]] + rest)[1..] == rest;
      }
    }
  }

  lemma {:induction false} AllFieldsMatch(names: Names, pairs: seq<Entry>, fields: seq<Field>)
    requires forall i :: 0 <= i < |fields| ==> match Find(pairs, fields[i].name)
                                               case Some(v) => Matches(names, v, fields[i].type_)
                                               case None => fields[i].default.Some?
    ensures MatchFields(names, pairs, fields)
  {
    if fields != [] { AllFieldsMatch(names, pairs, fields[1..]); }
  }

  lemma {:induction false} FieldWritten(wv: ValueWriter, pairs: seq<Entry>, fields: seq<Field>, i: nat)
    requires WriteFields(wv, pairs, fields).error.None? && i < |fields|
    ensures FieldValue(pairs, fields[i]).Some? && wv(FieldValue(pairs, fields[i]).value, fields[i].type_).error.None?
  {
    if i > 0 { FieldWritten(wv, pairs, fields[1..], i - 1); }
  }

  /** In a record with distinct field names, a field may take any value of its type, or its default. */
  lemma FieldFree(names: Names, v: AvroValue, s: Schema, i: nat, w: AvroValue)
    requires s.RecordType? && DistinctFields(s.fields) && Matches(names, v, s) && i < |s.fields|
    ensures Matches(names, w, s.fields[i].type_) ==> Matches(names, Record([Entry(s.fields[i].name, w)] + v.pairs), s)
    ensures s.fields[i].default.Some? ==> Matches(names, Record(Without(v.pairs, s.fields[i].name)), s)
  {
    var fields, key := s.fields, s.fields[i].name;
    var more, fewer := [Entry(key, w)] + v.pairs, Without(v.pairs, key);
    assert more[1..] == v.pairs;
    forall j | 0 <= j < |fields|
      ensures Find(more, fields[j].name) == if j == i then Some(w) else Find(v.pairs, fields[j].name)
      ensures Find(fewer, fields[j].name) == if j == i then None else Find(v.pairs, fields[j].name)
      ensures match Find(v.pairs, fields[j].name) case Some(u) => Matches(names, u, fields[j].type_) case None => fields[j].default.Some?
    {
      FieldMatches(names, v.pairs, fields, j);
      FindWithout(v.pairs, key, fields[j].name);
      assert fields[j].name == key ==> j == i;
    }
    if Matches(names, w, fields[i].type_) { AllFieldsMatch(names, more, fields); }
    if fields[i].default.Some? { AllFieldsMatch(names, fewer, fields); }
  }

  /** What a written record wrote for a field. */
  lemma RecordWritten(c: Platform, names: Names, pairs: seq<Entry>, s: Schema, i: nat)
    requires s.RecordType? && i < |s.fields| && Writable(c, names, Record(pairs), s)
    ensures FieldValue(pairs, s.fields[i]).Some? && Writable(c, names, FieldValue(pairs, s.fields[i]).value, s.fields[i].type_)
  {
    hide WriteFields;
    var h: nat :| WriteValue(c, names, h, Record(pairs), s).error.None?;
    FieldWritten(WriterAt(c, names, h - 1), pairs, s.fields, i);
    var w := FieldValue(pairs, s.fields[i]).value;
    assert WriterAt(c, names, h - 1)(w, s.fields[i].type_) == WriteValue(c, names, h - 1, w, s.fields[i].type_);
  }

  /** Where every match can be written, so can the defaults of the record and every match of what is inside. */
  lemma PartsWrite(c: Platform, names: Names, s: Schema, p: Schema)
    requires MatchesAreWritable(c, names, s) && (s.RecordType? ==> DistinctFields(s.fields))
    ensures OwnDefaultsWrite(c, names, s)
    ensures Holds(names, s, p) ==> MatchesAreWritable(c, names, p)
  {
    hide WriteValue, Matches, Writable;
    if s.RecordType? {
      if v :| Matches(names, v, s) {
        RecordValue(names, v, s);
        forall i | 0 <= i < |s.fields| && s.fields[i].default.Some?
          ensures Writable(c, names, s.fields[i].default.value, s.fields[i].type_)
        {
          FieldFree(names, v, s, i, Null);
          RecordWritten(c, names, Without(v.pairs, s.fields[i].name), s, i);
          FindWithout(v.pairs, s.fields[i].name, s.fields[i].name);
        }
        if Holds(names, s, p) {
          var i :| 0 <= i < |s.fields| && s.fields[i].type_ == p;
          forall w | Matches(names, w, p) ensures Writable(c, names, w, p) {
            FieldFree(names, v, s, i, w);
            RecordWritten(c, names, [Entry(s.fields[i].name, w)] + v.pairs, s, i);
          }
        }
      }
    } else if Holds(names, s, p) {
      forall w | Matches(names, w, p) ensures Writable(c, names, w, p) {
        match s
        case RefType(n) => RefWritten(c, names, w, n);
        case ArrayType(items) => ItemWritten(c, names, w, items);
        case MapType(values) => ValueWritten(c, names, w, values);
        case UnionType(alts) =>
          var i :| 0 <= i < |alts| && alts[i] == p;
          BranchWritten(c, names, w, alts, i);
      }
    }
  }

  lemma RecordValue(names: Names, v: AvroValue, s: Schema)
    requires s.RecordType? && Matches(names, v, s)
    ensures v.Record?
  {
  }

  lemma RefWritten(c: Platform, names: Names, w: AvroValue, n: Text)
    requires n in names && Matches(names, w, names[n]) && MatchesAreWritable(c, names, RefType(n))
    ensures Writable(c, names, w, names[n])
  {
    hide WriteValue;
    assert Matches(names, w, RefType(n));
    var h: nat :| WriteValue(c, names, h, w, RefType(n)).error.None?;
    SameTarget(c, names, h, w, n);
  }

  lemma ItemWritten(c: Platform, names: Names, w: AvroValue, items: Schema)
    requires Matches(names, w, items) && MatchesAreWritable(c, names, ArrayType(items))
    ensures Writable(c, names, w, items)
  {
    assert MatchItems(names, [w], items) && Matches(names, Array([w]), ArrayType(items));
    var h: nat :| WriteValue(c, names, h, Array([w]), ArrayType(items)).error.None?;
    var wv := WriterAt(c, names, h - 1);
    assert WriteList(ItemWriter(wv, items), [w]).error.None?;
    assert ItemWriter(wv, items)(w) == WriteValue(c, names, h - 1, w, items);
  }

  lemma ValueWritten(c: Platform, names: Names, w: AvroValue, values: Schema)
    requires Matches(names, w, values) && MatchesAreWritable(c, names, MapType(values))
    ensures Writable(c, names, w, values)
  {
    var e := Entry([], w);
    assert MatchEntries(names, [e], values) && Matches(names, Map([e]), MapType(values));
    var h: nat :| WriteValue(c, names, h, Map([e]), MapType(values)).error.None?;
    var wv := WriterAt(c, names, h - 1);
    assert WriteList(EntryWriter(wv, values), [e]).error.None?;
    EntryWritten(wv, values, e);
    assert wv(w, values) == WriteValue(c, names, h - 1, w, values);
  }

  lemma BranchWritten(c: Platform, names: Names, w: AvroValue, alts: seq<Schema>, i: nat)
    requires i < |alts| && Matches(names, w, alts[i]) && MatchesAreWritable(c, names, UnionType(alts))
    ensures Writable(c, names, w, alts[i])
  {
    assert Matches(names, Union(i, w), UnionType(alts));
    var h: nat :| WriteValue(c, names, h, Union(i, w), UnionType(alts)).error.None?;
    assert WriterAt(c, names, h - 1)(w, alts[i]) == WriteValue(c, names, h - 1, w, alts[i]);
  }

  lemma {:induction false} ReachedWrite(c: Platform, names: Names, s: Schema, p: Schema, k: nat)
    requires MatchesAreWritable(c, names, s) && FieldsDistinct(names, s) && Reaches(names, s, p, k)
    ensures OwnDefaultsWrite(c, names, p)
    decreases k
  {
    hide MatchesAreWritable, OwnDefaultsWrite, Holds;
    assert Reaches(names, s, s, 0);
    if k == 0 {
      PartsWrite(c, names, s, s);
    } else {
      var q :| Holds(names, s, q) && Reaches(names, q, p, k - 1);
      PartsWrite(c, names, s, q);
      forall q', k': nat | Reaches(names, q, q', k') && q'.RecordType? ensures DistinctFields(q'.fields) { ReachesPart(names, s, q, q', k'); }
      ReachedWrite(c, names, q, p, k - 1);
    }
  }

  /**
   The matcher accepts exactly the values that can be written, recursive schemas included, if and only
   if no record that a value may hold has a default that cannot itself be written under its field.
   */
  lemma MatchExactlyWrites(c: Platform, names: Names, s: Schema)
    requires FieldsDistinct(names, s)
    ensures (forall v :: Matches(names, v, s) <==> Writable(c, names, v, s)) <==> DefaultsWrite(c, names, s)
  {
    hide Matches, WriteValue, Reaches, OwnDefaultsWrite;
    if DefaultsWrite(c, names, s) {
      forall v ensures Matches(names, v, s) <==> Writable(c, names, v, s) { MatchIffWritable(c, names, v, s); }
    } else if MatchesAreWritable(c, names, s) {
      var p, k: nat :| Reaches(names, s, p, k) && !OwnDefaultsWrite(c, names, p);
      ReachedWrite(c, names, s, p, k);
    }
  }

  lemma MatchIffWritable(c: Platform, names: Names, v: AvroValue, s: Schema)
    requires DefaultsWrite(c, names, s)
    ensures Matches(names, v, s) <==> Writable(c, names, v, s)
  {
    hide Matches, Writable, DefaultsWrite;
    if Matches(names, v, s) { MatchIsWritable(c, names, v, s); }
    if Writable(c, names, v, s) { WritableMatches(c, names, v, s); }
  }

  lemma MatchIsWritable(c: Platform, names: Names, v: AvroValue, s: Schema)
    requires DefaultsWrite(c, names, s) && Matches(names, v, s)
    ensures Writable(c, names, v, s)
  {
    hide WriteValue, Matches, DefaultsWrite;
    var h := Write(c, names, v, s);
  }

  lemma WritableMatches(c: Platform, names: Names, v: AvroValue, s: Schema)
    requires Writable(c, names, v, s)
    ensures Matches(names, v, s)
  {
    hide WriteValue, Matches;
    var h: nat :| WriteValue(c, names, h, v, s).error.None?;
    WrittenMatches(c, names, h, v, s);
  }

  // ---------------------------------------------------------------- conditions that can be read off the schema

  /** What every part of a schema has, and every named type, has all that a value may hold. */
  lemma {:induction false} Reached(names: Names, holds: Schema -> bool, s: Schema, p: Schema, k: nat)
    requires holds(s) && (forall s', q :: holds(s') && Holds(names, s', q) ==> holds(q)) && Reaches(names, s, p, k)
    ensures holds(p)
    decreases k
  {
    hide Holds;
    if k > 0 {
      var q :| Holds(names, s, q) && Reaches(names, q, p, k - 1);
      Reached(names, holds, q, p, k - 1);
    }
  }

  /** Every default anywhere in the schema can be written under its field. */
  ghost predicate EveryDefaultWrites(c: Platform, names: Names, s: Schema) {
    match s
    case RecordType(_, _, fields) =>
      forall i :: 0 <= i < |fields| ==>
        EveryDefaultWrites(c, names, fields[i].type_) && (fields[i].default.Some? ==> Writable(c, names, fields[i].default.value, fields[i].type_))
    case ArrayType(items) => EveryDefaultWrites(c, names, items)
    case MapType(values) => EveryDefaultWrites(c, names, values)
    case UnionType(alts) => forall i :: 0 <= i < |alts| ==> EveryDefaultWrites(c, names, alts[i])
    case _ => true
  }

  /** It is enough to try to encode each default. */
  lemma DefaultsTried(c: Platform, names: Names, s: Schema)
    requires EveryDefaultWrites(c, names, s) && forall n :: n in names ==> EveryDefaultWrites(c, names, names[n])
    ensures DefaultsWrite(c, names, s)
  {
    hide Reaches, Writable, Inhabited;
    var holds := (s': Schema) => EveryDefaultWrites(c, names, s');
    forall s', q | holds(s') && Holds(names, s', q) ensures holds(q) { }
    forall p, k: nat | Reaches(names, s, p, k) ensures OwnDefaultsWrite(c, names, p) {
      Reached(names, holds, s, p, k);
      assert holds(p);
    }
  }

  /** Field names are distinct in every record of the schema. */
  ghost predicate EveryRecordDistinct(s: Schema) {
    match s
    case RecordType(_, _, fields) => DistinctFields(fields) && forall i :: 0 <= i < |fields| ==> EveryRecordDistinct(fields[i].type_)
    case ArrayType(items) => EveryRecordDistinct(items)
    case MapType(values) => EveryRecordDistinct(values)
    case UnionType(alts) => forall i :: 0 <= i < |alts| ==> EveryRecordDistinct(alts[i])
    case _ => true
  }

  ghost predicate NamesDistinct(names: Names) {
    forall n :: n in names ==> EveryRecordDistinct(names[n])
  }

  lemma {:induction false} CheckedDistinct(s: Schema, names: Names)
    requires CheckSchema(s, names).ok
    ensures EveryRecordDistinct(s)
  {
    match s
    case RecordType(_, _, fields) => CheckedFieldsDistinct(fields, {}, names[FullName(s) := s]);
    case UnionType(alts) => CheckedAllDistinct(alts, {}, names);
    case ArrayType(items) => CheckedDistinct(items, names);
    case MapType(values) => CheckedDistinct(values, names);
    case _ =>
  }

  lemma {:induction false} CheckedAllDistinct(alts: seq<Schema>, seen: set<Text>, names: Names)
    requires CheckAlternatives(alts, seen, names).ok
    ensures forall i :: 0 <= i < |alts| ==> EveryRecordDistinct(alts[i])
  {
    if alts != [] {
      CheckedDistinct(alts[0], names);
      CheckedAllDistinct(alts[1..], seen + {TypeName(alts[0])}, CheckSchema(alts[0], names).names);
      forall i | 0 < i < |alts| ensures EveryRecordDistinct(alts[i]) { assert alts[i] == alts[1..][i - 1]; }
    }
  }

  lemma {:induction false} CheckedFieldsDistinct(fields: seq<Field>, seen: set<Text>, names: Names)
    requires CheckFields(fields, seen, names).ok
    ensures DistinctFields(fields)
    ensures forall i :: 0 <= i < |fields| ==> fields[i].name !in seen && EveryRecordDistinct(fields[i].type_)
  {
    if fields != [] {
      CheckedDistinct(fields[0].type_, names);
      CheckedFieldsDistinct(fields[1..], seen + {fields[0].name}, CheckSchema(fields[0].type_, names).names);
      forall i | 0 < i < |fields|
        ensures fields[i].name !in seen && fields[i].name != fields[0].name && EveryRecordDistinct(fields[i].type_)
      {
        assert fields[i] == fields[1..][i - 1];
      }
      forall i, j | 0 < i < j < |fields| ensures fields[i].name != fields[j].name {
        assert fields[i] == fields[1..][i - 1] && fields[j] == fields[1..][j - 1];
      }
    }
  }

  lemma {:induction false} CollectDistinct(s: Schema, names: Names)
    requires EveryRecordDistinct(s) && NamesDistinct(names)
    ensures NamesDistinct(Collect(s, names))
  {
    match s
    case RecordType(_, _, fields) => CollectFieldsDistinct(fields, names[FullName(s) := s]);
    case UnionType(alts) => CollectAllDistinct(alts, names);
    case ArrayType(items) => CollectDistinct(items, names);
    case MapType(values) => CollectDistinct(values, names);
    case _ =>
  }

  lemma {:induction false} CollectAllDistinct(alts: seq<Schema>, names: Names)
    requires (forall i :: 0 <= i < |alts| ==> EveryRecordDistinct(alts[i])) && NamesDistinct(names)
    ensures NamesDistinct(CollectAll(alts, names))
  {
    if alts != [] {
      CollectDistinct(alts[0], names);
      CollectAllDistinct(alts[1..], Collect(alts[0], names));
    }
  }

  lemma {:induction false} CollectFieldsDistinct(fields: seq<Field>, names: Names)
    requires (forall i :: 0 <= i < |fields| ==> EveryRecordDistinct(fields[i].type_)) && NamesDistinct(names)
    ensures NamesDistinct(CollectFields(fields, names))
  {
    if fields != [] {
      CollectDistinct(fields[0].type_, names);
      CollectFieldsDistinct(fields[1..], Collect(fields[0].type_, names));
    }
  }

  /** In a schema the validator accepts, with the names the codecs collect from it, no value holds a record of repeated field names. */
  lemma AcceptedDistinct(s: Schema)
    requires CheckSchema(s, map[]).ok
    ensures FieldsDistinct(Collect(s, map[]), s)
  {
    hide Reaches, Inhabited, CheckSchema, Collect;
    var names := Collect(s, map[]);
    CheckedDistinct(s, map[]);
    CollectDistinct(s, map[]);
    var holds := (s': Schema) => EveryRecordDistinct(s');
    forall s', q | holds(s') && Holds(names, s', q) ensures holds(q) { }
    forall p, k: nat | Reaches(names, s, p, k) && p.RecordType? ensures DistinctFields(p.fields) {
      Reached(names, holds, s, p, k);
      assert holds(p);
    }
  }

  /**
   So for every schema the validator accepts, recursive or not: the matcher accepts exactly the values
   that can be written, if and only if no record a value may hold has a default that cannot be.
   */
  lemma AcceptedMatchExactly(c: Platform, s: Schema)
    requires CheckSchema(s, map[]).ok
    ensures var names := Collect(s, map[]);
            (forall v :: Matches(names, v, s) <==> Writable(c, names, v, s)) <==> DefaultsWrite(c, names, s)
  {
    hide CheckSchema, Matches, Writable, DefaultsWrite, FieldsDistinct, Collect;
    AcceptedDistinct(s);
    MatchExactlyWrites(c, Collect(s, map[]), s);
  }

  /** The branch picked for a bare value is the first that can be written at all. */
  lemma FirstBranchWrites(c: Platform, names: Names, v: AvroValue, alts: seq<Schema>)
    requires DefaultsWrite(c, names, UnionType(alts)) && !v.Union? && MatchAny(names, v, alts)
    ensures var i := FirstMatch(names, v, alts);
            && i.Some?
            && (exists h: nat ::
                 && WriteValue(c, names, h + 1, v, UnionType(alts)) == Then(Done(Signed(AsI32(i.value))), WriteValue(c, names, h, v, alts[i.value]))
                 && WriteValue(c, names, h, v, alts[i.value]).error.None?)
            && (forall j :: 0 <= j < i.value ==> !Writable(c, names, v, alts[j]))
  {
    SomeMatch(names, v, alts);
    var i: nat := FirstMatch(names, v, alts).value;
    var h := WriteBranch(c, names, v, alts, i);
    assert WriterAt(c, names, h)(v, alts[i]) == WriteValue(c, names, h, v, alts[i]);
    forall j | 0 <= j < i ensures !Writable(c, names, v, alts[j]) {
      if Writable(c, names, v, alts[j]) { WritableMatches(c, names, v, alts[j]); }
    }
  }

  // ---------------------------------------------------------------- where matcher and writer part

  const F_NAME: Text := [102]
  const A_NAME: Text := [65]

  /** A default its field does not accept: the matcher does not look at it, the writer fails on it. */
  lemma UncheckedDefault(c: Platform, depth: nat)
    requires depth > 1
    ensures var s := RecordType(A_NAME, None, [Field(F_NAME, IntType, Some(Str([])))]);
            Matches(map[], Record([]), s) && WriteValue(c, map[], depth, Record([]), s).error == Some(TypeMismatch)
  {
    var field := Field(F_NAME, IntType, Some(Str([])));
    var wv := WriterAt(c, map[], depth - 1);
    assert WriteValue(c, map[], depth - 1, Str([]), IntType) == Fail(TypeMismatch);
    assert FieldValue([], field) == Some(Str([]));
    assert WriteFields(wv, [], [field]) == Then(wv(Str([]), IntType), WriteFields(wv, [], []));
  }

  /** A record whose default for a field of its own type is itself: it matches, and no stack is deep enough to write it. */
  lemma {:induction false} EndlessDefault(c: Platform, depth: nat)
    ensures var s := RecordType(A_NAME, None, [Field(F_NAME, RefType(A_NAME), Some(Record([])))]);
            var names := map[A_NAME := s];
            Matches(names, Record([]), s)
            && WriteValue(c, names, depth, Record([]), s).error == Some(DepthExceeded)
            && WriteValue(c, names, depth, Record([]), RefType(A_NAME)).error == Some(DepthExceeded)
  {
    var field := Field(F_NAME, RefType(A_NAME), Some(Record([])));
    var s := RecordType(A_NAME, None, [field]);
    var names: Names := map[A_NAME := s];
    assert MatchFields(names, [], [field]);
    if depth > 0 {
      EndlessDefault(c, depth - 1);
      var wv := WriterAt(c, names, depth - 1);
      assert wv(Record([]), RefType(A_NAME)) == WriteValue(c, names, depth - 1, Record([]), RefType(A_NAME));
      assert FieldValue([], field) == Some(Record([]));
      assert WriteFields(wv, [], [field]) == Then(wv(Record([]), RefType(A_NAME)), WriteFields(wv, [], []));
    }
  }

  // ---------------------------------------------------------------- what matches passes validation

  /** Integers convert to integral doubles, 32-bit ones within range. */
  ghost predicate ConvertsIntegers(c: Platform) {
    && (forall n: I64 :: c.integral(c.intToF64(n)))
    && (forall n: I64 :: InI32(n) ==> c.inInt32Range(c.intToF64(n)))
  }

  /** A named type under a primitive name hides nothing the validator would let through. */
  ghost predicate PrimitiveNamesEmpty(names: Names) {
    forall n, v :: n in names && Primitive(n).Some? ==> !Matches(names, v, names[n])
  }

  lemma {:induction false} MatchedPasses(c: Platform, names: Names, v: AvroValue, s: Schema)
    requires ConvertsIntegers(c) && PrimitiveNamesEmpty(names) && Matches(names, v, s)
    ensures CheckValue(c, names, v, s)
    decreases v, Stage(s), s
  {
    match s
    case RefType(n) => MatchedPasses(c, names, v, names[n]);
    case UnionType(alts) =>
      if v.Union? { MatchedPasses(c, names, v.value, alts[v.index]); } else { MatchedAnyPasses(c, names, v, alts); }
    case RecordType(_, _, fields) => MatchedFieldsPass(c, names, v.pairs, fields);
    case ArrayType(items) => MatchedItemsPass(c, names, v.items, items);
    case MapType(values) => MatchedEntriesPass(c, names, v.entries, values);
    case _ =>
  }

  lemma {:induction false} MatchedFieldsPass(c: Platform, names: Names, pairs: seq<Entry>, fields: seq<Field>)
    requires ConvertsIntegers(c) && PrimitiveNamesEmpty(names) && MatchFields(names, pairs, fields)
    ensures CheckRecord(c, names, pairs, fields)
    decreases pairs, 0, fields
  {
    if fields != [] {
      if Find(pairs, fields[0].name).Some? { MatchedPasses(c, names, Find(pairs, fields[0].name).value, fields[0].type_); }
      MatchedFieldsPass(c, names, pairs, fields[1..]);
    }
  }

  lemma {:induction false} MatchedItemsPass(c: Platform, names: Names, vs: seq<AvroValue>, s: Schema)
    requires ConvertsIntegers(c) && PrimitiveNamesEmpty(names) && MatchItems(names, vs, s)
    ensures CheckItems(c, names, vs, s)
    decreases vs, 0, s
  {
    if vs != [] {
      MatchedPasses(c, names, vs[0], s);
      MatchedItemsPass(c, names, vs[1..], s);
    }
  }

  lemma {:induction false} MatchedEntriesPass(c: Platform, names: Names, es: seq<Entry>, s: Schema)
    requires ConvertsIntegers(c) && PrimitiveNamesEmpty(names) && MatchEntries(names, es, s)
    ensures CheckEntries(c, names, es, s)
    decreases es, 0, s
  {
    if es != [] {
      MatchedPasses(c, names, es[0].value, s);
      MatchedEntriesPass(c, names, es[1..], s);
    }
  }

  lemma {:induction false} MatchedAnyPasses(c: Platform, names: Names, v: AvroValue, alts: seq<Schema>)
    requires ConvertsIntegers(c) && PrimitiveNamesEmpty(names) && MatchAny(names, v, alts)
    ensures CheckAny(c, names, v, alts)
    decreases v, 1, alts
  {
    if Matches(names, v, alts[0]) { MatchedPasses(c, names, v, alts[0]); } else { MatchedAnyPasses(c, names, v, alts[1..]); }
  }

  lemma NamedValues(names: Names, v: AvroValue, s: Schema)
    requires IsNamedType(s) && Matches(names, v, s)
    ensures v.Record? || v.Enum? || v.Fixed?
  {
  }

  lemma NamedIsNotPrimitive(c: Platform, names: Names, v: AvroValue, n: Text)
    requires n in names && Primitive(n).Some? && Matches(names, v, names[n])
    ensures !CheckValue(c, names, v, RefType(n))
  {
    NamedValues(names, v, names[n]);
    hide Matches;
    assert CheckValue(c, names, v, RefType(n)) == CheckValue(c, names, v, Primitive(n).value);
  }

  /** A match implies validation exactly when no named type that takes a primitive name has any values. */
  lemma MatchPassesExactly(c: Platform, names: Names)
    requires ConvertsIntegers(c)
    ensures (forall v, s :: Matches(names, v, s) ==> CheckValue(c, names, v, s)) <==> PrimitiveNamesEmpty(names)
  {
    if PrimitiveNamesEmpty(names) {
      forall v, s | Matches(names, v, s) ensures CheckValue(c, names, v, s) { MatchedPasses(c, names, v, s); }
    } else {
      var n, v :| n in names && Primitive(n).Some? && Matches(names, v, names[n]);
      NamedIsNotPrimitive(c, names, v, n);
      assert Matches(names, v, RefType(n));
    }
  }

  // ---------------------------------------------------------------- what passes validation matches, but for numbers

  ghost predicate Numberless(v: AvroValue) {
    match v
    case Int(_) => false
    case Long(_) => false
    case Float(_) => false
    case Double(_) => false
    case Record(pairs) => forall i :: 0 <= i < |pairs| ==> Numberless(pairs[i].value)
    case Array(items) => forall i :: 0 <= i < |items| ==> Numberless(items[i])
    case Map(entries) => forall i :: 0 <= i < |entries| ==> Numberless(entries[i].value)
    case Union(_, w) => Numberless(w)
    case _ => true
  }

  /** No reference bears a primitive name. */
  ghost predicate RefsNamed(s: Schema) {
    match s
    case RefType(n) => Primitive(n).None?
    case RecordType(_, _, fields) => forall i :: 0 <= i < |fields| ==> RefsNamed(fields[i].type_)
    case ArrayType(items) => RefsNamed(items)
    case MapType(values) => RefsNamed(values)
    case UnionType(alts) => forall i :: 0 <= i < |alts| ==> RefsNamed(alts[i])
    case _ => true
  }

  ghost predicate AllRefsNamed(names: Names) {
    forall n :: n in names ==> RefsNamed(names[n])
  }

  /** A value without numbers passes only if it matches, where no reference bears a primitive name. */
  lemma {:induction false} PassedMatches(c: Platform, names: Names, v: AvroValue, s: Schema)
    requires AllRefsNamed(names) && RefsNamed(s) && Numberless(v) && CheckValue(c, names, v, s)
    ensures Matches(names, v, s)
    decreases v, Stage(s), s
  {
    match s
    case RefType(n) => PassedMatches(c, names, v, names[n]);
    case UnionType(alts) =>
      if v.Union? { PassedMatches(c, names, v.value, alts[v.index]); } else { PassedAnyMatches(c, names, v, alts); }
    case RecordType(_, _, fields) => PassedFieldsMatch(c, names, v.pairs, fields);
    case ArrayType(items) => PassedItemsMatch(c, names, v.items, items);
    case MapType(values) => PassedEntriesMatch(c, names, v.entries, values);
    case _ =>
  }

  lemma {:induction false} PassedFieldsMatch(c: Platform, names: Names, pairs: seq<Entry>, fields: seq<Field>)
    requires AllRefsNamed(names) && (forall i :: 0 <= i < |fields| ==> RefsNamed(fields[i].type_))
    requires (forall i :: 0 <= i < |pairs| ==> Numberless(pairs[i].value)) && CheckRecord(c, names, pairs, fields)
    ensures MatchFields(names, pairs, fields)
    decreases pairs, 0, fields
  {
    if fields != [] {
      var found := Find(pairs, fields[0].name);
      if found.Some? {
        var i :| 0 <= i < |pairs| && pairs[i] == Entry(fields[0].name, found.value);
        PassedMatches(c, names, found.value, fields[0].type_);
      }
      PassedFieldsMatch(c, names, pairs, fields[1..]);
    }
  }

  lemma {:induction false} PassedItemsMatch(c: Platform, names: Names, vs: seq<AvroValue>, s: Schema)
    requires AllRefsNamed(names) && RefsNamed(s) && (forall i :: 0 <= i < |vs| ==> Numberless(vs[i])) && CheckItems(c, names, vs, s)
    ensures MatchItems(names, vs, s)
    decreases vs, 0, s
  {
    if vs != [] {
      PassedMatches(c, names, vs[0], s);
      PassedItemsMatch(c, names, vs[1..], s);
    }
  }

  lemma {:induction false} PassedEntriesMatch(c: Platform, names: Names, es: seq<Entry>, s: Schema)
    requires AllRefsNamed(names) && RefsNamed(s) && (forall i :: 0 <= i < |es| ==> Numberless(es[i].value)) && CheckEntries(c, names, es, s)
    ensures MatchEntries(names, es, s)
    decreases es, 0, s
  {
    if es != [] {
      PassedMatches(c, names, es[0].value, s);
      PassedEntriesMatch(c, names, es[1..], s);
    }
  }

  lemma {:induction false} PassedAnyMatches(c: Platform, names: Names, v: AvroValue, alts: seq<Schema>)
    requires AllRefsNamed(names) && (forall i :: 0 <= i < |alts| ==> RefsNamed(alts[i])) && Numberless(v) && CheckAny(c, names, v, alts)
    ensures MatchAny(names, v, alts)
    decreases v, 1, alts
  {
    if CheckValue(c, names, v, alts[0]) { PassedMatches(c, names, v, alts[0]); } else { PassedAnyMatches(c, names, v, alts[1..]); }
  }

  /** The primitive types of Avro and their names in ASCII. */
  ghost predicate PrimitiveName(n: Text, s: Schema) {
    match s
    case NullType => n == [110, 117, 108, 108]
    case BooleanType => n == [98, 111, 111, 108, 101, 97, 110]
    case IntType => n == [105, 110, 116]
    case LongType => n == [108, 111, 110, 103]
    case FloatType => n == [102, 108, 111, 97, 116]
    case DoubleType => n == [100, 111, 117, 98, 108, 101]
    case BytesType => n == [98, 121, 116, 101, 115]
    case StringType => n == [115, 116, 114, 105, 110, 103]
    case _ => false
  }

  lemma PrimitiveIs(n: Text, s: Schema)
    requires PrimitiveName(n, s)
    ensures Primitive(n) == Some(s)
  {
    assert |n| > 1 && (s.NullType? <==> |n| == 4 && n[0] == 110) && (s.LongType? <==> |n| == 4 && n[0] == 108);
  }

  /** A reference to a primitive name passes what that type passes. */
  lemma PrimitiveRefPasses(c: Platform, names: Names, v: AvroValue, n: Text, s: Schema)
    requires PrimitiveName(n, s)
    ensures CheckValue(c, names, v, RefType(n)) == CheckValue(c, names, v, s)
  {
    PrimitiveIs(n, s);
    hide PrimitiveName, Primitive;
  }

  /** The number `v` is as a double. */
  ghost predicate AsDouble(c: Platform, v: AvroValue, f: F64) {
    match v
    case Int(n) => f == c.intToF64(n)
    case Long(n) => f == c.intToF64(n)
    case Float(x) => f == c.widen(x)
    case Double(x) => f == x
    case _ => false
  }

  /** Any number passes for a float or double, one that is integral as a double for a long, and within range for an int. */
  lemma NumberPassesExactly(c: Platform, names: Names, v: AvroValue, f: F64)
    requires AsDouble(c, v, f)
    ensures CheckValue(c, names, v, FloatType) && CheckValue(c, names, v, DoubleType)
    ensures CheckValue(c, names, v, LongType) <==> c.integral(f)
    ensures CheckValue(c, names, v, IntType) <==> c.integral(f) && c.inInt32Range(f)
  {
  }

  /** The validator is the looser of the two: an integral double passes for an int and cannot be written. */
  lemma PassedUnwritten(c: Platform, names: Names, depth: nat, d: F64)
    requires depth > 0 && c.integral(d) && c.inInt32Range(d)
    ensures CheckValue(c, names, Double(d), IntType) && WriteValue(c, names, depth, Double(d), IntType).error == Some(TypeMismatch)
  {
  }
}
