/**
 Whole `encode` and `decode` calls, one after another on the same encoder: the round trip, the
 bytes an earlier failed call leaves behind, and inputs on which the round trip fails.
 */
module AvroSession {
  import opened Common
  import opened AvroTypes
  import opened Bytes
  import opened AvroCodec
  import opened AvroValidator
  import opened AvroRoundTrip
  import opened AvroDepth
  import opened AvroMatching

  // ---------------------------------------------------------------- calls

  /** The bytes left in the writer, and what the call returned. */
  datatype Session = Session(pending: seq<Byte>, result: Result<seq<Byte>, EncodeError>)

  /** One call of `encode` on a writer that holds `pending`: success flushes, failure does not. */
  ghost function Encode(c: Platform, depth: nat, pending: seq<Byte>, v: AvroValue, s: Schema): Session {
    var checked := CheckSchema(s, map[]);
    if !checked.ok then Session(pending, Err(InvalidSchema))
    else if !CheckValue(c, checked.names, v, s) then Session(pending, Err(ValueDoesNotConform))
    else
      var out := WriteValue(c, Collect(s, map[]), depth, v, s);
      match out.error
      case Some(e) => Session(pending + out.bytes, Err(e))
      case None => Session([], Ok(pending + out.bytes))
  }

  /** One call of `decode`, with the input it leaves unread. */
  ghost function Decode(c: Platform, depth: nat, data: seq<Byte>, s: Schema): In<AvroValue> {
    if !CheckSchema(s, map[]).ok then In(data, Err(BadSchema)) else ReadValue(c, Collect(s, map[]), depth, data, s)
  }

  // ---------------------------------------------------------------- round trip

  lemma {:induction false} CollectFits(c: Platform, s: Schema, names: Names)
    requires SchemaFits(c, s) && NamesFit(c, names)
    ensures NamesFit(c, Collect(s, names))
  {
    match s
    case RecordType(_, _, fields) => CollectFieldsFits(c, fields, names[FullName(s) := s]);
    case UnionType(alts) => CollectAllFits(c, alts, names);
    case ArrayType(items) => CollectFits(c, items, names);
    case MapType(values) => CollectFits(c, values, names);
    case _ =>
  }

  lemma {:induction false} CollectAllFits(c: Platform, alts: seq<Schema>, names: Names)
    requires (forall i :: 0 <= i < |alts| ==> SchemaFits(c, alts[i])) && NamesFit(c, names)
    ensures NamesFit(c, CollectAll(alts, names))
  {
    if alts != [] {
      CollectFits(c, alts[0], names);
      CollectAllFits(c, alts[1..], Collect(alts[0], names));
    }
  }

  lemma {:induction false} CollectFieldsFits(c: Platform, fields: seq<Field>, names: Names)
    requires (forall i :: 0 <= i < |fields| ==> SchemaFits(c, fields[i].type_)) && NamesFit(c, names)
    ensures NamesFit(c, CollectFields(fields, names))
  {
    if fields != [] {
      CollectFits(c, fields[0].type_, names);
      CollectFieldsFits(c, fields[1..], Collect(fields[0].type_, names));
    }
  }

  /** The value `encode` stands for, and what in it the decoder takes wrongly. */
  ghost function Meaning(c: Platform, depth: nat, v: AvroValue, s: Schema): AvroValue {
    Norm(c, Collect(s, map[]), depth, v, s)
  }

  ghost function Trouble(c: Platform, depth: nat, v: AvroValue, s: Schema): Flaws {
    FlawsOf(c, Collect(s, map[]), depth, v, s)
  }

  /**
   What a clean encoder wrote comes back, in front of any other bytes and with exactly those left
   unread, if and only if it holds no empty array or map and no `__proto__` key. When the value
   alone comes back, what is left over is one zero byte for each empty array or map.
   */
  lemma RoundTrip(c: Platform, d: nat, d': nat, v: AvroValue, s: Schema, more: seq<Byte>)
    requires SchemaFits(c, s) && Fits(c, v) && d <= d'
    requires Encode(c, d, [], v, s).result.Ok?
    ensures var r, f := Decode(c, d', Encode(c, d, [], v, s).result.value + more, s), Trouble(c, d, v, s);
            && (r == In(more, Ok(Meaning(c, d, v, s))) <==> f.empties == 0 && !f.proto)
            && (r.result == Ok(Meaning(c, d, v, s)) ==> !f.proto && r.rest == Zeros(f.empties) + more)
  {
    hide SchemaFits, Fits, Lands;
    var names := Collect(s, map[]);
    assert NamesFit(c, map[]);
    CollectFits(c, s, map[]);
    Deeper(c, names, d, d', v, s);
    var w := WriteValue(c, names, d, v, s).bytes;
    ValueLands(c, names, d', v, s, 0, more);
    var f := Trouble(c, d, v, s);
    ZerosMeet(0, 0, w + more);
    ZerosMeet(f.empties, 0, more);
    assert [] + w == w;
    Unlands(ReadValue(c, names, d', w + more, s), Meaning(c, d, v, s), f, more);
  }

  lemma Unlands<T>(r: In<T>, norm: T, f: Flaws, more: seq<Byte>)
    requires Lands(r, norm, 0, f, more)
    ensures r == In(more, Ok(norm)) <==> f.empties == 0 && !f.proto
    ensures r.result == Ok(norm) ==> !f.proto && r.rest == Zeros(f.empties) + more
  {
    if Got(r, norm) {
      assert |r.rest| == f.empties + |more|;
      assert Zeros(0) + more == more;
    }
  }

  // ---------------------------------------------------------------- one encoder, many calls

  datatype Call = Call(value: AvroValue, schema: Schema)

  ghost function Pending(c: Platform, depth: nat, calls: seq<Call>): seq<Byte> {
    if calls == [] then [] else
    var last := calls[|calls| - 1];
    Encode(c, depth, Pending(c, depth, calls[..|calls| - 1]), last.value, last.schema).pending
  }

  /** What the calls since the last successful one wrote before they failed. */
  ghost function Spilt(c: Platform, depth: nat, calls: seq<Call>): seq<Byte> {
    if calls == [] then [] else
    var last := calls[|calls| - 1];
    var alone := Encode(c, depth, [], last.value, last.schema);
    if alone.result.Ok? then [] else Spilt(c, depth, calls[..|calls| - 1]) + alone.pending
  }

  lemma {:induction false} PendingIsSpilt(c: Platform, depth: nat, calls: seq<Call>)
    ensures Pending(c, depth, calls) == Spilt(c, depth, calls)
  {
    if calls != [] {
      PendingIsSpilt(c, depth, calls[..|calls| - 1]);
      Prepended(c, depth, Pending(c, depth, calls[..|calls| - 1]), calls[|calls| - 1]);
    }
  }

  lemma Prepended(c: Platform, depth: nat, pending: seq<Byte>, call: Call)
    ensures var alone, r := Encode(c, depth, [], call.value, call.schema), Encode(c, depth, pending, call.value, call.schema);
            match alone.result
            case Ok(own) => r == Session([], Ok(pending + own))
            case Err(e) => r == Session(pending + alone.pending, Err(e))
  {
    assert pending + [] == pending;
    var own := WriteValue(c, Collect(call.schema, map[]), depth, call.value, call.schema).bytes;
    assert [] + own == own;
  }

  /**
   In any run of calls on one encoder, a successful call returns what it would return on a fresh
   encoder behind the bytes spilt since the last success, so its own encoding and no more exactly
   when nothing was spilt; a failed call fails with the error it would fail with on a fresh one.
   */
  lemma RunResults(c: Platform, depth: nat, calls: seq<Call>, next: Call)
    ensures var alone, r := Encode(c, depth, [], next.value, next.schema), Encode(c, depth, Pending(c, depth, calls), next.value, next.schema);
            match alone.result
            case Ok(own) => r.result == Ok(Spilt(c, depth, calls) + own) && (r.result == alone.result <==> Spilt(c, depth, calls) == [])
            case Err(e) => r.result == Err(e)
  {
    PendingIsSpilt(c, depth, calls);
    Prepended(c, depth, Spilt(c, depth, calls), next);
    var alone := Encode(c, depth, [], next.value, next.schema);
    if alone.result.Ok? && Spilt(c, depth, calls) + alone.result.value == alone.result.value {
      assert |Spilt(c, depth, calls)| == 0;
    }
  }

  // ---------------------------------------------------------------- inputs that go wrong

  const G_NAME: Text := [103]
  const R_NAME: Text := [82]

  ghost function Pair(f: Schema, g: Schema): Schema {
    RecordType(R_NAME, None, [Field(F_NAME, f, None), Field(G_NAME, g, None)])
  }

  ghost function PairOf(f: AvroValue, g: AvroValue): AvroValue {
    Record([Entry(F_NAME, f), Entry(G_NAME, g)])
  }

  lemma PairChecks(f: Schema, g: Schema)
    requires (f.IntType? || f == ArrayType(IntType)) && g.IntType?
    ensures CheckSchema(Pair(f, g), map[]) == Checked(true, map[R_NAME := Pair(f, g)])
    ensures Collect(Pair(f, g), map[]) == map[R_NAME := Pair(f, g)]
  {
    var names: Names := map[R_NAME := Pair(f, g)];
    var fields := Pair(f, g).fields;
    assert CheckSchema(f, names) == Checked(true, names) && CheckSchema(g, names) == Checked(true, names);
    assert fields[1].name == G_NAME && fields[1..][0] == fields[1] && fields[1..][1..] == [];
    assert CheckFields(fields[1..], {} + {F_NAME}, names) == CheckFields([], {} + {F_NAME} + {G_NAME}, names);
    assert CheckFields(fields, {}, names) == CheckFields(fields[1..], {} + {F_NAME}, names);
    assert FullName(Pair(f, g)) == R_NAME;
    CheckedNames(Pair(f, g), map[]);
  }

  lemma PairPasses(c: Platform, names: Names, f: AvroValue, g: AvroValue, fs: Schema, gs: Schema)
    requires CheckValue(c, names, f, fs) && CheckValue(c, names, g, gs)
    ensures CheckValue(c, names, PairOf(f, g), Pair(fs, gs))
  {
    var pairs, fields := PairOf(f, g).pairs, Pair(fs, gs).fields;
    assert Find(pairs, F_NAME) == Some(f);
    assert Find(pairs[1..], G_NAME) == Some(g);
    assert Find(pairs, G_NAME) == Some(g);
    assert fields[1..][0] == fields[1] && fields[1..][1..] == [];
    assert CheckRecord(c, names, pairs, fields[1..]);
  }

  lemma NumberPasses(c: Platform, names: Names, n: I32)
    requires ConvertsIntegers(c)
    ensures CheckValue(c, names, Int(n), IntType)
  {
  }

  lemma EmptyPasses(c: Platform, names: Names)
    ensures CheckValue(c, names, Array([]), ArrayType(IntType))
  {
  }

  lemma PairWrites(wv: ValueWriter, f: AvroValue, g: AvroValue, fs: Schema, gs: Schema)
    ensures WriteFields(wv, PairOf(f, g).pairs, Pair(fs, gs).fields) == Then(wv(f, fs), Then(wv(g, gs), Done([])))
  {
    var pairs, fields := PairOf(f, g).pairs, Pair(fs, gs).fields;
    assert Find(pairs, F_NAME) == Some(f);
    assert Find(pairs[1..], G_NAME) == Some(g);
    assert Find(pairs, G_NAME) == Some(g);
    assert WriteFields(wv, pairs, fields[2..]) == Done([]);
    assert WriteFields(wv, pairs, fields[1..]) == Then(wv(g, gs), WriteFields(wv, pairs, fields[2..]));
  }

  lemma PairReads(rv: ValueReader, input: seq<Byte>, fs: Schema, gs: Schema, f: In<AvroValue>, g: In<AvroValue>)
    requires f == rv(input, fs) && f.result.Ok? && g == rv(f.rest, gs) && g.result.Ok?
    ensures var r := ReadFields(rv, input, Pair(fs, gs).fields);
            r.rest == g.rest && r.result == Ok([Entry(F_NAME, f.result.value), Entry(G_NAME, g.result.value)])
  {
    var fields := Pair(fs, gs).fields;
    assert fields[1..][0] == fields[1] && fields[1..][1..] == [];
    assert ReadFields(rv, g.rest, []) == In(g.rest, Ok([]));
    assert ReadFields(rv, f.rest, fields[1..]) == Prepend(Entry(G_NAME, g.result.value), ReadFields(rv, g.rest, []));
    assert ReadFields(rv, input, fields) == Prepend(Entry(F_NAME, f.result.value), ReadFields(rv, f.rest, fields[1..]));
    var e, e' := Entry(F_NAME, f.result.value), Entry(G_NAME, g.result.value);
    assert [e] + ([e'] + []) == [e, e'];
  }

  lemma EmptyArrayWritten(c: Platform, names: Names)
    ensures WriteValue(c, names, 1, Array([]), ArrayType(IntType)) == Done([0, 0])
    ensures WriteValue(c, names, 1, Int(5), IntType) == Done([10])
  {
    ZeroVarint();
    CountFits(0);
  }

  lemma EmptyArrayRead(c: Platform, names: Names)
    ensures ReadValue(c, names, 1, [0, 0, 10], ArrayType(IntType)) == In([0, 10], Ok(Array([])))
    ensures ReadValue(c, names, 1, [0, 10], IntType) == In([10], Ok(Int(0)))
  {
    assert ReadU32([0, 0, 10]) == In([0, 10], Ok(0));
    assert ReadU32([0, 10]) == In([10], Ok(0));
  }

  /** An empty array in front of a number: the number reads back as zero. */
  lemma EmptyArrayShifts(c: Platform)
    requires ConvertsIntegers(c)
    ensures var s, v := Pair(ArrayType(IntType), IntType), PairOf(Array([]), Int(5));
            && Encode(c, 2, [], v, s).result == Ok([0, 0, 10])
            && Decode(c, 2, [0, 0, 10], s).result == Ok(PairOf(Array([]), Int(0)))
  {
    EmptyArrayShiftsWrite(c);
    EmptyArrayShiftsRead(c);
  }

  lemma EmptyArrayShiftsWrite(c: Platform)
    requires ConvertsIntegers(c)
    ensures Encode(c, 2, [], PairOf(Array([]), Int(5)), Pair(ArrayType(IntType), IntType)).result == Ok([0, 0, 10])
  {
    hide Varint, CheckSchema, Collect, CheckValue, WriteFields, Matches, WriteList;
    var s := Pair(ArrayType(IntType), IntType);
    PairChecks(ArrayType(IntType), IntType);
    var names := Collect(s, map[]);
    NumberPasses(c, names, 5);
    EmptyPasses(c, names);
    PairPasses(c, names, Array([]), Int(5), ArrayType(IntType), IntType);
    EmptyArrayWritten(c, names);
    PairWrites(WriterAt(c, names, 1), Array([]), Int(5), ArrayType(IntType), IntType);
    assert [] + ([0, 0] + ([10] + [])) == [0, 0, 10];
  }

  lemma EmptyArrayShiftsRead(c: Platform)
    ensures Decode(c, 2, [0, 0, 10], Pair(ArrayType(IntType), IntType)).result == Ok(PairOf(Array([]), Int(0)))
  {
    hide ReadBlocks, ReadVarint, ReadFields, CheckSchema, Collect;
    var s := Pair(ArrayType(IntType), IntType);
    PairChecks(ArrayType(IntType), IntType);
    var names := Collect(s, map[]);
    EmptyArrayRead(c, names);
    PairReads(ReaderAt(c, names, 1), [0, 0, 10], ArrayType(IntType), IntType, In([0, 10], Ok(Array([]))), In([10], Ok(Int(0))));
  }

  lemma OneWritten(c: Platform, names: Names)
    ensures WriteValue(c, names, 1, Int(1), IntType) == Done([2])
  {
  }

  lemma DoubleUnwritten(c: Platform, names: Names, d: F64)
    ensures WriteValue(c, names, 1, Double(d), IntType) == Fail(TypeMismatch)
  {
  }

  /** A double in the second field of two ints passes validation, fails to be written, and leaves the first field behind. */
  lemma FailureSpills(c: Platform, d: F64)
    requires ConvertsIntegers(c) && c.integral(d) && c.inInt32Range(d)
    ensures Encode(c, 2, [], PairOf(Int(1), Double(d)), Pair(IntType, IntType)) == Session([2], Err(TypeMismatch))
    ensures Spilt(c, 2, [Call(PairOf(Int(1), Double(d)), Pair(IntType, IntType))]) == [2]
  {
    hide CheckSchema, Collect, CheckValue, WriteFields, Matches, WriteList, Varint;
    PairChecks(IntType, IntType);
    var names := Collect(Pair(IntType, IntType), map[]);
    NumberPasses(c, names, 1);
    PassedUnwritten(c, names, 1, d);
    PairPasses(c, names, Int(1), Double(d), IntType, IntType);
    var wv := WriterAt(c, names, 1);
    PairWrites(wv, Int(1), Double(d), IntType, IntType);
    OneWritten(c, names);
    assert wv(Int(1), IntType) == Done([2]);
    assert wv(Double(d), IntType) == WriteValue(c, names, 1, Double(d), IntType);
    DoubleUnwritten(c, names, d);
    assert [] + ([2] + []) == [2];
    assert Spilt(c, 2, []) == [];
  }
}
