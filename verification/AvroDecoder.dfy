/**
 The decoder classes of crates/json-joy-json-pack/src/avro/decoder.rs and schema_decoder.rs, each
 method shown to read what its specification function says and to stop where it says.
 */
module AvroDecoder {
  import opened Common
  import opened AvroTypes
  import opened Bytes
  import opened AvroCodec
  import opened AvroValidator
  import opened AvroSession
  import E = AvroEncoder

  /** A method's outcome against what a specification read says of the input before it. */
  ghost predicate Reads<T>(rest: seq<Byte>, result: Result<T, DecodeError>, spec: In<T>) {
    && rest == spec.rest && result.Ok? == spec.result.Ok?
    && (result.Ok? ==> result.value == spec.result.value)
    && (result.Err? ==> result.error == spec.result.error)
  }

  /** One byte of a varint. */
  lemma VarintStep(input: seq<Byte>, at: nat, left: nat, scale: nat, modulus: nat, acc: nat, tooLong: DecodeError)
    requires acc < modulus && at <= |input|
    ensures var spec := ReadVarint(input, at, left, scale, modulus, acc, tooLong);
            if left == 0 then Reads(input[at..], Err(tooLong), spec)
            else if at == |input| then Reads(input[at..], Err(EndOfInput), spec)
            else var acc': nat := (acc + input[at] % 128 * scale) % modulus;
                 if input[at] < 128 then Reads(input[at + 1..], Ok(acc'), spec)
                 else spec == ReadVarint(input, at + 1, left - 1, scale * 128, modulus, acc', tooLong)
  {
  }

  class AvroDecoder {
    var data: seq<Byte>
    var pos: nat

    ghost predicate Valid()
      reads this
    {
      pos <= |data|
    }

    ghost function Rest(): seq<Byte>
      requires Valid()
      reads this
    {
      data[pos..]
    }

    constructor ()
      ensures Valid()
    {
      data, pos := [], 0;
    }

    method Reset(data: seq<Byte>)
      modifies this
      ensures Valid() && Rest() == data
    {
      this.data := data;
      pos := 0;
    }

    method ReadByte() returns (r: Result<Byte, DecodeError>)
      requires Valid()
      modifies this`pos
      ensures Valid()
      ensures if old(Rest()) == [] then r == Err(EndOfInput) && Rest() == [] else r == Ok(old(Rest())[0]) && Rest() == old(Rest())[1..]
    {
      if pos >= |data| { return Err(EndOfInput); }
      var b := data[pos];
      pos := pos + 1;
      r := Ok(b);
    }

    method ReadBytesRaw(n: nat) returns (r: Result<seq<Byte>, DecodeError>)
      requires Valid()
      modifies this`pos
      ensures Valid() && Reads(Rest(), r, ReadRaw(old(Rest()), n))
    {
      if pos + n > |data| { return Err(EndOfInput); }
      var bytes := data[pos..pos + n];
      assert bytes == Rest()[..n];
      pos := pos + n;
      r := Ok(bytes);
    }

    /** Both varint readers: they differ in the width of the result, the number of bytes and the error. */
    method ReadVarint(bytes: nat, modulus: nat, tooLong: DecodeError) returns (r: Result<nat, DecodeError>)
      requires Valid() && 0 < modulus
      modifies this`pos
      ensures Valid() && Reads(Rest(), r, AvroCodec.ReadVarint(old(Rest()), 0, bytes, 1, modulus, 0, tooLong))
    {
      hide Reads, AvroCodec.ReadVarint;
      ghost var input := Rest();
      ghost var spec := AvroCodec.ReadVarint(input, 0, bytes, 1, modulus, 0, tooLong);
      var result: nat, scale: nat, i := 0, 1, 0;
      while i < bytes
        invariant 0 <= i <= bytes && i <= |input| && Valid() && Rest() == input[i..] && result < modulus
        invariant spec == AvroCodec.ReadVarint(input, i, bytes - i, scale, modulus, result, tooLong)
      {
        VarintStep(input, i, bytes - i, scale, modulus, result, tooLong);
        var b := ReadByte();
        if b.Err? { return Err(b.error); }
        assert b.value == input[i] && Rest() == input[i + 1..];
        result := (result + b.value % 128 * scale) % modulus;
        if b.value < 128 { return Ok(result); }
        scale := scale * 128;
        i := i + 1;
      }
      VarintStep(input, i, 0, scale, modulus, result, tooLong);
      r := Err(tooLong);
    }

    method ReadVarintU32() returns (r: Result<nat, DecodeError>)
      requires Valid()
      modifies this`pos
      ensures Valid() && Reads(Rest(), r, ReadU32(old(Rest())))
    {
      hide Reads, AvroCodec.ReadVarint;
      r := ReadVarint(5, 0x1_0000_0000, VarIntTooLong);
    }

    method ReadVarintU64() returns (r: Result<nat, DecodeError>)
      requires Valid()
      modifies this`pos
      ensures Valid() && Reads(Rest(), r, ReadU64(old(Rest())))
    {
      hide Reads, AvroCodec.ReadVarint;
      r := ReadVarint(10, 0x1_0000_0000_0000_0000, VarLongTooLong);
    }

    method ReadInt() returns (r: Result<I32, DecodeError>)
      requires Valid()
      modifies this`pos
      ensures Valid() && Reads(Rest(), r, AvroCodec.ReadInt(old(Rest())))
    {
      hide ReadU32;
      var u := ReadVarintU32();
      r := if u.Ok? then Ok(UnZigZag(u.value)) else Err(u.error);
    }

    method ReadLong() returns (r: Result<I64, DecodeError>)
      requires Valid()
      modifies this`pos
      ensures Valid() && Reads(Rest(), r, AvroCodec.ReadLong(old(Rest())))
    {
      hide ReadU64;
      var u := ReadVarintU64();
      r := if u.Ok? then Ok(UnZigZag(u.value)) else Err(u.error);
    }

    method ReadBoolean() returns (r: Result<bool, DecodeError>)
      requires Valid()
      modifies this`pos
      ensures Valid() && Reads(Rest(), if r.Ok? then Ok(Bool(r.value)) else Err(r.error), AvroCodec.ReadBoolean(old(Rest())))
    {
      var b := ReadByte();
      r := if b.Ok? then Ok(b.value != 0) else Err(b.error);
    }

    method ReadBytes() returns (r: Result<seq<Byte>, DecodeError>)
      requires Valid()
      modifies this`pos
      ensures Valid() && Reads(Rest(), r, ReadPrefixed(old(Rest())))
    {
      hide ReadU32;
      var len := ReadVarintU32();
      if len.Err? { return Err(len.error); }
      r := ReadBytesRaw(len.value);
    }

    method ReadStr(c: Platform) returns (r: Result<Text, DecodeError>)
      requires Valid()
      modifies this`pos
      ensures Valid() && Reads(Rest(), r, ReadText(c, old(Rest())))
    {
      hide ReadPrefixed;
      var bytes := ReadBytes();
      if bytes.Err? { return Err(bytes.error); }
      r := if c.utf8(bytes.value) then Ok(bytes.value) else Err(InvalidUtf8);
    }
  }

  // ---------------------------------------------------------------- reads never lengthen the input

  ghost predicate Shrinks(rv: ValueReader) {
    forall input, s :: |rv(input, s).rest| <= |input|
  }

  lemma {:induction false} ListShrinks<T>(re: seq<Byte> -> In<T>, input: seq<Byte>, count: nat)
    requires forall i :: |re(i).rest| <= |i|
    ensures |ReadList(re, input, count).rest| <= |input|
    decreases count
  {
    if count > 0 { ListShrinks(re, re(input).rest, count - 1); }
  }

  lemma {:induction false} BlocksShrink<T>(re: seq<Byte> -> In<T>, input: seq<Byte>, blocks: nat)
    requires forall i :: |re(i).rest| <= |i|
    ensures |ReadBlocks(re, input, blocks).rest| <= |input|
    decreases blocks
  {
    hide ReadU32;
    var n := ReadU32(input);
    if n.result.Ok? && n.result.value > 0 && blocks > 0 {
      ListShrinks(re, n.rest, n.result.value);
      BlocksShrink(re, ReadList(re, n.rest, n.result.value).rest, blocks - 1);
    }
  }

  lemma {:induction false} FieldsShrink(rv: ValueReader, input: seq<Byte>, fields: seq<Field>)
    requires Shrinks(rv)
    ensures |ReadFields(rv, input, fields).rest| <= |input|
    decreases |fields|
  {
    if fields != [] { FieldsShrink(rv, rv(input, fields[0].type_).rest, fields[1..]); }
  }

  lemma EntryShrinks(c: Platform, rv: ValueReader, s: Schema, input: seq<Byte>)
    requires Shrinks(rv)
    ensures |EntryReader(TextReader(c), rv, s)(input).rest| <= |input|
  {
    hide ReadPrefixed;
    var k := ReadText(c, input);
    assert |rv(k.rest, s).rest| <= |k.rest|;
    assert EntryReader(TextReader(c), rv, s)(input) == ReadEntry(rv, s, k);
  }

  lemma StepShrinks(c: Platform, rv: ValueReader, input: seq<Byte>, schema: Schema)
    requires Shrinks(rv)
    ensures |ReadAs(c, rv, input, schema).rest| <= |input|
  {
    hide ReadBlocks, ReadU32, ReadU64, AvroCodec.ReadInt, AvroCodec.ReadLong, ReadPrefixed, ReadText;
    match schema
    case RecordType(_, _, fields) => FieldsShrink(rv, input, fields);
    case ArrayType(items) => BlocksShrink(ItemReader(rv, items), input, |input|);
    case MapType(values) =>
      forall i ensures |EntryReader(TextReader(c), rv, values)(i).rest| <= |i| { EntryShrinks(c, rv, values, i); }
      BlocksShrink(EntryReader(TextReader(c), rv, values), input, |input|);
    case UnionType(alts) =>
      var n := AvroCodec.ReadInt(input);
      if n.result.Ok? && 0 <= n.result.value < |alts| { assert |rv(n.rest, alts[n.result.value]).rest| <= |n.rest|; }
    case _ =>
  }

  lemma {:induction false} ReadShrinks(c: Platform, names: Names, depth: nat, input: seq<Byte>, s: Schema)
    ensures |AvroCodec.ReadValue(c, names, depth, input, s).rest| <= |input|
    decreases depth
  {
    if depth > 0 {
      hide ReadAs;
      var rv := ReaderAt(c, names, depth - 1);
      forall i, s ensures |rv(i, s).rest| <= |i| { ReadShrinks(c, names, depth - 1, i, s); }
      StepShrinks(c, rv, input, Deref(names, s));
    }
  }

  // ---------------------------------------------------------------- lists read in a loop

  /** A list read so far, and what a read of the rest makes of the whole. */
  ghost predicate Continues<T>(whole: In<seq<T>>, got: seq<T>, more: In<seq<T>>) {
    && whole.rest == more.rest && whole.result.Ok? == more.result.Ok?
    && (more.result.Ok? ==> whole.result.value == got + more.result.value)
    && (more.result.Err? ==> whole.result.error == more.result.error)
  }

  lemma ContinuesStart<T>(whole: In<seq<T>>)
    ensures Continues(whole, [], whole)
  {
    if whole.result.Ok? { assert [] + whole.result.value == whole.result.value; }
  }

  lemma ContinuesOn<T>(whole: In<seq<T>>, got: seq<T>, more: In<seq<T>>, next: seq<T>, left: In<seq<T>>)
    requires Continues(whole, got, more) && Continues(more, next, left)
    ensures Continues(whole, got + next, left)
  {
    if left.result.Ok? { ConcatAssoc(got, next, left.result.value); }
  }

  lemma ListStep<T>(re: seq<Byte> -> In<T>, whole: In<seq<T>>, got: seq<T>, input: seq<Byte>, count: nat)
    requires count > 0 && Continues(whole, got, ReadList(re, input, count))
    ensures var x := re(input);
            if x.result.Ok? then Continues(whole, got + [x.result.value], ReadList(re, x.rest, count - 1))
            else whole.rest == x.rest && whole.result.Err? && whole.result.error == x.result.error
  {
    var x := re(input);
    if x.result.Ok? { ContinuesOn(whole, got, ReadList(re, input, count), [x.result.value], ReadList(re, x.rest, count - 1)); }
  }

  lemma ListEnd<T>(re: seq<Byte> -> In<T>, whole: In<seq<T>>, got: seq<T>, input: seq<Byte>)
    requires Continues(whole, got, ReadList(re, input, 0))
    ensures whole.rest == input && whole.result.Ok? && whole.result.value == got
  {
    assert got + [] == got;
  }

  /** One block: its count, its elements, and the blocks behind it. */
  lemma BlockStep<T>(re: seq<Byte> -> In<T>, whole: In<seq<T>>, got: seq<T>, input: seq<Byte>, blocks: nat, n: In<nat>, xs: In<seq<T>>)
    requires Continues(whole, got, ReadBlocks(re, input, blocks)) && |input| <= blocks
    requires n == ReadU32(input) && (n.result.Ok? ==> xs == ReadList(re, n.rest, n.result.value))
    ensures n.result.Err? ==> whole.rest == n.rest && whole.result.Err? && whole.result.error == n.result.error
    ensures n.result.Ok? && n.result.value == 0 ==> whole.rest == n.rest && whole.result.Ok? && whole.result.value == got
    ensures n.result.Ok? && n.result.value > 0 ==>
              0 < blocks &&
              if xs.result.Ok? then Continues(whole, got + xs.result.value, ReadBlocks(re, xs.rest, blocks - 1))
              else whole.rest == xs.rest && whole.result.Err? && whole.result.error == xs.result.error
  {
    hide ReadU32, ReadList;
    if n.result.Ok? {
      if n.result.value == 0 {
        assert got + [] == got;
      } else if xs.result.Ok? {
        ContinuesOn(whole, got, ReadBlocks(re, input, blocks), xs.result.value, ReadBlocks(re, xs.rest, blocks - 1));
      }
    }
  }

  // ---------------------------------------------------------------- schema decoder

  class AvroSchemaDecoder {
    const decoder: AvroDecoder
    const validator: E.AvroSchemaValidator
    var named: Names

    constructor ()
      ensures decoder.Valid() && fresh(decoder) && fresh(validator)
    {
      decoder := new AvroDecoder();
      validator := new E.AvroSchemaValidator();
      named := map[];
    }

    method Decode(c: Platform, depth: nat, data: seq<Byte>, s: Schema) returns (r: Result<AvroValue, DecodeError>)
      requires decoder.Valid()
      modifies this, validator, decoder
      ensures decoder.Valid() && r == AvroSession.Decode(c, depth, data, s).result
      ensures CheckSchema(s, map[]).ok ==> decoder.Rest() == AvroSession.Decode(c, depth, data, s).rest
    {
      hide AvroCodec.ReadValue, CheckSchema, Collect;
      named := map[];
      var valid := validator.ValidateSchema(s);
      if !valid { return Err(BadSchema); }
      CollectNamed(s);
      decoder.Reset(data);
      r := ReadValue(c, depth, s);
    }

    method CollectNamed(s: Schema)
      modifies this
      ensures named == Collect(s, old(named))
      decreases s
    {
      match s {
        case RecordType(_, _, fields) =>
          named := named[FullName(s) := s];
          ghost var start := named;
          var i := 0;
          assert fields[0..] == fields;
          while i < |fields|
            invariant 0 <= i <= |fields| && CollectFields(fields, start) == CollectFields(fields[i..], named)
          {
            assert fields[i..][0] == fields[i] && fields[i..][1..] == fields[i + 1..];
            CollectNamed(fields[i].type_);
            i := i + 1;
          }
        case EnumType(_, _, _, _) => named := named[FullName(s) := s];
        case FixedType(_, _, _) => named := named[FullName(s) := s];
        case ArrayType(items) => CollectNamed(items);
        case MapType(values) => CollectNamed(values);
        case UnionType(alts) =>
          var i := 0;
          assert alts[0..] == alts;
          while i < |alts|
            invariant 0 <= i <= |alts| && CollectAll(alts, old(named)) == CollectAll(alts[i..], named)
          {
            assert alts[i..][0] == alts[i] && alts[i..][1..] == alts[i + 1..];
            CollectNamed(alts[i]);
            i := i + 1;
          }
        case _ => return;
      }
    }

    method ReadValue(c: Platform, depth: nat, s: Schema) returns (r: Result<AvroValue, DecodeError>)
      requires decoder.Valid()
      modifies decoder`pos
      ensures decoder.Valid() && Reads(decoder.Rest(), r, AvroCodec.ReadValue(c, named, depth, old(decoder.Rest()), s))
      decreases depth, 1
    {
      hide ReadAs;
      if depth == 0 { return Err(StackExhausted); }
      r := ReadResolved(c, depth - 1, Deref(named, s));
    }

    /** The match on the schema; `depth` is what is left for the values inside. */
    method ReadResolved(c: Platform, depth: nat, schema: Schema) returns (r: Result<AvroValue, DecodeError>)
      requires decoder.Valid()
      modifies decoder`pos
      ensures decoder.Valid() && Reads(decoder.Rest(), r, ReadAs(c, ReaderAt(c, named, depth), old(decoder.Rest()), schema))
      decreases depth, 4
    {
      hide ReadBlocks, ReadU32, ReadU64, AvroCodec.ReadInt, AvroCodec.ReadLong, ReadPrefixed, ReadText, ReadFields;
      match schema {
        case NullType => r := Ok(Null);
        case BooleanType =>
          var x := decoder.ReadBoolean();
          r := if x.Ok? then Ok(Bool(x.value)) else Err(x.error);
        case IntType =>
          var x := decoder.ReadInt();
          r := if x.Ok? then Ok(Int(x.value)) else Err(x.error);
        case LongType =>
          var x := decoder.ReadLong();
          r := if x.Ok? then Ok(Long(x.value)) else Err(x.error);
        case FloatType =>
          var x := decoder.ReadBytesRaw(4);
          r := if x.Ok? then Ok(Float(F32Bits(x.value))) else Err(x.error);
        case DoubleType =>
          var x := decoder.ReadBytesRaw(8);
          r := if x.Ok? then Ok(Double(F64Bits(x.value))) else Err(x.error);
        case BytesType =>
          var x := decoder.ReadBytes();
          r := if x.Ok? then Ok(Bytes(x.value)) else Err(x.error);
        case StringType =>
          var x := decoder.ReadStr(c);
          r := if x.Ok? then Ok(Str(x.value)) else Err(x.error);
        case RecordType(_, _, fields) =>
          var x := ReadRecord(c, depth, fields);
          r := if x.Ok? then Ok(Record(x.value)) else Err(x.error);
        case EnumType(_, _, symbols, _) =>
          var x := decoder.ReadInt();
          r := if x.Err? then Err(x.error) else if 0 <= x.value < |symbols| then Ok(Enum(symbols[x.value])) else Err(InvalidEnumIndex(x.value));
        case ArrayType(items) =>
          var x := ReadArrayValue(c, depth, items);
          r := if x.Ok? then Ok(Array(x.value)) else Err(x.error);
        case MapType(values) =>
          var x := ReadMapValue(c, depth, values);
          r := if x.Ok? then Ok(Map(x.value)) else Err(x.error);
        case FixedType(_, _, size) =>
          var x := decoder.ReadBytesRaw(size);
          r := if x.Ok? then Ok(Fixed(x.value)) else Err(x.error);
        case UnionType(alts) => r := ReadUnionValue(c, depth, alts);
        case RefType(_) => r := Err(EndOfInput);
      }
    }

    method ReadUnionValue(c: Platform, depth: nat, alts: seq<Schema>) returns (r: Result<AvroValue, DecodeError>)
      requires decoder.Valid()
      modifies decoder`pos
      ensures decoder.Valid() && Reads(decoder.Rest(), r, ReadUnion(ReaderAt(c, named, depth), old(decoder.Rest()), alts))
      decreases depth, 2
    {
      hide AvroCodec.ReadInt;
      var idx := decoder.ReadInt();
      if idx.Err? { return Err(idx.error); }
      if idx.value < 0 || idx.value >= |alts| { return Err(BadUnionIndex); }
      var x := ReadValue(c, depth, alts[idx.value]);
      r := if x.Ok? then Ok(Union(idx.value, x.value)) else Err(x.error);
    }

    method ReadRecord(c: Platform, depth: nat, fields: seq<Field>) returns (r: Result<seq<Entry>, DecodeError>)
      requires decoder.Valid()
      modifies decoder`pos
      ensures decoder.Valid() && Reads(decoder.Rest(), r, ReadFields(ReaderAt(c, named, depth), old(decoder.Rest()), fields))
      decreases depth, 2
    {
      ghost var rv := ReaderAt(c, named, depth);
      ghost var whole := ReadFields(rv, decoder.Rest(), fields);
      var pairs, i := [], 0;
      assert fields[0..] == fields;
      ContinuesStart(whole);
      while i < |fields|
        invariant 0 <= i <= |fields| && decoder.Valid()
        invariant Continues(whole, pairs, ReadFields(rv, decoder.Rest(), fields[i..]))
      {
        assert fields[i..][0] == fields[i] && fields[i..][1..] == fields[i + 1..];
        ghost var more := ReadFields(rv, decoder.Rest(), fields[i..]);
        var val := ReadValue(c, depth, fields[i].type_);
        if val.Err? { return Err(val.error); }
        var entry := Entry(fields[i].name, val.value);
        ContinuesOn(whole, pairs, more, [entry], ReadFields(rv, decoder.Rest(), fields[i + 1..]));
        pairs := pairs + [entry];
        i := i + 1;
      }
      assert pairs + [] == pairs;
      r := Ok(pairs);
    }

    method ReadArrayValue(c: Platform, depth: nat, items: Schema) returns (r: Result<seq<AvroValue>, DecodeError>)
      requires decoder.Valid()
      modifies decoder`pos
      ensures decoder.Valid()
      ensures var input := old(decoder.Rest()); Reads(decoder.Rest(), r, ReadBlocks(ItemReader(ReaderAt(c, named, depth), items), input, |input|))
      decreases depth, 2
    {
      hide ReadBlocks, ReadU32, ReadList, AvroCodec.ReadValue, Prepend, MapIn;
      ghost var re := ItemReader(ReaderAt(c, named, depth), items);
      ghost var blocks: nat := |decoder.Rest()|;
      ghost var whole := ReadBlocks(re, decoder.Rest(), blocks);
      var values := [];
      ContinuesStart(whole);
      while true
        invariant decoder.Valid() && |decoder.Rest()| <= blocks && Continues(whole, values, ReadBlocks(re, decoder.Rest(), blocks))
        decreases blocks
      {
        ghost var n := ReadU32(decoder.Rest());
        ghost var xs := ReadList(re, n.rest, if n.result.Ok? then n.result.value else 0);
        BlockStep(re, whole, values, decoder.Rest(), blocks, n, xs);
        var count := decoder.ReadVarintU32();
        if count.Err? { return Err(count.error); }
        if count.value == 0 { return Ok(values); }
        ghost var start := values;
        var got, i := [], 0;
        ContinuesStart(xs);
        while i < count.value
          invariant 0 <= i <= count.value && decoder.Valid() && values == start + got && |decoder.Rest()| <= |n.rest|
          invariant Continues(xs, got, ReadList(re, decoder.Rest(), count.value - i))
        {
          ListStep(re, xs, got, decoder.Rest(), count.value - i);
          ReadShrinks(c, named, depth, decoder.Rest(), items);
          var val := ReadValue(c, depth, items);
          if val.Err? { return Err(val.error); }
          ConcatAssoc(start, got, [val.value]);
          values := values + [val.value];
          got := got + [val.value];
          i := i + 1;
        }
        ListEnd(re, xs, got, decoder.Rest());
        blocks := blocks - 1;
      }
    }

    method ReadMapValue(c: Platform, depth: nat, values: Schema) returns (r: Result<seq<Entry>, DecodeError>)
      requires decoder.Valid()
      modifies decoder`pos
      ensures decoder.Valid()
      ensures var input := old(decoder.Rest());
              Reads(decoder.Rest(), r, ReadBlocks(EntryReader(TextReader(c), ReaderAt(c, named, depth), values), input, |input|))
      decreases depth, 3
    {
      hide ReadBlocks, ReadU32, ReadList, ReadText, EntryReader, ReaderAt, AvroCodec.ReadValue, Prepend, MapIn;
      ghost var rv := ReaderAt(c, named, depth);
      ghost var re := EntryReader(TextReader(c), rv, values);
      ghost var blocks: nat := |decoder.Rest()|;
      ghost var whole := ReadBlocks(re, decoder.Rest(), blocks);
      var entries := [];
      ContinuesStart(whole);
      while true
        invariant decoder.Valid() && |decoder.Rest()| <= blocks && Continues(whole, entries, ReadBlocks(re, decoder.Rest(), blocks))
        decreases blocks
      {
        ghost var n := ReadU32(decoder.Rest());
        ghost var xs := ReadList(re, n.rest, if n.result.Ok? then n.result.value else 0);
        BlockStep(re, whole, entries, decoder.Rest(), blocks, n, xs);
        var count := decoder.ReadVarintU32();
        if count.Err? { return Err(count.error); }
        if count.value == 0 { return Ok(entries); }
        ghost var start := entries;
        var got, i := [], 0;
        ContinuesStart(xs);
        while i < count.value
          invariant 0 <= i <= count.value && decoder.Valid() && entries == start + got && |decoder.Rest()| <= |n.rest|
          invariant Continues(xs, got, ReadList(re, decoder.Rest(), count.value - i))
        {
          ListStep(re, xs, got, decoder.Rest(), count.value - i);
          var entry := ReadMapEntry(c, depth, values);
          if entry.Err? { return Err(entry.error); }
          ConcatAssoc(start, got, [entry.value]);
          entries := entries + [entry.value];
          got := got + [entry.value];
          i := i + 1;
        }
        ListEnd(re, xs, got, decoder.Rest());
        blocks := blocks - 1;
      }
    }

    method ReadMapEntry(c: Platform, depth: nat, values: Schema) returns (r: Result<Entry, DecodeError>)
      requires decoder.Valid()
      modifies decoder`pos
      ensures decoder.Valid() && |decoder.Rest()| <= |old(decoder.Rest())|
      ensures Reads(decoder.Rest(), r, EntryReader(TextReader(c), ReaderAt(c, named, depth), values)(old(decoder.Rest())))
      decreases depth, 2
    {
      hide ReadPrefixed, AvroCodec.ReadValue;
      ghost var input := decoder.Rest();
      ghost var rv := ReaderAt(c, named, depth);
      assert EntryReader(TextReader(c), rv, values)(input) == ReadEntry(rv, values, ReadText(c, input));
      var key := decoder.ReadStr(c);
      if key.Err? { return Err(key.error); }
      if key.value == PROTO { return Err(InvalidKey); }
      ReadShrinks(c, named, depth, decoder.Rest(), values);
      var val := ReadValue(c, depth, values);
      r := if val.Ok? then Ok(Entry(key.value, val.value)) else Err(val.error);
    }
  }
}
