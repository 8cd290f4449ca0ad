/**
 When the Avro decoder gives back what the encoder was given. An empty array or map is written
 with two zero counts of which the decoder takes one, so everything behind it is read one byte
 late; the main lemma follows that shift through the rest of the input.
 */
module AvroRoundTrip {
  import opened Common
  import opened AvroTypes
  import opened Bytes
  import opened AvroCodec

  // ---------------------------------------------------------------- what comes back

  type Normalizer = (AvroValue, Schema) -> AvroValue

  ghost function Normer(c: Platform, names: Names, depth: nat): Normalizer
    decreases depth, 1
  {
    (v, s) => Norm(c, names, depth, v, s)
  }

  /** The value a successful encoding stands for: promotions applied, defaults filled in, extra entries dropped, branches named. */
  ghost function Norm(c: Platform, names: Names, depth: nat, v: AvroValue, s: Schema): AvroValue
    decreases depth, 0
  {
    if depth == 0 then v else
    match Resolve(names, s)
    case Err(_) => v
    case Ok(schema) => NormAs(c, names, Normer(c, names, depth - 1), v, schema)
  }

  ghost function NormAs(c: Platform, names: Names, nv: Normalizer, v: AvroValue, schema: Schema): AvroValue {
    match schema
    case IntType => if v.Long? && InI32(v.int64) then Int(v.int64) else v
    case LongType => if v.Int? then Long(v.int32) else v
    case FloatType => if IsNumber(v) then Float(ToF32(c, v)) else v
    case DoubleType => if IsNumber(v) then Double(ToF64(c, v)) else v
    case RecordType(_, _, fields) => if v.Record? then Record(NormFields(nv, v.pairs, fields)) else v
    case ArrayType(items) => if v.Array? then Array(NormList(ItemNormer(nv, items), v.items)) else v
    case MapType(values) => if v.Map? then Map(NormList(EntryNormer(nv, values), v.entries)) else v
    case UnionType(alts) =>
      (match Branch(names, v, alts)
       case Err(_) => v
       case Ok(i) => Union(i, nv(Payload(v), alts[i])))
    case _ => v
  }

  ghost function NormFields(nv: Normalizer, pairs: seq<Entry>, fields: seq<Field>): seq<Entry> {
    if fields == [] then [] else
    match FieldValue(pairs, fields[0])
    case None => []
    case Some(v) => [Entry(fields[0].name, nv(v, fields[0].type_))] + NormFields(nv, pairs, fields[1..])
  }

  ghost function ItemNormer(nv: Normalizer, s: Schema): AvroValue -> AvroValue {
    v => nv(v, s)
  }

  ghost function EntryNormer(nv: Normalizer, s: Schema): Entry -> Entry {
    (e: Entry) => Entry(e.key, nv(e.value, s))
  }

  ghost function NormList<T>(ne: T -> T, xs: seq<T>): (r: seq<T>)
    ensures |r| == |xs|
  {
    if xs == [] then [] else [ne(xs[0])] + NormList(ne, xs[1..])
  }

  /** What the encoder writes that the decoder takes wrongly: empty collections, and whether a map has the refused key. */
  datatype Flaws = Flaws(empties: nat, proto: bool)

  ghost function Plus(a: Flaws, b: Flaws): Flaws {
    Flaws(a.empties + b.empties, a.proto || b.proto)
  }

  const CLEAN := Flaws(0, false)

  ghost predicate IsClean(f: Flaws) {
    f.empties == 0 && !f.proto
  }

  /** An empty block is a flaw of its own. */
  ghost function BlockFlaws(count: nat, f: Flaws): Flaws {
    if count == 0 then Flaws(1, false) else f
  }

  type FlawFinder = (AvroValue, Schema) -> Flaws

  ghost function Finder(c: Platform, names: Names, depth: nat): FlawFinder
    decreases depth, 1
  {
    (v, s) => FlawsOf(c, names, depth, v, s)
  }

  ghost function FlawsOf(c: Platform, names: Names, depth: nat, v: AvroValue, s: Schema): Flaws
    decreases depth, 0
  {
    if depth == 0 then CLEAN else
    match Resolve(names, s)
    case Err(_) => CLEAN
    case Ok(schema) => FlawsAs(names, Finder(c, names, depth - 1), v, schema)
  }

  ghost function FlawsAs(names: Names, fv: FlawFinder, v: AvroValue, schema: Schema): Flaws {
    match schema
    case RecordType(_, _, fields) => if v.Record? then FlawsOfFields(fv, v.pairs, fields) else CLEAN
    case ArrayType(items) => if v.Array? then BlockFlaws(|v.items|, FlawsOfList(ItemFinder(fv, items), v.items)) else CLEAN
    case MapType(values) => if v.Map? then BlockFlaws(|v.entries|, FlawsOfList(EntryFinder(fv, values), v.entries)) else CLEAN
    case UnionType(alts) =>
      (match Branch(names, v, alts)
       case Err(_) => CLEAN
       case Ok(i) => fv(Payload(v), alts[i]))
    case _ => CLEAN
  }

  ghost function FlawsOfFields(fv: FlawFinder, pairs: seq<Entry>, fields: seq<Field>): Flaws {
    if fields == [] then CLEAN else
    match FieldValue(pairs, fields[0])
    case None => CLEAN
    case Some(v) => Plus(fv(v, fields[0].type_), FlawsOfFields(fv, pairs, fields[1..]))
  }

  ghost function ItemFinder(fv: FlawFinder, s: Schema): AvroValue -> Flaws {
    v => fv(v, s)
  }

  ghost function EntryFinder(fv: FlawFinder, s: Schema): Entry -> Flaws {
    (e: Entry) => Plus(Flaws(0, e.key == PROTO), fv(e.value, s))
  }

  ghost function FlawsOfList<T>(fe: T -> Flaws, xs: seq<T>): Flaws {
    if xs == [] then CLEAN else Plus(fe(xs[0]), FlawsOfList(fe, xs[1..]))
  }

  // ---------------------------------------------------------------- machine limits

  /** Strings are UTF-8, and every length fits the 32-bit count it is written as. */
  ghost predicate Fits(c: Platform, v: AvroValue) {
    match v
    case Bytes(b) => |b| < 0x1_0000_0000
    case Str(t) => |t| < 0x1_0000_0000 && c.utf8(t)
    case Record(ps) => forall i :: 0 <= i < |ps| ==> Fits(c, ps[i].value)
    case Array(vs) => |vs| < 0x1_0000_0000 && forall i :: 0 <= i < |vs| ==> Fits(c, vs[i])
    case Map(es) =>
      |es| < 0x1_0000_0000 &&
      forall i :: 0 <= i < |es| ==> |es[i].key| < 0x1_0000_0000 && c.utf8(es[i].key) && Fits(c, es[i].value)
    case Union(_, w) => Fits(c, w)
    case _ => true
  }

  ghost predicate SchemaFits(c: Platform, s: Schema) {
    match s
    case RecordType(_, _, fs) =>
      forall i :: 0 <= i < |fs| ==> SchemaFits(c, fs[i].type_) && (fs[i].default.Some? ==> Fits(c, fs[i].default.value))
    case EnumType(_, _, symbols, _) => |symbols| <= 0x8000_0000
    case ArrayType(items) => SchemaFits(c, items)
    case MapType(values) => SchemaFits(c, values)
    case UnionType(alts) => |alts| <= 0x8000_0000 && forall i :: 0 <= i < |alts| ==> SchemaFits(c, alts[i])
    case _ => true
  }

  ghost predicate NamesFit(c: Platform, names: Names) {
    forall n :: n in names ==> SchemaFits(c, names[n])
  }

  // ---------------------------------------------------------------- reading behind a shift

  ghost function Zeros(k: nat): (r: seq<Byte>)
    ensures |r| == k
  {
    if k == 0 then [] else [0] + Zeros(k - 1)
  }

  lemma {:induction false} ZeroAt(k: nat, i: nat)
    requires i < k
    ensures Zeros(k)[i] == 0
  {
    if i > 0 { ZeroAt(k - 1, i - 1); }
  }

  lemma {:induction false} ZerosAdd(k: nat, j: nat)
    ensures Zeros(k) + Zeros(j) == Zeros(k + j)
  {
    if k > 0 {
      ZerosAdd(k - 1, j);
      assert Zeros(k) + Zeros(j) == [0] + (Zeros(k - 1) + Zeros(j));
    } else {
      assert Zeros(0) + Zeros(j) == Zeros(j);
    }
  }

  lemma ZerosMeet(k: nat, j: nat, rest: seq<Byte>)
    ensures Zeros(k) + (Zeros(j) + rest) == Zeros(k + j) + rest
    ensures Zeros(0) + rest == rest && Zeros(1) == [0]
  {
    ZerosAdd(k, j);
    assert Zeros(k) + (Zeros(j) + rest) == Zeros(k) + Zeros(j) + rest;
  }

  /** The input with `w` next, behind `k` zeros left over from before. */
  ghost function Shifted(k: nat, w: seq<Byte>, rest: seq<Byte>): seq<Byte> {
    Zeros(k) + (w + rest)
  }

  lemma Split(k: nat, w1: seq<Byte>, w2: seq<Byte>, rest: seq<Byte>)
    ensures Shifted(k, w1 + w2, rest) == Shifted(k, w1, w2 + rest)
  {
    assert w1 + w2 + rest == w1 + (w2 + rest);
  }

  ghost predicate Got<T>(r: In<T>, x: T) {
    r.result.Ok? && r.result.value == x
  }

  /** Behind `k` zeros a read goes right only if it leaves those zeros, those of the empties it should have read, and `rest`. */
  ghost predicate Lands<T>(r: In<T>, norm: T, k: nat, f: Flaws, rest: seq<Byte>) {
    && (k == 0 && IsClean(f) ==> Got(r, norm))
    && (Got(r, norm) ==> !f.proto && r.rest == Zeros(k + f.empties) + rest)
  }

  lemma ZeroRead(k: nat, rest: seq<Byte>)
    requires 0 < k
    ensures ReadU32(Zeros(k) + rest) == In(Zeros(k - 1) + rest, Ok(0))
    ensures ReadU64(Zeros(k) + rest) == In(Zeros(k - 1) + rest, Ok(0))
  {
    var input := Zeros(k) + rest;
    assert input == [0] + (Zeros(k - 1) + rest);
    assert input[1..] == Zeros(k - 1) + rest;
  }

  function Pow128(n: nat): nat {
    if n == 0 then 1 else 128 * Pow128(n - 1)
  }

  lemma SplitProduct(n: nat, scale: nat)
    ensures n * scale == n % 128 * scale + (n / 128) * (scale * 128)
    ensures 0 <= n % 128 * scale && 0 <= (n / 128) * (scale * 128)
  {
    assert n == 128 * (n / 128) + n % 128;
  }

  lemma VarintDigit(n: nat)
    ensures Varint(n)[0] % 128 == n % 128 && (Varint(n)[0] < 128 <==> n < 128)
    ensures if n < 128 then |Varint(n)| == 1 else Varint(n) == [n % 128 + 128] + Varint(n / 128)
  {
  }

  lemma {:induction false} VarintRead(n: nat, input: seq<Byte>, at: nat, left: nat, scale: nat, modulus: nat, acc: nat, e: DecodeError)
    requires 0 < left && n < Pow128(left) && acc + n * scale < modulus
    requires at + |Varint(n)| <= |input| && input[at..at + |Varint(n)|] == Varint(n)
    ensures ReadVarint(input, at, left, scale, modulus, acc, e) == In(input[at + |Varint(n)|..], Ok(acc + n * scale))
    decreases left
  {
    hide Varint;
    var w, low := Varint(n), n % 128;
    SplitProduct(n, scale);
    VarintDigit(n);
    assert input[at] == w[0] by { assert input[at..at + |w|][0] == w[0]; }
    SmallMod(acc + low * scale, modulus);
    if n >= 128 {
      assert input[at + 1..at + 1 + |Varint(n / 128)|] == input[at..at + |w|][1..] == Varint(n / 128);
      VarintRead(n / 128, input, at + 1, left - 1, scale * 128, modulus, acc + low * scale, e);
    }
  }

  lemma SmallMod(a: nat, m: nat)
    requires a < m
    ensures a % m == a
  {
  }

  lemma VarintReads(n: nat, rest: seq<Byte>)
    ensures n < 0x1_0000_0000 ==> ReadU32(Varint(n) + rest) == In(rest, Ok(n))
    ensures n < 0x1_0000_0000_0000_0000 ==> ReadU64(Varint(n) + rest) == In(rest, Ok(n))
  {
    assert Pow128(5) == 0x8_0000_0000;
    assert Pow128(10) == 0x40_0000_0000_0000_0000 by {
      assert Pow128(10) == 128 * 128 * 128 * 128 * 128 * Pow128(5);
    }
    var input := Varint(n) + rest;
    assert input[0..0 + |Varint(n)|] == Varint(n);
    assert input[0 + |Varint(n)|..] == rest;
    if n < 0x1_0000_0000 { VarintRead(n, input, 0, 5, 1, 0x1_0000_0000, 0, VarIntTooLong); }
    if n < 0x1_0000_0000_0000_0000 { VarintRead(n, input, 0, 10, 1, 0x1_0000_0000_0000_0000, 0, VarLongTooLong); }
  }

  lemma U32Lands(n: nat, k: nat, rest: seq<Byte>)
    requires n < 0x1_0000_0000
    ensures Lands(ReadU32(Shifted(k, Varint(n), rest)), n, k, CLEAN, rest)
    ensures k > 0 ==> ReadU32(Shifted(k, Varint(n), rest)) == In(Zeros(k - 1) + (Varint(n) + rest), Ok(0))
  {
    ZerosMeet(k, 0, Varint(n) + rest);
    if k == 0 {
      VarintReads(n, rest);
    } else {
      ZeroRead(k, Varint(n) + rest);
      if n == 0 {
        assert Varint(0) == Zeros(1);
        ZerosMeet(k - 1, 1, rest);
      }
    }
    ZerosMeet(0, 0, rest);
  }

  lemma U64Lands(n: nat, k: nat, rest: seq<Byte>)
    requires n < 0x1_0000_0000_0000_0000
    ensures Lands(ReadU64(Shifted(k, Varint(n), rest)), n, k, CLEAN, rest)
  {
    ZerosMeet(k, 0, Varint(n) + rest);
    if k == 0 {
      VarintReads(n, rest);
    } else {
      ZeroRead(k, Varint(n) + rest);
      if n == 0 {
        assert Varint(0) == Zeros(1);
        ZerosMeet(k - 1, 1, rest);
      }
    }
    ZerosMeet(0, 0, rest);
  }

  lemma IntLands(n: I32, k: nat, rest: seq<Byte>)
    ensures Lands(ReadInt(Shifted(k, Signed(n), rest)), n, k, CLEAN, rest)
    ensures k > 0 ==> Got(ReadInt(Shifted(k, Signed(n), rest)), 0)
  {
    U32Lands(ZigZag(n), k, rest);
  }

  lemma LongLands(n: I64, k: nat, rest: seq<Byte>)
    ensures Lands(ReadLong(Shifted(k, Signed(n), rest)), n, k, CLEAN, rest)
  {
    U64Lands(ZigZag(n), k, rest);
  }

  lemma RawLands(b: seq<Byte>, k: nat, rest: seq<Byte>)
    ensures Lands(ReadRaw(Shifted(k, b, rest), |b|), b, k, CLEAN, rest)
  {
    var input := Shifted(k, b, rest);
    ZerosMeet(0, 0, rest);
    if k == 0 {
      ZerosMeet(0, 0, b + rest);
      assert input[..|b|] == b;
      assert input[|b|..] == rest;
    } else if input[..|b|] == b {
      forall i | 0 <= i < |b| ensures b[i] == Zeros(|b|)[i] {
        AllZero(b, k, rest, i);
        ZeroAt(|b|, i);
      }
      assert b == Zeros(|b|);
      ZerosMeet(k, |b|, rest);
      ZerosMeet(|b|, k, rest);
      assert input[|b|..] == Zeros(k) + rest;
    }
  }

  /** Bytes equal to themselves `k` places on, after `k` zeros, are all zero. */
  lemma {:induction false} AllZero(b: seq<Byte>, k: nat, rest: seq<Byte>, i: nat)
    requires 0 < k && i < |b| && Shifted(k, b, rest)[..|b|] == b
    ensures b[i] == 0
    decreases i
  {
    assert b[i] == Shifted(k, b, rest)[i];
    if i >= k {
      AllZero(b, k, rest, i - k);
    } else {
      ZeroAt(k, i);
    }
  }

  lemma CountFits(n: nat)
    requires n < 0x1_0000_0000
    ensures AsU32(n) == n
  {
  }

  lemma CountedLands(n: In<nat>, b: seq<Byte>, rest: seq<Byte>)
    requires n == In(b + rest, Ok(|b|))
    ensures ReadCounted(n) == In(rest, Ok(b))
  {
    assert (b + rest)[..|b|] == b && (b + rest)[|b|..] == rest;
  }

  lemma PrefixedLands(b: seq<Byte>, k: nat, rest: seq<Byte>)
    requires |b| < 0x1_0000_0000
    ensures Lands(ReadPrefixed(Shifted(k, Prefixed(b), rest)), b, k, CLEAN, rest)
  {
    var n := Varint(|b|);
    CountFits(|b|);
    Split(k, n, b, rest);
    ZerosMeet(0, 0, rest);
    if k == 0 {
      ZerosMeet(0, 0, n + (b + rest));
      VarintReads(|b|, b + rest);
      CountedLands(In(b + rest, Ok(|b|)), b, rest);
    } else {
      ShiftedCount(n, b, k, rest);
    }
  }

  /** Behind zeros the count reads as none. */
  lemma ShiftedCount(n: seq<Byte>, b: seq<Byte>, k: nat, rest: seq<Byte>)
    requires 0 < k && (b == [] ==> n == [0])
    ensures Lands(ReadPrefixed(Shifted(k, n, b + rest)), b, k, CLEAN, rest)
  {
    var left := Zeros(k - 1) + (n + (b + rest));
    ZeroRead(k, n + (b + rest));
    assert ReadCounted(In(left, Ok(0))) == In(left[0..], Ok(left[..0]));
    if b == [] {
      assert [] + rest == rest;
      ZerosMeet(k - 1, 1, rest);
    }
  }

  lemma TextLands(c: Platform, t: Text, k: nat, rest: seq<Byte>)
    requires |t| < 0x1_0000_0000 && c.utf8(t)
    ensures Lands(ReadText(c, Shifted(k, Prefixed(t), rest)), t, k, CLEAN, rest)
  {
    PrefixedLands(t, k, rest);
  }

  // ---------------------------------------------------------------- following the shift

  /** Two reads in a row. */
  lemma Chain<S, T>(r1: In<S>, n1: S, k: nat, f1: Flaws, mid: seq<Byte>, r2: In<T>, n2: T, f2: Flaws, rest: seq<Byte>)
    requires Lands(r1, n1, k, f1, mid) && (Got(r1, n1) ==> Lands(r2, n2, k + f1.empties, f2, rest))
    ensures k == 0 && IsClean(Plus(f1, f2)) ==> Got(r1, n1) && Got(r2, n2)
    ensures Got(r1, n1) && Got(r2, n2) ==> !Plus(f1, f2).proto && r2.rest == Zeros(k + Plus(f1, f2).empties) + rest
  {
    assert k + f1.empties + f2.empties == k + Plus(f1, f2).empties;
  }

  /** A read that succeeds with what another one found, in other clothes. */
  lemma Wrapped<S, T>(r: In<S>, norm: S, r': In<T>, norm': T, k: nat, f: Flaws, rest: seq<Byte>)
    requires Lands(r, norm, k, f, rest)
    requires r'.rest == r.rest && r'.result.Ok? == r.result.Ok?
    requires r.result.Ok? ==> (r'.result.value == norm' <==> r.result.value == norm)
    ensures Lands(r', norm', k, f, rest)
  {
  }

  lemma ConsEqual<T>(a: T, xs: seq<T>, b: T, ys: seq<T>)
    ensures [a] + xs == [b] + ys <==> a == b && xs == ys
  {
    if [a] + xs == [b] + ys {
      assert ([a] + xs)[0] == ([b] + ys)[0];
      assert ([a] + xs)[1..] == ([b] + ys)[1..];
    }
  }

  /** One element and the elements behind it: `x` is what the first read makes, `x1` what it should make. */
  lemma ConsLands<S, T>(k: nat, rest: seq<Byte>, r1: In<S>, n1: S, f1: Flaws, mid: seq<Byte>, x: T, x1: T,
                        r2: In<seq<T>>, n2: seq<T>, f2: Flaws, r: In<seq<T>>)
    requires Lands(r1, n1, k, f1, mid) && (Got(r1, n1) ==> Lands(r2, n2, k + f1.empties, f2, rest))
    requires if r1.result.Ok? then r == Prepend(x, r2) && (x == x1 <==> r1.result.value == n1) else r.result.Err?
    ensures Lands(r, [x1] + n2, k, Plus(f1, f2), rest)
  {
    Chain(r1, n1, k, f1, mid, r2, n2, f2, rest);
    if r1.result.Ok? && r2.result.Ok? { ConsEqual(x, r2.result.value, x1, n2); }
  }

  /** The encoder, decoder, normaliser and flaw finder for one element of a list. */
  datatype Codec<!T> = Codec(we: T -> Out, re: seq<Byte> -> In<T>, ne: T -> T, fe: T -> Flaws)

  ghost predicate LandsAt<T>(p: Codec<T>, x: T, k: nat, rest: seq<Byte>) {
    Lands(p.re(Shifted(k, p.we(x).bytes, rest)), p.ne(x), k, p.fe(x), rest)
  }

  ghost predicate Good<T>(p: Codec<T>, x: T) {
    p.we(x).error.None? ==> forall k, rest :: LandsAt(p, x, k, rest)
  }

  lemma {:induction false} ListLands<T>(p: Codec<T>, xs: seq<T>, k: nat, rest: seq<Byte>)
    requires WriteList(p.we, xs).error.None?
    requires forall i :: 0 <= i < |xs| ==> Good(p, xs[i])
    ensures Lands(ReadList(p.re, Shifted(k, WriteList(p.we, xs).bytes, rest), |xs|), NormList(p.ne, xs), k, FlawsOfList(p.fe, xs), rest)
    decreases |xs|
  {
    if xs == [] {
      assert [] + rest == rest;
    } else {
      var w1, w2 := p.we(xs[0]).bytes, WriteList(p.we, xs[1..]).bytes;
      var f1, f2 := p.fe(xs[0]), FlawsOfList(p.fe, xs[1..]);
      var input := Shifted(k, w1 + w2, rest);
      Split(k, w1, w2, rest);
      assert LandsAt(p, xs[0], k, w2 + rest);
      var r1, n1 := p.re(input), p.ne(xs[0]);
      var r2, n2 := ReadList(p.re, r1.rest, |xs| - 1), NormList(p.ne, xs[1..]);
      ListLands(p, xs[1..], k + f1.empties, rest);
      var x := if r1.result.Ok? then r1.result.value else n1;
      ConsLands(k, rest, r1, n1, f1, w2 + rest, x, n1, r2, n2, f2, ReadList(p.re, input, |xs|));
    }
  }

  /** The four functions for values of any schema. */
  datatype Coders = Coders(w: ValueWriter, r: ValueReader, n: Normalizer, f: FlawFinder)

  ghost function ItemCodec(p: Coders, s: Schema): Codec<AvroValue> {
    Codec(ItemWriter(p.w, s), ItemReader(p.r, s), ItemNormer(p.n, s), ItemFinder(p.f, s))
  }

  lemma FieldsStep(rv: ValueReader, fields: seq<Field>, k: nat, rest: seq<Byte>, w1: seq<Byte>, n1: AvroValue, f1: Flaws,
                   w2: seq<Byte>, n2: seq<Entry>, f2: Flaws)
    requires fields != []
    requires Lands(rv(Shifted(k, w1, w2 + rest), fields[0].type_), n1, k, f1, w2 + rest)
    requires Lands(ReadFields(rv, Shifted(k + f1.empties, w2, rest), fields[1..]), n2, k + f1.empties, f2, rest)
    ensures Lands(ReadFields(rv, Shifted(k, w1 + w2, rest), fields), [Entry(fields[0].name, n1)] + n2, k, Plus(f1, f2), rest)
  {
    var f, input := fields[0], Shifted(k, w1 + w2, rest);
    Split(k, w1, w2, rest);
    var r1 := rv(input, f.type_);
    var x := if r1.result.Ok? then Entry(f.name, r1.result.value) else Entry(f.name, n1);
    ConsLands(k, rest, r1, n1, f1, w2 + rest, x, Entry(f.name, n1), ReadFields(rv, r1.rest, fields[1..]), n2, f2, ReadFields(rv, input, fields));
  }

  lemma {:induction false} FieldsLand(p: Coders, pairs: seq<Entry>, fields: seq<Field>, k: nat, rest: seq<Byte>)
    requires WriteFields(p.w, pairs, fields).error.None?
    requires forall i :: 0 <= i < |fields| && FieldValue(pairs, fields[i]).Some? ==>
               Good(ItemCodec(p, fields[i].type_), FieldValue(pairs, fields[i]).value)
    ensures Lands(ReadFields(p.r, Shifted(k, WriteFields(p.w, pairs, fields).bytes, rest), fields), NormFields(p.n, pairs, fields), k,
                  FlawsOfFields(p.f, pairs, fields), rest)
    decreases |fields|
  {
    if fields == [] {
      assert [] + rest == rest;
    } else {
      var f, v := fields[0], FieldValue(pairs, fields[0]).value;
      FieldsLand(p, pairs, fields[1..], k + p.f(v, f.type_).empties, rest);
      var w1, w2 := p.w(v, f.type_).bytes, WriteFields(p.w, pairs, fields[1..]).bytes;
      assert LandsAt(ItemCodec(p, f.type_), v, k, w2 + rest);
      FieldsStep(p.r, fields, k, rest, w1, p.n(v, f.type_), p.f(v, f.type_), w2, NormFields(p.n, pairs, fields[1..]), FlawsOfFields(p.f, pairs, fields[1..]));
    }
  }

  /** An entry: the key `r1`, then the value; `bad` when the decoder refuses the key. */
  lemma PairLands(k: nat, rest: seq<Byte>, key: Text, bad: bool, r1: In<Text>, mid: seq<Byte>,
                  v: In<AvroValue>, norm: AvroValue, f2: Flaws, r: In<Entry>)
    requires Lands(r1, key, k, CLEAN, mid) && (Got(r1, key) ==> Lands(v, norm, k, f2, rest))
    requires Got(r1, key) && !bad ==> r.rest == v.rest && r.result.Ok? == v.result.Ok?
    requires r.result.Ok? ==> r1.result.Ok? && v.result.Ok? && r.result.value == Entry(r1.result.value, v.result.value)
    requires r.result.Ok? ==> !(bad && r1.result.value == key)
    ensures Lands(r, Entry(key, norm), k, Plus(Flaws(0, bad), f2), rest)
  {
  }

  lemma EntryLands(rv: ValueReader, s: Schema, k: nat, rest: seq<Byte>, key: Text, r1: In<Text>, mid: seq<Byte>, norm: AvroValue, f2: Flaws)
    requires Lands(r1, key, k, CLEAN, mid)
    requires Got(r1, key) ==> Lands(rv(r1.rest, s), norm, k, f2, rest)
    ensures Lands(ReadEntry(rv, s, r1), Entry(key, norm), k, Plus(Flaws(0, key == PROTO), f2), rest)
  {
    PairLands(k, rest, key, key == PROTO, r1, mid, rv(r1.rest, s), norm, f2, ReadEntry(rv, s, r1));
  }

  // ---------------------------------------------------------------- blocks

  lemma {:induction false} ReadListLength<T>(re: seq<Byte> -> In<T>, input: seq<Byte>, count: nat)
    ensures var r := ReadList(re, input, count); r.result.Ok? ==> |r.result.value| == count
    decreases count
  {
    if count > 0 { ReadListLength(re, re(input).rest, count - 1); }
  }

  /** A zero count ends the blocks. */
  lemma ZeroBlock<T>(re: seq<Byte> -> In<T>, k: nat, rest: seq<Byte>, blocks: nat)
    requires 0 < k
    ensures var r := ReadBlocks(re, Zeros(k) + rest, blocks); r.rest == Zeros(k - 1) + rest && r.result.Ok? && r.result.value == []
  {
    ZeroRead(k, rest);
  }

  /** The two counts of an empty block are read as one. */
  lemma EmptyBlockLands<T>(re: seq<Byte> -> In<T>, k: nat, rest: seq<Byte>, blocks: nat)
    ensures Lands(ReadBlocks(re, Shifted(k, [0, 0], rest), blocks), [], k, Flaws(1, false), rest)
  {
    assert [0, 0] == Zeros(2) by { ZerosMeet(1, 1, []); assert Zeros(1) + (Zeros(1) + []) == [0, 0]; }
    ZerosMeet(k, 2, rest);
    ZeroBlock(re, k + 2, rest, blocks);
  }

  /** Behind zeros, a block reads as empty. */
  lemma ShiftedBlockLands<T>(re: seq<Byte> -> In<T>, norm: seq<T>, k: nat, w: seq<Byte>, f: Flaws, rest: seq<Byte>, blocks: nat)
    requires 0 < k && norm != []
    ensures Lands(ReadBlocks(re, Shifted(k, w, rest), blocks), norm, k, f, rest)
  {
    ZeroBlock(re, k, w + rest, blocks);
  }

  lemma ConcatWrong<T>(xs: seq<T>, ys: seq<T>, norm: seq<T>)
    requires |xs| == |norm| && xs + ys == norm
    ensures xs == norm
  {
    assert (xs + ys)[..|xs|] == xs;
    assert norm[..|norm|] == norm;
  }

  /** The elements of a block of known size, then the closing zero. */
  lemma ClosedBlock<T>(re: seq<Byte> -> In<T>, input: seq<Byte>, list: In<seq<T>>, norm: seq<T>, f: Flaws, rest: seq<Byte>, blocks: nat)
    requires norm != [] && 0 < blocks && ReadU32(input).result == Ok(|norm|)
    requires list == ReadList(re, ReadU32(input).rest, |norm|)
    requires Lands(list, norm, 0, f, [0] + rest)
    ensures Lands(ReadBlocks(re, input, blocks), norm, 0, f, rest)
  {
    ReadListLength(re, ReadU32(input).rest, |norm|);
    var last := ReadBlocks(re, list.rest, blocks - 1);
    if Got(list, norm) {
      ZerosMeet(f.empties, 1, rest);
      assert list.rest == Zeros(f.empties + 1) + rest;
      ZeroBlock(re, f.empties + 1, rest, blocks - 1);
      assert norm + [] == norm;
    } else if list.result.Ok? && last.result.Ok? {
      if list.result.value + last.result.value == norm {
        ConcatWrong(list.result.value, last.result.value, norm);
      }
    }
  }

  lemma BlockParts(count: nat, el: Out, n: seq<Byte>, rest: seq<Byte>)
    requires el.error.None? && n == Varint(AsU32(count))
    ensures WriteBlock(count, el).bytes + rest == n + (el.bytes + ([0] + rest))
    ensures WriteBlock(count, el).bytes == n + el.bytes + [0]
  {
    ZeroVarint();
    assert n + el.bytes + [0] + rest == n + (el.bytes + ([0] + rest));
  }

  lemma ZeroVarint()
    ensures Varint(0) == [0]
  {
  }

  lemma BlockBytes<T>(we: T -> Out, xs: seq<T>, rest: seq<Byte>)
    requires WriteList(we, xs).error.None? && |xs| < 0x1_0000_0000
    ensures var w := WriteBlock(|xs|, WriteList(we, xs)).bytes;
            && (xs == [] ==> w == [0, 0])
            && w + rest == Varint(|xs|) + (WriteList(we, xs).bytes + ([0] + rest))
  {
    CountFits(|xs|);
    ZeroVarint();
    BlockParts(|xs|, WriteList(we, xs), Varint(|xs|), rest);
  }

  lemma BlockLands<T>(p: Codec<T>, xs: seq<T>, k: nat, rest: seq<Byte>, input: seq<Byte>)
    requires WriteList(p.we, xs).error.None? && |xs| < 0x1_0000_0000
    requires forall i :: 0 <= i < |xs| ==> Good(p, xs[i])
    requires input == Shifted(k, WriteBlock(|xs|, WriteList(p.we, xs)).bytes, rest)
    ensures Lands(ReadBlocks(p.re, input, |input|), NormList(p.ne, xs), k, BlockFlaws(|xs|, FlawsOfList(p.fe, xs)), rest)
  {
    var w := WriteBlock(|xs|, WriteList(p.we, xs)).bytes;
    BlockBytes(p.we, xs, rest);
    if xs == [] {
      EmptyBlockLands(p.re, k, rest, |input|);
    } else if k > 0 {
      ShiftedBlockLands(p.re, NormList(p.ne, xs), k, w, FlawsOfList(p.fe, xs), rest, |input|);
    } else {
      FullBlockLands(p, xs, rest, |input|);
      ZerosMeet(0, 0, w + rest);
    }
  }

  lemma FullBlockLands<T>(p: Codec<T>, xs: seq<T>, rest: seq<Byte>, blocks: nat)
    requires WriteList(p.we, xs).error.None? && 0 < |xs| < 0x1_0000_0000 && 0 < blocks
    requires forall i :: 0 <= i < |xs| ==> Good(p, xs[i])
    ensures Lands(ReadBlocks(p.re, Varint(|xs|) + (WriteList(p.we, xs).bytes + ([0] + rest)), blocks), NormList(p.ne, xs), 0, FlawsOfList(p.fe, xs), rest)
  {
    var tail := WriteList(p.we, xs).bytes + ([0] + rest);
    VarintReads(|xs|, tail);
    ListLands(p, xs, 0, [0] + rest);
    ZerosMeet(0, 0, tail);
    ClosedBlock(p.re, Varint(|xs|) + tail, ReadList(p.re, tail, |xs|), NormList(p.ne, xs), FlawsOfList(p.fe, xs), rest, blocks);
  }

  // ---------------------------------------------------------------- values

  /** What has to be shown of a value written under a schema that is no reference. */
  ghost predicate LandsAs(c: Platform, names: Names, p: Coders, v: AvroValue, schema: Schema, k: nat, w: seq<Byte>, rest: seq<Byte>) {
    Lands(ReadAs(c, p.r, Shifted(k, w, rest), schema), NormAs(c, names, p.n, v, schema), k, FlawsAs(names, p.f, v, schema), rest)
  }

  lemma NullLands(c: Platform, names: Names, p: Coders, k: nat, rest: seq<Byte>)
    ensures LandsAs(c, names, p, Null, NullType, k, [], rest)
  {
    assert [] + rest == rest;
  }

  lemma BooleanRead(b: bool, k: nat, rest: seq<Byte>)
    ensures Lands(ReadBoolean(Shifted(k, [if b then 1 else 0], rest)), Bool(b), k, CLEAN, rest)
  {
    var w := [if b then 1 else 0];
    FirstByte(w[0], k, rest);
    ZerosMeet(0, 0, rest);
    if k > 0 && !b {
      ZeroOnce();
      ZerosMeet(k - 1, 1, rest);
    }
    hide Zeros, Shifted;
    assert k > 0 ==> ([0] + (Zeros(k - 1) + (w + rest)))[1..] == Zeros(k - 1) + (w + rest);
    assert (w + rest)[1..] == rest;
  }

  lemma ZeroOnce()
    ensures Zeros(1) == [0]
  {
  }

  lemma FirstByte(b: Byte, k: nat, rest: seq<Byte>)
    ensures Shifted(k, [b], rest) == if k == 0 then [b] + rest else [0] + (Zeros(k - 1) + ([b] + rest))
  {
  }

  lemma BooleanLands(c: Platform, names: Names, p: Coders, b: bool, k: nat, rest: seq<Byte>)
    ensures LandsAs(c, names, p, Bool(b), BooleanType, k, [if b then 1 else 0], rest)
  {
    BooleanRead(b, k, rest);
  }

  lemma FixedLands(c: Platform, names: Names, p: Coders, w: seq<Byte>, schema: Schema, k: nat, rest: seq<Byte>)
    requires schema.FixedType? && schema.size == |w|
    ensures LandsAs(c, names, p, Fixed(w), schema, k, w, rest)
  {
    RawLands(w, k, rest);
  }

  /** Reading the bytes of a word and reading its bits are the same. */
  lemma WordLands(n: nat, width: nat, k: nat, rest: seq<Byte>)
    requires n < Pow256(width)
    ensures var w := LittleEndian(n, width);
            var raw := ReadRaw(Shifted(k, w, rest), width);
            && Lands(raw, w, k, CLEAN, rest)
            && (raw.result.Ok? ==> |raw.result.value| == width && (FromLittleEndian(raw.result.value) == n <==> raw.result.value == w))
  {
    var w := LittleEndian(n, width);
    RawLands(w, k, rest);
    LittleEndianRead(n, width);
    var raw := ReadRaw(Shifted(k, w, rest), width);
    if raw.result.Ok? { LittleEndianWritten(raw.result.value); }
  }

  lemma FloatLands(c: Platform, names: Names, p: Coders, v: AvroValue, k: nat, rest: seq<Byte>)
    requires IsNumber(v)
    ensures LandsAs(c, names, p, v, FloatType, k, LittleEndian(ToF32(c, v), 4), rest)
  {
    hide Pow256, LittleEndian, FromLittleEndian, Zeros, ReadRaw, Shifted;
    WordSizes();
    WordLands(ToF32(c, v), 4, k, rest);
  }

  lemma DoubleLands(c: Platform, names: Names, p: Coders, v: AvroValue, k: nat, rest: seq<Byte>)
    requires IsNumber(v)
    ensures LandsAs(c, names, p, v, DoubleType, k, LittleEndian(ToF64(c, v), 8), rest)
  {
    hide Pow256, LittleEndian, FromLittleEndian, Zeros, ReadRaw, Shifted;
    WordSizes();
    WordLands(ToF64(c, v), 8, k, rest);
  }

  lemma NumberLands(c: Platform, names: Names, p: Coders, v: AvroValue, schema: Schema, k: nat, rest: seq<Byte>)
    requires (schema.IntType? && (v.Int? || (v.Long? && InI32(v.int64)))) || (schema.LongType? && (v.Long? || v.Int?))
    ensures LandsAs(c, names, p, v, schema, k, Signed(if v.Int? then v.int32 else v.int64), rest)
  {
    hide Signed, ReadInt, ReadLong, Zeros, Shifted;
    var n := if v.Int? then v.int32 else v.int64;
    if schema.IntType? {
      IntLands(n, k, rest);
    } else {
      LongLands(n, k, rest);
    }
  }

  lemma BytesLands(c: Platform, names: Names, p: Coders, b: seq<Byte>, k: nat, rest: seq<Byte>)
    requires |b| < 0x1_0000_0000
    ensures LandsAs(c, names, p, Bytes(b), BytesType, k, Prefixed(b), rest)
  {
    PrefixedLands(b, k, rest);
  }

  lemma StringLands(c: Platform, names: Names, p: Coders, t: Text, k: nat, rest: seq<Byte>)
    requires |t| < 0x1_0000_0000 && c.utf8(t)
    ensures LandsAs(c, names, p, Str(t), StringType, k, Prefixed(t), rest)
  {
    TextLands(c, t, k, rest);
  }

  lemma SmallIndex(i: nat)
    requires i < 0x8000_0000
    ensures AsI32(i) == i
  {
  }

  lemma EnumLands(symbols: seq<Text>, symbol: Text, k: nat, rest: seq<Byte>)
    requires |symbols| <= 0x8000_0000 && WriteSymbol(symbols, symbol).error.None?
    ensures Lands(ReadEnum(Shifted(k, WriteSymbol(symbols, symbol).bytes, rest), symbols), Enum(symbol), k, CLEAN, rest)
  {
    var i: nat := Position(symbols, symbol).value;
    SmallIndex(i);
    IntLands(i, k, rest);
    if i > 0 {
      assert symbols[0] in symbols[..i];
    }
  }

  lemma UnionLands(rv: ValueReader, alts: seq<Schema>, i: nat, norm: AvroValue, w: seq<Byte>, f: Flaws, k: nat, rest: seq<Byte>)
    requires i < |alts| <= 0x8000_0000
    requires Lands(rv(Shifted(k, w, rest), alts[i]), norm, k, f, rest)
    ensures Lands(ReadUnion(rv, Shifted(k, Signed(i) + w, rest), alts), Union(i, norm), k, f, rest)
  {
    var input := Shifted(k, Signed(i) + w, rest);
    Split(k, Signed(i), w, rest);
    IntLands(i, k, w + rest);
  }

  /** Whatever fits is read back. */
  ghost predicate AllGood(c: Platform, p: Coders) {
    forall v, s :: SchemaFits(c, s) && Fits(c, v) ==> Good(ItemCodec(p, s), v)
  }

  lemma RecordCase(c: Platform, names: Names, p: Coders, v: AvroValue, schema: Schema, k: nat, rest: seq<Byte>)
    requires AllGood(c, p) && SchemaFits(c, schema) && Fits(c, v) && schema.RecordType? && v.Record?
    requires WriteFields(p.w, v.pairs, schema.fields).error.None?
    ensures LandsAs(c, names, p, v, schema, k, WriteFields(p.w, v.pairs, schema.fields).bytes, rest)
  {
    var fields := schema.fields;
    forall i | 0 <= i < |fields| && FieldValue(v.pairs, fields[i]).Some?
      ensures Good(ItemCodec(p, fields[i].type_), FieldValue(v.pairs, fields[i]).value)
    {
      assert Fits(c, FieldValue(v.pairs, fields[i]).value);
    }
    FieldsLand(p, v.pairs, fields, k, rest);
  }

  lemma CollectionLands(items: In<seq<AvroValue>>, entries: In<seq<Entry>>, vs: seq<AvroValue>, es: seq<Entry>, k: nat, f: Flaws, rest: seq<Byte>)
    ensures Lands(items, vs, k, f, rest) ==> Lands(AsArray(items), Array(vs), k, f, rest)
    ensures Lands(entries, es, k, f, rest) ==> Lands(AsMap(entries), Map(es), k, f, rest)
  {
  }

  lemma ArrayCase(c: Platform, names: Names, p: Coders, v: AvroValue, schema: Schema, k: nat, w: seq<Byte>, rest: seq<Byte>)
    requires AllGood(c, p) && SchemaFits(c, schema) && Fits(c, v) && schema.ArrayType? && v.Array?
    requires WriteList(ItemWriter(p.w, schema.items), v.items).error.None?
    requires w == WriteBlock(|v.items|, WriteList(ItemWriter(p.w, schema.items), v.items)).bytes
    ensures LandsAs(c, names, p, v, schema, k, w, rest)
  {
    hide Lands, ReadBlocks, FlawsOfList, NormList;
    var q, vs, input := ItemCodec(p, schema.items), v.items, Shifted(k, w, rest);
    BlockLands(q, vs, k, rest, input);
    CollectionLands(ReadBlocks(q.re, input, |input|), In([], Ok([])), NormList(q.ne, vs), [], k, BlockFlaws(|vs|, FlawsOfList(q.fe, vs)), rest);
  }

  ghost function EntryCodec(p: Coders, rt: seq<Byte> -> In<Text>, s: Schema): Codec<Entry> {
    Codec(EntryWriter(p.w, s), EntryReader(rt, p.r, s), EntryNormer(p.n, s), EntryFinder(p.f, s))
  }

  /** A reader of keys that finds this one wherever it was written. */
  ghost predicate ReadsKey(rt: seq<Byte> -> In<Text>, key: Text) {
    forall k, rest :: Lands(rt(Shifted(k, Prefixed(key), rest)), key, k, CLEAN, rest)
  }

  lemma TextReaderReads(c: Platform, key: Text)
    requires |key| < 0x1_0000_0000 && c.utf8(key)
    ensures ReadsKey(TextReader(c), key)
  {
    forall k, rest ensures Lands(TextReader(c)(Shifted(k, Prefixed(key), rest)), key, k, CLEAN, rest) {
      TextLands(c, key, k, rest);
    }
  }

  lemma EntryWritten(wv: ValueWriter, s: Schema, e: Entry)
    ensures EntryWriter(wv, s)(e) == Then(Done(Prefixed(e.key)), wv(e.value, s))
    ensures EntryWriter(wv, s)(e).error.None? ==> wv(e.value, s).error.None? && EntryWriter(wv, s)(e).bytes == Prefixed(e.key) + wv(e.value, s).bytes
  {
  }

  lemma EntryGood(p: Coders, rt: seq<Byte> -> In<Text>, s: Schema, e: Entry)
    requires ReadsKey(rt, e.key) && Good(ItemCodec(p, s), e.value)
    ensures Good(EntryCodec(p, rt, s), e)
  {
    if EntryWriter(p.w, s)(e).error.None? {
      EntryWritten(p.w, s, e);
      forall k, rest ensures LandsAt(EntryCodec(p, rt, s), e, k, rest) {
        EntryLandsAt(p, rt, s, e, k, rest);
      }
    }
  }

  lemma EntryLandsAt(p: Coders, rt: seq<Byte> -> In<Text>, s: Schema, e: Entry, k: nat, rest: seq<Byte>)
    requires ReadsKey(rt, e.key) && Good(ItemCodec(p, s), e.value) && p.w(e.value, s).error.None?
    requires EntryWriter(p.w, s)(e).bytes == Prefixed(e.key) + p.w(e.value, s).bytes
    ensures LandsAt(EntryCodec(p, rt, s), e, k, rest)
  {
    var w1, w2 := Prefixed(e.key), p.w(e.value, s).bytes;
    var input, q := Shifted(k, w1 + w2, rest), ItemCodec(p, s);
    Split(k, w1, w2, rest);
    assert q.we(e.value) == p.w(e.value, s);
    assert LandsAt(q, e.value, k, rest);
    EntryLands(p.r, s, k, rest, e.key, rt(input), w2 + rest, p.n(e.value, s), p.f(e.value, s));
  }

  lemma MapCase(c: Platform, names: Names, p: Coders, v: AvroValue, schema: Schema, k: nat, w: seq<Byte>, rest: seq<Byte>)
    requires AllGood(c, p) && SchemaFits(c, schema) && Fits(c, v) && schema.MapType? && v.Map?
    requires WriteList(EntryWriter(p.w, schema.values), v.entries).error.None?
    requires w == WriteBlock(|v.entries|, WriteList(EntryWriter(p.w, schema.values), v.entries)).bytes
    ensures LandsAs(c, names, p, v, schema, k, w, rest)
  {
    hide Lands, ReadBlocks, FlawsOfList, NormList;
    var rt, s, es := TextReader(c), schema.values, v.entries;
    forall i | 0 <= i < |es| ensures Good(EntryCodec(p, rt, s), es[i]) {
      TextReaderReads(c, es[i].key);
      EntryGood(p, rt, s, es[i]);
    }
    var q, input := EntryCodec(p, rt, s), Shifted(k, w, rest);
    BlockLands(q, es, k, rest, input);
    CollectionLands(In([], Ok([])), ReadBlocks(q.re, input, |input|), [], NormList(q.ne, es), k, BlockFlaws(|es|, FlawsOfList(q.fe, es)), rest);
  }

  lemma UnionCase(c: Platform, names: Names, p: Coders, v: AvroValue, schema: Schema, k: nat, rest: seq<Byte>)
    requires AllGood(c, p) && SchemaFits(c, schema) && Fits(c, v) && schema.UnionType?
    requires Branch(names, v, schema.alternatives).Ok?
    requires p.w(Payload(v), schema.alternatives[Branch(names, v, schema.alternatives).value]).error.None?
    ensures LandsAs(c, names, p, v, schema, k, WriteUnion(p.w, v, Branch(names, v, schema.alternatives), schema.alternatives).bytes, rest)
  {
    var alts := schema.alternatives;
    var i := Branch(names, v, alts).value;
    var q := ItemCodec(p, alts[i]);
    SmallIndex(i);
    assert q.we(Payload(v)) == p.w(Payload(v), alts[i]);
    assert Good(q, Payload(v)) && LandsAt(q, Payload(v), k, rest);
    UnionLands(p.r, alts, i, p.n(Payload(v), alts[i]), p.w(Payload(v), alts[i]).bytes, p.f(Payload(v), alts[i]), k, rest);
  }

  lemma EnumCase(c: Platform, names: Names, p: Coders, v: AvroValue, schema: Schema, k: nat, rest: seq<Byte>)
    requires schema.EnumType? && |schema.symbols| <= 0x8000_0000 && v.Enum? && WriteSymbol(schema.symbols, v.symbol).error.None?
    ensures LandsAs(c, names, p, v, schema, k, WriteSymbol(schema.symbols, v.symbol).bytes, rest)
  {
    hide ReadEnum, WriteSymbol;
    EnumLands(schema.symbols, v.symbol, k, rest);
  }

  /** One level of nesting. */
  lemma StepLands(c: Platform, names: Names, p: Coders, v: AvroValue, schema: Schema, k: nat, rest: seq<Byte>)
    requires AllGood(c, p) && SchemaFits(c, schema) && Fits(c, v)
    requires WriteAs(c, names, p.w, v, schema).error.None?
    ensures LandsAs(c, names, p, v, schema, k, WriteAs(c, names, p.w, v, schema).bytes, rest)
  {
    hide LandsAs, WriteFields, WriteList, WriteSymbol, LittleEndian, Signed, Prefixed, Varint, FirstMatch, Matches;
    var w := WriteAs(c, names, p.w, v, schema).bytes;
    match schema
    case NullType => NullLands(c, names, p, k, rest);
    case BooleanType => BooleanLands(c, names, p, v.b, k, rest);
    case IntType => NumberLands(c, names, p, v, schema, k, rest);
    case LongType => NumberLands(c, names, p, v, schema, k, rest);
    case FloatType => FloatLands(c, names, p, v, k, rest);
    case DoubleType => DoubleLands(c, names, p, v, k, rest);
    case BytesType => BytesLands(c, names, p, v.bytes, k, rest);
    case StringType => StringLands(c, names, p, v.text, k, rest);
    case RecordType(_, _, _) => RecordCase(c, names, p, v, schema, k, rest);
    case EnumType(_, _, _, _) => EnumCase(c, names, p, v, schema, k, rest);
    case ArrayType(_) => ArrayCase(c, names, p, v, schema, k, w, rest);
    case MapType(_) => MapCase(c, names, p, v, schema, k, w, rest);
    case FixedType(_, _, _) => FixedLands(c, names, p, v.data, schema, k, rest);
    case UnionType(_) => UnionCase(c, names, p, v, schema, k, rest);
  }

  ghost function At(c: Platform, names: Names, depth: nat): Coders {
    Coders(WriterAt(c, names, depth), ReaderAt(c, names, depth), Normer(c, names, depth), Finder(c, names, depth))
  }

  /** Every encoded value, wherever it lies behind leftover zeros. */
  lemma {:induction false} ValueLands(c: Platform, names: Names, depth: nat, v: AvroValue, s: Schema, k: nat, rest: seq<Byte>)
    requires NamesFit(c, names) && SchemaFits(c, s) && Fits(c, v)
    requires WriteValue(c, names, depth, v, s).error.None?
    ensures Lands(ReadValue(c, names, depth, Shifted(k, WriteValue(c, names, depth, v, s).bytes, rest), s), Norm(c, names, depth, v, s), k,
                  FlawsOf(c, names, depth, v, s), rest)
    decreases depth
  {
    hide SchemaFits, Fits, ReadAs, WriteAs, NormAs, FlawsAs, Lands;
    var p := At(c, names, depth - 1);
    assert AllGood(c, p) by {
      forall v', s' | SchemaFits(c, s') && Fits(c, v') ensures Good(ItemCodec(p, s'), v') {
        if WriteValue(c, names, depth - 1, v', s').error.None? {
          forall k, rest ensures LandsAt(ItemCodec(p, s'), v', k, rest) {
            ValueLands(c, names, depth - 1, v', s', k, rest);
          }
        }
      }
    }
    StepLands(c, names, p, v, Resolve(names, s).value, k, rest);
  }
}
