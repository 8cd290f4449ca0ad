/** What the Bencode encoder of crates/json-joy-json-pack/src/bencode/encoder.rs writes and the decoder of decoder.rs reads, by position. */
module Bencode {
  import opened Common
  import opened Bytes
  import opened Decimals

  datatype PackValue =
    | Null
    | Undefined
    | Bool(b: bool)
    | Integer(i: I64)
    | UInteger(u: U64)
    | Float(f: F64)
    | BigInt(n: I128)
    | Bytes(bytes: seq<Byte>)
    | Str(text: Text)
    | Array(items: seq<PackValue>)
    | Object(members: seq<Pair>)
    | Opaque

  datatype Pair = Pair(key: Text, value: PackValue)

  datatype BencodeError = UnexpectedEof | InvalidByte(at: nat) | IntegerOverflow | InvalidUtf8 | InvalidKey

  /** UTF-8 validity, and `float.round() as i64`. */
  datatype Platform = Platform(utf8: Text -> bool, round: F64 -> I64)

  /** `__proto__` */
  const PROTO: Text := [95, 95, 112, 114, 111, 116, 111, 95, 95]

  // ---------------------------------------------------------------- numerals

  function Numeral(n: int): (r: Text)
    ensures r != []
  {
    if n < 0 then [45] + Decimal(-n) else Decimal(n)
  }

  /** A sign and digits as a number. */
  function ParseNumber(t: Text): Option<int> {
    var signed := t != [] && (t[0] == 43 || t[0] == 45);
    var digits := if signed then t[1..] else t;
    if digits == [] || !AllDigits(digits) then None
    else Some(if signed && t[0] == 45 then 0 - DigitsValue(digits) else DigitsValue(digits) + 0)
  }

  // ---------------------------------------------------------------- key order

  predicate KeyLess(a: Text, b: Text) {
    b != [] && (a == [] || a[0] < b[0] || (a[0] == b[0] && KeyLess(a[1..], b[1..])))
  }

  function Insert(p: Pair, sorted: seq<Pair>): (r: seq<Pair>)
    ensures multiset(r) == multiset(sorted) + multiset{p}
  {
    if sorted == [] || !KeyLess(sorted[0].key, p.key) then
      assert multiset([p] + sorted) == multiset{p} + multiset(sorted);
      [p] + sorted
    else
      var more := Insert(p, sorted[1..]);
      assert sorted == [sorted[0]] + sorted[1..];
      [sorted[0]] + more
  }

  /** A stable sort by key bytes. */
  function Sort(pairs: seq<Pair>): (r: seq<Pair>)
    ensures multiset(r) == multiset(pairs)
  {
    if pairs == [] then [] else
    assert pairs == [pairs[0]] + pairs[1..];
    Insert(pairs[0], Sort(pairs[1..]))
  }

  lemma SortedIsIn(pairs: seq<Pair>)
    ensures forall i :: 0 <= i < |Sort(pairs)| ==> Sort(pairs)[i] in pairs
  {
    forall i | 0 <= i < |Sort(pairs)| ensures Sort(pairs)[i] in pairs {
      assert Sort(pairs)[i] in multiset(Sort(pairs));
    }
  }

  // ---------------------------------------------------------------- encoder

  function IntegerBytes(n: int): seq<Byte> {
    [105] + (Numeral(n) + [101])
  }

  function StringBytes(b: seq<Byte>): seq<Byte> {
    Decimal(|b|) + ([58] + b)
  }

  function Encode(c: Platform, v: PackValue): seq<Byte>
    decreases v, 1
  {
    match v
    case Null => [110]
    case Undefined => [117]
    case Bool(b) => [if b then 116 else 102]
    case Integer(i) => IntegerBytes(i)
    case UInteger(u) => IntegerBytes(u)
    case Float(f) => IntegerBytes(c.round(f))
    case BigInt(n) => IntegerBytes(n)
    case Bytes(b) => StringBytes(b)
    case Str(t) => StringBytes(t)
    case Array(items) => [108] + (EncodeItems(c, items) + [101])
    case Object(members) =>
      SortedIsIn(members);
      [100] + (EncodePairs(c, v, Sort(members)) + [101])
    case Opaque => [110]
  }

  function EncodeItems(c: Platform, items: seq<PackValue>): seq<Byte>
    decreases items, 0
  {
    if items == [] then [] else Encode(c, items[0]) + EncodeItems(c, items[1..])
  }

  /** Pairs that come from `parent`, in the order given. */
  function EncodePairs(c: Platform, ghost parent: PackValue, pairs: seq<Pair>): seq<Byte>
    requires forall i :: 0 <= i < |pairs| ==> pairs[i].value < parent
    decreases parent, 0, |pairs|
  {
    if pairs == [] then [] else
    StringBytes(pairs[0].key) + (Encode(c, pairs[0].value) + EncodePairs(c, parent, pairs[1..]))
  }

  // ---------------------------------------------------------------- decoder

  datatype At<+T> = At(x: nat, result: Result<T, BencodeError>)

  function Pushed<T>(y: T, more: At<seq<T>>): At<seq<T>> {
    At(more.x, match more.result case Ok(ys) => Ok([y] + ys) case Err(e) => Err(e))
  }

  /** What is read before the closing `e`, at most 25 bytes of it. */
  function NumberText(data: seq<Byte>, x: nat, count: nat): (r: At<Text>)
    ensures r.result.Ok? ==> x < r.x
    decreases Left(data, x)
  {
    if x >= |data| then At(x, Err(UnexpectedEof))
    else if data[x] == 101 then At(x + 1, Ok([]))
    else if count >= 25 then At(x + 1, Err(IntegerOverflow))
    else Pushed(data[x], NumberText(data, x + 1, count + 1))
  }

  function ReadNumber(data: seq<Byte>, x: nat): (r: At<PackValue>)
    ensures r.result.Ok? ==> x < r.x
  {
    var t := NumberText(data, x + 1, 0);
    match t.result
    case Err(e) => At(t.x, Err(e))
    case Ok(text) =>
      if text == [] then At(t.x, Err(InvalidByte(t.x))) else
      match ParseNumber(text)
      case None => At(t.x, Err(IntegerOverflow))
      case Some(n) => At(t.x, Narrowest(n))
  }

  /** A number in the narrowest variant that holds it. */
  function Narrowest(n: int): Result<PackValue, BencodeError> {
    if -0x8000_0000_0000_0000 <= n < 0x8000_0000_0000_0000 then Ok(Integer(n))
    else if -0x8000_0000_0000_0000_0000_0000_0000_0000 <= n < 0x8000_0000_0000_0000_0000_0000_0000_0000 then Ok(BigInt(n))
    else Err(IntegerOverflow)
  }

  /** The digits before the colon, at most 10. */
  function LengthText(data: seq<Byte>, x: nat, count: nat): (r: At<Text>)
    ensures r.result.Ok? ==> x < r.x && AllDigits(r.result.value)
    decreases Left(data, x)
  {
    if x >= |data| then At(x, Err(UnexpectedEof))
    else if data[x] == 58 then At(x + 1, Ok([]))
    else if !IsDigit(data[x]) then At(x + 1, Err(InvalidByte(x)))
    else if count >= 10 then At(x + 1, Err(IntegerOverflow))
    else Pushed(data[x], LengthText(data, x + 1, count + 1))
  }

  function ReadString(data: seq<Byte>, x: nat): (r: At<seq<Byte>>)
    ensures r.result.Ok? ==> x < r.x
  {
    var t := LengthText(data, x, 0);
    match t.result
    case Err(e) => At(t.x, Err(e))
    case Ok(digits) =>
      if digits == [] then At(t.x, Err(IntegerOverflow)) else
      var len := DigitsValue(digits);
      if t.x + len > |data| then At(t.x, Err(UnexpectedEof)) else At(t.x + len, Ok(data[t.x..t.x + len]))
  }

  function ReadAny(c: Platform, data: seq<Byte>, x: nat): (r: At<PackValue>)
    ensures r.result.Ok? ==> x < r.x
    decreases Left(data, x), 1
  {
    if x >= |data| then At(x, Err(UnexpectedEof)) else
    var ch := data[x];
    if ch == 105 then ReadNumber(data, x)
    else if ch == 100 then
      var r := ReadPairs(c, data, x + 1);
      At(r.x, match r.result case Ok(ps) => Ok(Object(ps)) case Err(e) => Err(e))
    else if ch == 108 then
      var r := ReadItems(c, data, x + 1);
      At(r.x, match r.result case Ok(vs) => Ok(Array(vs)) case Err(e) => Err(e))
    else if ch == 116 then At(x + 1, Ok(Bool(true)))
    else if ch == 102 then At(x + 1, Ok(Bool(false)))
    else if ch == 110 then At(x + 1, Ok(Null))
    else if ch == 117 then At(x + 1, Ok(Undefined))
    else if IsDigit(ch) then
      var r := ReadString(data, x);
      At(r.x, match r.result case Ok(b) => Ok(Bytes(b)) case Err(e) => Err(e))
    else At(x, Err(InvalidByte(x)))
  }

  function ReadItems(c: Platform, data: seq<Byte>, x: nat): (r: At<seq<PackValue>>)
    ensures r.result.Ok? ==> x < r.x
    decreases Left(data, x), 2
  {
    if x >= |data| then At(x, Err(UnexpectedEof))
    else if data[x] == 101 then At(x + 1, Ok([]))
    else
      var v := ReadAny(c, data, x);
      match v.result
      case Err(e) => At(v.x, Err(e))
      case Ok(w) => Pushed(w, ReadItems(c, data, v.x))
  }

  function ReadPairs(c: Platform, data: seq<Byte>, x: nat): (r: At<seq<Pair>>)
    ensures r.result.Ok? ==> x < r.x
    decreases Left(data, x), 2
  {
    if x >= |data| then At(x, Err(UnexpectedEof))
    else if data[x] == 101 then At(x + 1, Ok([]))
    else
      var k := ReadString(data, x);
      match k.result
      case Err(e) => At(k.x, Err(e))
      case Ok(key) =>
        if !c.utf8(key) then At(k.x, Err(InvalidUtf8))
        else if key == PROTO then At(k.x, Err(InvalidKey))
        else
          var v := ReadAny(c, data, k.x);
          match v.result
          case Err(e) => At(v.x, Err(e))
          case Ok(w) => Pushed(Pair(key, w), ReadPairs(c, data, v.x))
  }
}
