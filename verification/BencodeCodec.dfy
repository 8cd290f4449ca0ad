/** The Bencode encoder and decoder as they run, each method shown to do what module Bencode says. */
module BencodeCodec {
  import opened Common
  import opened Bytes
  import opened Decimals
  import opened Bencode
  import Buffers

  lemma NoItemsLeft(written: seq<Byte>)
    ensures written + [] == written
  {
  }

  class BencodeEncoder {
    const writer: Buffers.Writer

    ghost predicate Valid()
      reads writer
    {
      writer.Valid()
    }

    constructor ()
      ensures fresh(writer) && fresh(writer.uint8) && Valid() && writer.Pending() == []
    {
      writer := new Buffers.Writer(64 * 1024);
    }

    /** What an earlier user left in the writer does not show. */
    method Encode(c: Platform, v: PackValue) returns (bytes: seq<Byte>)
      requires Valid()
      modifies writer, writer.uint8
      ensures Valid() && bytes == Bencode.Encode(c, v) && writer.Pending() == []
      ensures writer.uint8 == old(writer.uint8) || fresh(writer.uint8)
    {
      hide Bencode.Encode;
      writer.Reset();
      WriteAny(c, v);
      bytes := writer.Flush();
      assert [] + bytes == bytes;
    }

    method WriteAny(c: Platform, v: PackValue)
      requires Valid()
      modifies writer, writer.uint8
      ensures Valid() && writer.Pending() == old(writer.Pending()) + Bencode.Encode(c, v)
      ensures writer.uint8 == old(writer.uint8) || fresh(writer.uint8)
      decreases v, 1
    {
      hide IntegerBytes, StringBytes, EncodeItems, EncodePairs, Sort;
      match v {
        case Null => writer.U8(110);
        case Undefined => writer.U8(117);
        case Bool(b) => writer.U8(if b then 116 else 102);
        case Integer(i) => WriteNumber(i);
        case UInteger(u) => WriteNumber(u);
        case Float(f) => WriteNumber(c.round(f));
        case BigInt(n) => WriteNumber(n);
        case Bytes(b) => WriteBin(b);
        case Str(t) => WriteBin(t);
        case Array(items) => WriteArr(c, items);
        case Object(members) => WriteObj(c, v);
        case Opaque => writer.U8(110);
      }
    }

    /** The integer writers: they differ in the width of `n` only. */
    method WriteNumber(n: int)
      requires Valid()
      modifies writer, writer.uint8
      ensures Valid() && writer.Pending() == old(writer.Pending()) + IntegerBytes(n)
      ensures writer.uint8 == old(writer.uint8) || fresh(writer.uint8)
    {
      hide Numeral;
      writer.U8(105);
      writer.Buf(Numeral(n));
      writer.U8(101);
    }

    /** Bytes and strings alike. */
    method WriteBin(b: seq<Byte>)
      requires Valid()
      modifies writer, writer.uint8
      ensures Valid() && writer.Pending() == old(writer.Pending()) + StringBytes(b)
      ensures writer.uint8 == old(writer.uint8) || fresh(writer.uint8)
    {
      hide Decimal;
      writer.Buf(Decimal(|b|));
      writer.U8(58);
      writer.Buf(b);
    }

    method WriteArr(c: Platform, items: seq<PackValue>)
      requires Valid()
      modifies writer, writer.uint8
      ensures Valid() && writer.Pending() == old(writer.Pending()) + ([108] + (EncodeItems(c, items) + [101]))
      ensures writer.uint8 == old(writer.uint8) || fresh(writer.uint8)
      decreases items, 0
    {
      hide Bencode.Encode;
      ghost var before := writer.Pending();
      writer.U8(108);
      ghost var head := writer.Pending();
      var i := 0;
      assert items[0..] == items;
      while i < |items|
        invariant 0 <= i <= |items| && Valid()
        invariant writer.uint8 == old(writer.uint8) || fresh(writer.uint8)
        invariant writer.Pending() + EncodeItems(c, items[i..]) == head + EncodeItems(c, items)
      {
        assert items[i..][0] == items[i] && items[i..][1..] == items[i + 1..];
        ConcatAssoc(writer.Pending(), Bencode.Encode(c, items[i]), EncodeItems(c, items[i + 1..]));
        WriteAny(c, items[i]);
        i := i + 1;
      }
      assert items[i..] == [];
      NoItemsLeft(writer.Pending());
      writer.U8(101);
      ConcatAssoc(before, [108], EncodeItems(c, items));
      ConcatAssoc(before, [108] + EncodeItems(c, items), [101]);
      ConcatAssoc([108], EncodeItems(c, items), [101]);
    }

    /** `v` is the object with the members to sort and write. */
    method WriteObj(c: Platform, v: PackValue)
      requires Valid() && v.Object?
      modifies writer, writer.uint8
      ensures Valid() && writer.Pending() == old(writer.Pending()) + Bencode.Encode(c, v)
      ensures writer.uint8 == old(writer.uint8) || fresh(writer.uint8)
      decreases v, 0
    {
      hide Sort, StringBytes;
      ghost var before := writer.Pending();
      writer.U8(100);
      var sorted := Sort(v.members);
      SortedIsIn(v.members);
      WritePairs(c, v, sorted);
      writer.U8(101);
      ObjectBytes(before, EncodePairs(c, v, sorted));
    }

    method WritePairs(c: Platform, ghost parent: PackValue, pairs: seq<Pair>)
      requires Valid() && forall i :: 0 <= i < |pairs| ==> pairs[i].value < parent
      modifies writer, writer.uint8
      ensures Valid() && writer.Pending() == old(writer.Pending()) + EncodePairs(c, parent, pairs)
      ensures writer.uint8 == old(writer.uint8) || fresh(writer.uint8)
      decreases parent, 0, 0
    {
      hide StringBytes, Bencode.Encode;
      ghost var head := writer.Pending();
      var i := 0;
      assert pairs[0..] == pairs;
      while i < |pairs|
        invariant 0 <= i <= |pairs| && Valid()
        invariant writer.uint8 == old(writer.uint8) || fresh(writer.uint8)
        invariant writer.Pending() + EncodePairs(c, parent, pairs[i..]) == head + EncodePairs(c, parent, pairs)
      {
        assert pairs[i..][0] == pairs[i] && pairs[i..][1..] == pairs[i + 1..];
        WrittenPair(writer.Pending(), StringBytes(pairs[i].key), Bencode.Encode(c, pairs[i].value), EncodePairs(c, parent, pairs[i + 1..]));
        WriteBin(pairs[i].key);
        WriteAny(c, pairs[i].value);
        i := i + 1;
      }
      assert pairs[i..] == [];
      NoItemsLeft(writer.Pending());
    }
  }

  lemma ObjectBytes(before: seq<Byte>, pairs: seq<Byte>)
    ensures before + [100] + pairs + [101] == before + ([100] + (pairs + [101]))
  {
  }

  lemma WrittenPair(before: seq<Byte>, key: seq<Byte>, value: seq<Byte>, tail: seq<Byte>)
    ensures before + (key + (value + tail)) == before + key + value + tail
  {
  }

  // ---------------------------------------------------------------- decoder

  ghost predicate Agrees<T>(x: nat, result: Result<T, BencodeError>, spec: At<T>) {
    && x == spec.x && result.Ok? == spec.result.Ok?
    && (result.Ok? ==> result.value == spec.result.value)
    && (result.Err? ==> result.error == spec.result.error)
  }

  /** Elements read so far, and what a read of the rest makes of the whole. */
  ghost predicate Continues<T>(whole: At<seq<T>>, got: seq<T>, more: At<seq<T>>) {
    && whole.x == more.x && whole.result.Ok? == more.result.Ok?
    && (more.result.Ok? ==> whole.result.value == got + more.result.value)
    && (more.result.Err? ==> whole.result.error == more.result.error)
  }

  lemma Starts<T>(whole: At<seq<T>>)
    ensures Continues(whole, [], whole)
  {
    if whole.result.Ok? { assert [] + whole.result.value == whole.result.value; }
  }

  lemma GoesOn<T>(whole: At<seq<T>>, got: seq<T>, more: At<seq<T>>, y: T, left: At<seq<T>>)
    requires Continues(whole, got, more) && more == Pushed(y, left)
    ensures Continues(whole, got + [y], left)
  {
    if left.result.Ok? { ConcatAssoc(got, [y], left.result.value); }
  }

  lemma Ends<T>(whole: At<seq<T>>, got: seq<T>, more: At<seq<T>>)
    requires Continues(whole, got, more) && more.result == Ok([])
    ensures whole.x == more.x && whole.result == Ok(got)
  {
    assert got + [] == got;
  }

  /** The cursor. */
  class Cur {
    const data: seq<Byte>
    var pos: nat

    constructor (data: seq<Byte>)
      ensures this.data == data && pos == 0
    {
      this.data := data;
      pos := 0;
    }

    method ReadAny(c: Platform) returns (r: Result<PackValue, BencodeError>)
      modifies this
      ensures Agrees(pos, r, Bencode.ReadAny(c, data, old(pos)))
      decreases Left(data, pos), 1
    {
      hide ReadNumber, ReadString, ReadItems, ReadPairs;
      if pos >= |data| { return Err(UnexpectedEof); }
      var ch := data[pos];
      if ch == 105 {
        r := ReadNum();
      } else if ch == 100 {
        r := ReadObj(c);
      } else if ch == 108 {
        r := ReadArr(c);
      } else if ch == 116 {
        pos := pos + 1;
        r := Ok(Bool(true));
      } else if ch == 102 {
        pos := pos + 1;
        r := Ok(Bool(false));
      } else if ch == 110 {
        pos := pos + 1;
        r := Ok(Null);
      } else if ch == 117 {
        pos := pos + 1;
        r := Ok(Undefined);
      } else if IsDigit(ch) {
        var bin := ReadBin();
        r := if bin.Ok? then Ok(Bytes(bin.value)) else Err(bin.error);
      } else {
        r := Err(InvalidByte(pos));
      }
    }

    method ReadNum() returns (r: Result<PackValue, BencodeError>)
      requires pos < |data| && data[pos] == 105
      modifies this
      ensures Agrees(pos, r, ReadNumber(data, old(pos)))
    {
      pos := pos + 1;
      ghost var whole := NumberText(data, pos, 0);
      var numStr: Text := [];
      var i := 0;
      Starts(whole);
      while true
        invariant old(pos) < pos && 0 <= i <= 25
        invariant Continues(whole, numStr, NumberText(data, pos, i))
        decreases Left(data, pos)
      {
        ghost var more := NumberText(data, pos, i);
        if pos >= |data| { return Err(UnexpectedEof); }
        var ch := data[pos];
        pos := pos + 1;
        if ch == 101 {
          Ends(whole, numStr, more);
          break;
        }
        if i == 25 { return Err(IntegerOverflow); }
        GoesOn(whole, numStr, more, ch, NumberText(data, pos, i + 1));
        numStr := numStr + [ch];
        i := i + 1;
      }
      if numStr == [] { return Err(InvalidByte(pos)); }
      var n := ParseNumber(numStr);
      if n.None? { return Err(IntegerOverflow); }
      r := Narrowest(n.value);
    }

    method ReadBin() returns (r: Result<seq<Byte>, BencodeError>)
      modifies this
      ensures Agrees(pos, r, ReadString(data, old(pos)))
    {
      ghost var whole := LengthText(data, pos, 0);
      var lenStr: Text := [];
      var i := 0;
      Starts(whole);
      while true
        invariant old(pos) <= pos && 0 <= i <= 10 && AllDigits(lenStr)
        invariant Continues(whole, lenStr, LengthText(data, pos, i))
        decreases Left(data, pos)
      {
        ghost var more := LengthText(data, pos, i);
        if pos >= |data| { return Err(UnexpectedEof); }
        var ch := data[pos];
        pos := pos + 1;
        if ch == 58 {
          Ends(whole, lenStr, more);
          break;
        }
        if !IsDigit(ch) { return Err(InvalidByte(pos - 1)); }
        if i == 10 { return Err(IntegerOverflow); }
        GoesOn(whole, lenStr, more, ch, LengthText(data, pos, i + 1));
        lenStr := lenStr + [ch];
        i := i + 1;
      }
      if lenStr == [] { return Err(IntegerOverflow); }
      var len := DigitsValue(lenStr);
      if pos + len > |data| { return Err(UnexpectedEof); }
      r := Ok(data[pos..pos + len]);
      pos := pos + len;
    }

    method ReadArr(c: Platform) returns (r: Result<PackValue, BencodeError>)
      requires pos < |data| && data[pos] == 108
      modifies this
      ensures Agrees(pos, r, Bencode.ReadAny(c, data, old(pos)))
      decreases Left(data, pos), 0
    {
      hide ReadNumber, ReadString, ReadPairs;
      ghost var spec := Bencode.ReadAny(c, data, pos);
      pos := pos + 1;
      ghost var whole := ReadItems(c, data, pos);
      assert spec.x == whole.x && spec.result == match whole.result { case Ok(vs) => Ok(Array(vs)) case Err(e) => Err(e) };
      hide Bencode.ReadAny;
      var arr: seq<PackValue> := [];
      Starts(whole);
      while pos < |data| && data[pos] != 101
        invariant old(pos) < pos && Continues(whole, arr, ReadItems(c, data, pos))
        decreases Left(data, pos)
      {
        ghost var more := ReadItems(c, data, pos);
        var v := ReadAny(c);
        if v.Err? { return Err(v.error); }
        GoesOn(whole, arr, more, v.value, ReadItems(c, data, pos));
        arr := arr + [v.value];
      }
      if pos >= |data| { return Err(UnexpectedEof); }
      Ends(whole, arr, ReadItems(c, data, pos));
      pos := pos + 1;
      r := Ok(Array(arr));
    }

    method ReadObj(c: Platform) returns (r: Result<PackValue, BencodeError>)
      requires pos < |data| && data[pos] == 100
      modifies this
      ensures Agrees(pos, r, Bencode.ReadAny(c, data, old(pos)))
      decreases Left(data, pos), 0
    {
      hide ReadNumber, ReadString, ReadItems;
      ghost var spec := Bencode.ReadAny(c, data, pos);
      pos := pos + 1;
      ghost var whole := ReadPairs(c, data, pos);
      assert spec.x == whole.x && spec.result == match whole.result { case Ok(ps) => Ok(Object(ps)) case Err(e) => Err(e) };
      hide Bencode.ReadAny;
      var obj: seq<Pair> := [];
      Starts(whole);
      while pos < |data| && data[pos] != 101
        invariant old(pos) < pos && Continues(whole, obj, ReadPairs(c, data, pos))
        decreases Left(data, pos)
      {
        ghost var more := ReadPairs(c, data, pos);
        var key := ReadBin();
        if key.Err? { return Err(key.error); }
        if !c.utf8(key.value) { return Err(InvalidUtf8); }
        if key.value == PROTO { return Err(InvalidKey); }
        var v := ReadAny(c);
        if v.Err? { return Err(v.error); }
        GoesOn(whole, obj, more, Pair(key.value, v.value), ReadPairs(c, data, pos));
        obj := obj + [Pair(key.value, v.value)];
      }
      if pos >= |data| { return Err(UnexpectedEof); }
      Ends(whole, obj, ReadPairs(c, data, pos));
      pos := pos + 1;
      r := Ok(Object(obj));
    }
  }

  method Decode(c: Platform, input: seq<Byte>) returns (r: Result<PackValue, BencodeError>)
    ensures r == Bencode.ReadAny(c, input, 0).result
  {
    hide Bencode.ReadAny;
    var cur := new Cur(input);
    r := cur.ReadAny(c);
  }
}
