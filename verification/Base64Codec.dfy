/** The base64 encoders and decoders as they run, over lookup tables and buffers written in place, each shown to do what module Base64 says. */
module Base64Codec {
  import opened Common
  import opened Base64

  // ---------------------------------------------------------------- where an array encoder starts

  /** Reading three bytes at a time from `start` to `base` stays within `n`. */
  predicate Readable(n: nat, start: nat, base: nat)
    decreases if start < base then base - start else 0
  {
    start < base ==> start + 3 <= n && Readable(n, start + 3, base)
  }

  function GroupsFrom(u: seq<Byte>, start: nat, base: nat): seq<Sextet>
    requires Readable(|u|, start, base)
    decreases if start < base then base - start else 0
  {
    if start >= base then [] else Group(u[start], u[start + 1], u[start + 2]) + GroupsFrom(u, start + 3, base)
  }

  /** What the array encoders write: `length` is where the data ends, whatever `start` is. */
  function SymbolsFrom(u: seq<Byte>, start: nat, length: nat): seq<Sextet>
    requires length <= |u| && Readable(|u|, start, length - length % 3)
  {
    GroupsFrom(u, start, length - length % 3) + Symbols(u[length - length % 3..length])
  }

  /** From a start between groups it is the data from there on. */
  lemma {:induction false} AlignedStart(u: seq<Byte>, start: nat, length: nat)
    requires start <= length <= |u| && start % 3 == 0
    ensures Readable(|u|, start, length - length % 3) && SymbolsFrom(u, start, length) == Symbols(u[start..length])
    decreases length - start
  {
    hide Symbols, Group;
    var base := length - length % 3;
    var last := Symbols(u[base..length]);
    if start < base {
      AlignedStart(u, start + 3, length);
      var three := [u[start], u[start + 1], u[start + 2]];
      assert u[start..length] == three + u[start + 3..length];
      SymbolsStep(three, u[start + 3..length]);
      ConcatAssoc(Group(u[start], u[start + 1], u[start + 2]), GroupsFrom(u, start + 3, base), last);
    } else {
      assert [] + last == last;
    }
  }

  lemma {:induction false} GroupsFromLength(u: seq<Byte>, start: nat, base: nat)
    requires Readable(|u|, start, base)
    ensures |GroupsFrom(u, start, base)| == if start < base then (base - start + 2) / 3 * 4 else 0
    decreases if start < base then base - start else 0
  {
    hide Group;
    if start < base { GroupsFromLength(u, start + 3, base); }
  }

  /** The array encoders encode `u[start..length]` exactly for a start between groups; from any other they write too much. */
  lemma StartsExactly(u: seq<Byte>, start: nat, length: nat)
    requires start <= length <= |u| && Readable(|u|, start, length - length % 3)
    ensures SymbolsFrom(u, start, length) == Symbols(u[start..length]) <==> start % 3 == 0
  {
    hide Symbols, Group;
    if start % 3 == 0 {
      AlignedStart(u, start, length);
    } else {
      GroupsFromLength(u, start, length - length % 3);
      assert |SymbolsFrom(u, start, length)| != |Symbols(u[start..length])|;
    }
  }

  /** The third encoder takes a NUL for no pad. */
  function PaddingUint8(pad: seq<Byte>, length: nat): seq<Byte> {
    if pad == [0] then [] else Padding(pad, length)
  }

  lemma EncodersAgree(pad: seq<Byte>, length: nat)
    ensures PaddingUint8(pad, length) == Padding(pad, length) <==> pad != [0] || length % 3 == 0
  {
  }

  // ---------------------------------------------------------------- encoders

  /** The 12 bits at the start of three bytes, and the 12 at their end. */
  function FirstTwelve(o1: nat, o2: nat): nat {
    o1 * 16 + o2 / 16
  }

  function LastTwelve(o2: nat, o3: nat): nat {
    o2 % 16 * 256 + o3
  }

  lemma TwelveBits(o1: Byte, o2: Byte, o3: Byte)
    ensures var v := FirstTwelve(o1, o2); v < 4096 && v / 64 == o1 / 4 && v % 64 == o1 % 4 * 16 + o2 / 16
    ensures var v := LastTwelve(o2, o3); v < 4096 && v / 64 == o2 % 16 * 4 + o3 / 64 && v % 64 == o3 % 64
  {
    var hi, lo := o1 / 4, o1 % 4 * 16 + o2 / 16;
    assert FirstTwelve(o1, o2) == hi * 64 + lo && lo < 64;
    var hi', lo' := o2 % 16 * 4 + o3 / 64, o3 % 64;
    assert LastTwelve(o2, o3) == hi' * 64 + lo' && lo' < 64;
  }

  function Spliced(was: seq<Byte>, offset: nat, out: seq<Byte>): seq<Byte>
    requires offset + |out| <= |was|
  {
    was[..offset] + out + was[offset + |out|..]
  }

  lemma {:induction false} CharsAppend(a: Alphabet, v: seq<Sextet>, w: seq<Sextet>)
    ensures Chars(a, v + w) == Chars(a, v) + Chars(a, w)
  {
    if v == [] {
      assert v + w == w;
    } else {
      assert (v + w)[1..] == v[1..] + w;
      CharsAppend(a, v[1..], w);
    }
  }

  class Base64Encoder {
    const table: Alphabet
    /** Two characters for every 12 bits. */
    const table2: seq<nat>
    const pad: seq<Byte>

    ghost predicate Valid() {
      |table2| == 4096 && forall v :: 0 <= v < 4096 ==> table2[v] == Pair(table[v / 64], table[v % 64])
    }

    static function Pair(hi: nat, lo: nat): nat {
      hi * 256 + lo
    }

    constructor (chars: Alphabet, pad: seq<Byte>)
      ensures Valid() && table == chars && this.pad == pad
    {
      var pairs: seq<nat> := [];
      var i := 0;
      while i < 64
        invariant 0 <= i <= 64 && |pairs| == i * 64
        invariant forall v :: 0 <= v < |pairs| ==> pairs[v] == Pair(chars[v / 64], chars[v % 64])
      {
        var j := 0;
        while j < 64
          invariant 0 <= j <= 64 && |pairs| == i * 64 + j
          invariant forall v :: 0 <= v < |pairs| ==> pairs[v] == Pair(chars[v / 64], chars[v % 64])
        {
          pairs := pairs + [Pair(chars[i], chars[j])];
          j := j + 1;
        }
        i := i + 1;
      }
      table, table2, this.pad := chars, pairs, pad;
    }

    /** An entry of the table as its two characters. */
    function Two(v: nat): (r: seq<Byte>)
      requires Valid() && v < 4096
      ensures r == [table[v / 64], table[v % 64]]
    {
      [table2[v] / 256, table2[v] % 256]
    }

    lemma GroupChars(o1: Byte, o2: Byte, o3: Byte)
      requires Valid()
      ensures FirstTwelve(o1, o2) < 4096 && LastTwelve(o2, o3) < 4096
      ensures Two(FirstTwelve(o1, o2)) + Two(LastTwelve(o2, o3)) == Chars(table, Group(o1, o2, o3))
    {
      TwelveBits(o1, o2, o3);
    }

    /** Three bytes further on. */
    lemma GroupOn(uint8: seq<Byte>, length: nat, i: nat, out: seq<Byte>)
      requires Valid() && i + 3 <= length <= |uint8|
      ensures FirstTwelve(uint8[i], uint8[i + 1]) < 4096 && LastTwelve(uint8[i + 1], uint8[i + 2]) < 4096
      ensures out + (Two(FirstTwelve(uint8[i], uint8[i + 1])) + Two(LastTwelve(uint8[i + 1], uint8[i + 2])))
              + Chars(table, Symbols(uint8[..length][i + 3..])) == out + Chars(table, Symbols(uint8[..length][i..]))
    {
      hide Valid, Symbols, Chars, Group, FirstTwelve, LastTwelve, Two;
      GroupChars(uint8[i], uint8[i + 1], uint8[i + 2]);
      SymbolsOn(table, uint8[..length], i, out);
    }

    /** The one or two bytes at the end, filled up with zeros. */
    method Remainder(uint8: seq<Byte>, baseLength: nat, extraLength: nat) returns (last: seq<Byte>)
      requires Valid() && baseLength + extraLength <= |uint8| && extraLength < 3
      ensures last == Chars(table, Symbols(uint8[baseLength..baseLength + extraLength]))
    {
      hide FirstTwelve, LastTwelve;
      last := [];
      if extraLength == 1 {
        var o1 := uint8[baseLength];
        assert uint8[baseLength..baseLength + 1] == [o1];
        TwelveBits(o1, 0, 0);
        last := Two(FirstTwelve(o1, 0));
      } else if extraLength == 2 {
        var o1, o2 := uint8[baseLength], uint8[baseLength + 1];
        assert uint8[baseLength..baseLength + 2] == [o1, o2];
        TwelveBits(o1, o2, 0);
        last := Two(FirstTwelve(o1, o2)) + [table[o2 % 16 * 4]];
      }
    }

    method ToBase64(uint8: seq<Byte>, length: nat) returns (out: seq<Byte>)
      requires Valid() && length <= |uint8|
      ensures out == Encode(table, pad, uint8[..length])
    {
      hide Valid, Symbols, Chars, Group, FirstTwelve, LastTwelve, Padding, Two;
      var extraLength := length % 3;
      var baseLength := length - extraLength;
      ghost var data := uint8[..length];
      ghost var all := Chars(table, Symbols(data));
      out := [];
      var i := 0;
      assert data[0..] == data && [] + all == all;
      Threes(length);
      while i < baseLength
        invariant 0 <= i <= baseLength && i % 3 == 0
        invariant out + Chars(table, Symbols(data[i..])) == all
      {
        ThreeMore(i, baseLength);
        GroupOn(uint8, length, i, out);
        out := out + (Two(FirstTwelve(uint8[i], uint8[i + 1])) + Two(LastTwelve(uint8[i + 1], uint8[i + 2])));
        i := i + 3;
      }
      var last := Remainder(uint8, baseLength, extraLength);
      var pads := Pads(extraLength);
      out := out + last + pads;
      assert data[i..] == uint8[baseLength..length];
      PaddingOf(pad, length);
    }

    method Pads(extraLength: nat) returns (pads: seq<Byte>)
      requires extraLength < 3
      ensures pads == Padding(pad, extraLength)
    {
      pads := if |pad| != 1 || extraLength == 0 then [] else if extraLength == 1 then pad + pad else pad;
    }

    /** `more` behind `out`, which is already there. */
    static method Put(dest: array<Byte>, at: nat, more: seq<Byte>, ghost was: seq<Byte>, ghost offset: nat, ghost out: seq<Byte>)
      requires at == offset + |out| && at + |more| <= dest.Length == |was|
      requires dest[..] == Spliced(was, offset, out)
      modifies dest
      ensures dest[..] == Spliced(was, offset, out + more)
    {
      ghost var before := dest[..];
      forall i | 0 <= i < |more| { dest[at + i] := more[i]; }
      assert dest[..at] == before[..at] == was[..offset] + out;
      assert dest[at..at + |more|] == more;
      assert dest[at + |more|..] == before[at + |more|..] == was[at + |more|..];
      assert dest[..] == dest[..at] + dest[at..at + |more|] + dest[at + |more|..];
    }

    method ToBase64Bin(uint8: seq<Byte>, start: nat, length: nat, dest: array<Byte>, offset: nat) returns (end: nat)
      requires Valid() && length <= |uint8| && Readable(|uint8|, start, length - length % 3)
      requires offset + |SymbolsFrom(uint8, start, length)| + |Padding(pad, length)| <= dest.Length
      modifies dest
      ensures var out := Chars(table, SymbolsFrom(uint8, start, length)) + Padding(pad, length);
              end == offset + |out| && dest[..] == Spliced(old(dest[..]), offset, out)
    {
      hide Valid, SymbolsFrom, Chars, Spliced;
      ghost var was := dest[..];
      ghost var out := Chars(table, SymbolsFrom(uint8, start, length));
      end := WriteSymbols(uint8, start, length, dest, offset);
      var padding := if |pad| == 1 && length % 3 == 1 then [pad[0], pad[0]] else if |pad| == 1 && length % 3 == 2 then [pad[0]] else [];
      assert padding == Padding(pad, length);
      Put(dest, end, padding, was, offset, out);
      end := end + |padding|;
    }

    method ToBase64BinUint8(uint8: seq<Byte>, start: nat, length: nat, dest: array<Byte>, offset: nat) returns (end: nat)
      requires Valid() && length <= |uint8| && Readable(|uint8|, start, length - length % 3)
      requires offset + |SymbolsFrom(uint8, start, length)| + |PaddingUint8(pad, length)| <= dest.Length
      modifies dest
      ensures var out := Chars(table, SymbolsFrom(uint8, start, length)) + PaddingUint8(pad, length);
              end == offset + |out| && dest[..] == Spliced(old(dest[..]), offset, out)
    {
      hide Valid, SymbolsFrom, Chars, Spliced;
      var padChar := if |pad| == 1 then pad[0] else 0;
      ghost var was := dest[..];
      ghost var out := Chars(table, SymbolsFrom(uint8, start, length));
      end := WriteSymbols(uint8, start, length, dest, offset);
      var padding := if padChar != 0 && length % 3 == 1 then [padChar, padChar] else if padChar != 0 && length % 3 == 2 then [padChar] else [];
      assert padding == PaddingUint8(pad, length);
      Put(dest, end, padding, was, offset, out);
      end := end + |padding|;
    }

    /** What the two array encoders have in common: everything but the padding. */
    method WriteSymbols(uint8: seq<Byte>, start: nat, length: nat, dest: array<Byte>, offset: nat) returns (end: nat)
      requires Valid() && length <= |uint8| && Readable(|uint8|, start, length - length % 3)
      requires offset + |SymbolsFrom(uint8, start, length)| <= dest.Length
      modifies dest
      ensures var out := Chars(table, SymbolsFrom(uint8, start, length));
              end == offset + |out| && dest[..] == Spliced(old(dest[..]), offset, out)
    {
      hide Valid, Symbols, Chars, FirstTwelve, LastTwelve, Spliced;
      var extraLength := length % 3;
      var baseLength := length - extraLength;
      ghost var was := dest[..];
      ghost var out: seq<Byte> := [];
      ghost var groups := GroupsFrom(uint8, start, baseLength);
      CharsAppend(table, groups, Symbols(uint8[baseLength..length]));
      SplicedStart(was, offset);
      assert [] + Chars(table, groups) == Chars(table, groups);
      end := offset;
      var i := start;
      while i < baseLength
        invariant Readable(|uint8|, i, baseLength) && end == offset + |out| <= dest.Length == |was|
        invariant out + Chars(table, GroupsFrom(uint8, i, baseLength)) == Chars(table, groups)
        invariant dest[..] == Spliced(was, offset, out)
        decreases if i < baseLength then baseLength - i else 0
      {
        var o1, o2, o3 := uint8[i], uint8[i + 1], uint8[i + 2];
        GroupChars(o1, o2, o3);
        GroupsOn(table, uint8, i, baseLength, out);
        var four := Two(FirstTwelve(o1, o2)) + Two(LastTwelve(o2, o3));
        Put(dest, end, four, was, offset, out);
        out := out + four;
        end := end + 4;
        i := i + 3;
      }
      NoGroups(table, uint8, i, baseLength, out);
      var last := Remainder(uint8, baseLength, extraLength);
      Put(dest, end, last, was, offset, out);
      end := end + |last|;
    }
  }

  lemma PaddingOf(pad: seq<Byte>, length: nat)
    ensures Padding(pad, length) == Padding(pad, length % 3)
  {
  }

  lemma Threes(length: nat)
    ensures (length - length % 3) % 3 == 0
  {
  }

  lemma ThreeMore(i: nat, base: nat)
    requires i % 3 == 0 && base % 3 == 0 && i < base
    ensures i + 3 <= base && (i + 3) % 3 == 0
  {
  }

  lemma SymbolsOn(a: Alphabet, data: seq<Byte>, i: nat, out: seq<Byte>)
    requires i + 3 <= |data|
    ensures out + Chars(a, Symbols(data[i..])) == out + Chars(a, Group(data[i], data[i + 1], data[i + 2])) + Chars(a, Symbols(data[i + 3..]))
  {
    var rest := data[i..];
    assert rest[3..] == data[i + 3..];
    hide Group;
    CharsAppend(a, Group(data[i], data[i + 1], data[i + 2]), Symbols(data[i + 3..]));
    ConcatAssoc(out, Chars(a, Group(data[i], data[i + 1], data[i + 2])), Chars(a, Symbols(data[i + 3..])));
  }

  lemma GroupsOn(a: Alphabet, u: seq<Byte>, i: nat, base: nat, out: seq<Byte>)
    requires Readable(|u|, i, base) && i < base
    ensures out + Chars(a, GroupsFrom(u, i, base)) == out + Chars(a, Group(u[i], u[i + 1], u[i + 2])) + Chars(a, GroupsFrom(u, i + 3, base))
  {
    CharsAppend(a, Group(u[i], u[i + 1], u[i + 2]), GroupsFrom(u, i + 3, base));
    hide Group, Chars;
    ConcatAssoc(out, Chars(a, Group(u[i], u[i + 1], u[i + 2])), Chars(a, GroupsFrom(u, i + 3, base)));
  }

  lemma NoGroups(a: Alphabet, u: seq<Byte>, i: nat, base: nat, out: seq<Byte>)
    requires Readable(|u|, i, base) && i >= base
    ensures out + Chars(a, GroupsFrom(u, i, base)) == out
  {
    assert out + [] == out;
  }

  lemma SplicedStart(was: seq<Byte>, offset: nat)
    requires offset <= |was|
    ensures Spliced(was, offset, []) == was
  {
  }

  // ---------------------------------------------------------------- decoders

  lemma PastTable(a: seq<Byte>, c: nat)
    requires c > Max(a)
    ensures Position(a, c) == -1
  {
  }

  class Base64Decoder {
    const chars: Alphabet
    /** The value of every character up to the largest of the alphabet, -1 for those not in it. */
    const table: seq<int>

    ghost predicate Valid() {
      |table| == Max(chars) + 1 && forall c :: 0 <= c < |table| ==> table[c] == Position(chars, c)
    }

    constructor (chars: Alphabet)
      ensures Valid() && this.chars == chars
    {
      var max: nat := 0;
      var i := 0;
      while i < 64
        invariant 0 <= i <= 64 && max == Max(chars[..i])
      {
        assert chars[..i + 1][..i] == chars[..i];
        if max < chars[i] { max := chars[i] + 0; }
        i := i + 1;
      }
      assert chars[..64] == chars;
      var t: seq<int> := seq(max + 1, _ => -1);
      i := 0;
      while i < 64
        invariant 0 <= i <= 64 && |t| == max + 1 && forall c :: 0 <= c < |t| ==> t[c] == Position(chars[..i], c)
      {
        assert chars[..i + 1][..i] == chars[..i];
        t := t[chars[i] as int := i];
        i := i + 1;
      }
      assert chars[..64] == chars;
      this.chars, table := chars, t;
    }

    /** Up to four characters through the table. None where one is past its end and nothing guards against that. */
    method Sextets(guarded: bool, s: seq<Byte>) returns (r: Option<seq<int>>)
      requires Valid()
      ensures r.None? <==> !guarded && Beyond(chars, s)
      ensures r.Some? ==> |r.value| == |s| && forall k :: 0 <= k < |s| ==> r.value[k] == Position(chars, s[k])
    {
      var sextets: seq<int> := [];
      var i := 0;
      while i < |s|
        invariant 0 <= i <= |s| && |sextets| == i
        invariant forall k :: 0 <= k < i ==> sextets[k] == Position(chars, s[k])
        invariant !guarded ==> forall k :: 0 <= k < i ==> s[k] as int <= Max(chars)
      {
        if s[i] as int >= |table| {
          if !guarded { return None; }
          PastTable(chars, s[i]);
          sextets := sextets + [-1];
        } else {
          sextets := sextets + [table[s[i] as int]];
        }
        i := i + 1;
      }
      r := Some(sextets);
    }

    /** What two to four characters hold. */
    method Look(guarded: bool, s: seq<Byte>) returns (r: Outcome)
      requires Valid() && 2 <= |s| <= 4
      ensures r == Looked(chars, guarded, s)
    {
      hide Position, Beyond, Values, Valid;
      var found := Sextets(guarded, s);
      if found.None? { return Panicked; }
      var v := found.value;
      if v[0] < 0 || v[1] < 0 || (|s| > 2 && v[2] < 0) || (|s| > 3 && v[3] < 0) {
        SomeUnknown(chars, s, v);
        return Failed(NotBase64(guarded));
      }
      LookedValues(chars, s, v);
      r := Decoded(Ungroup(v[0], v[1], if |s| > 2 then v[2] else 0, if |s| > 3 then v[3] else 0)[..|s| - 1]);
      OctetsShort(v);
    }

    /**
     The loop over full quartets into a buffer with room for all of them but perhaps the last, where it
     panics unless it failed before.
     */
    method ReadQuartets(guarded: bool, s: seq<Byte>, buf: array<Byte>) returns (r: Outcome)
      requires Valid() && |s| % 4 == 0 && |s| / 4 * 3 <= buf.Length + 3
      modifies buf
      ensures var q := Quartets(chars, guarded, s);
              r == if |s| / 4 * 3 > buf.Length && q.Decoded? then Panicked else q
      ensures r.Decoded? ==> |s| / 4 * 3 <= buf.Length && buf[..|s| / 4 * 3] == r.bytes
    {
      hide Looked, Quartets, Joined, Valid;
      var i, j := 0, 0;
      ghost var whole := Quartets(chars, guarded, s);
      assert s[0..] == s && buf[..0] == [];
      JoinedStart(whole);
      while i < |s|
        invariant 0 <= i <= |s| && i % 4 == 0 && j == i / 4 * 3 <= buf.Length
        invariant Joined(Decoded(buf[..j]), Quartets(chars, guarded, s[i..])) == whole
      {
        QuartetStep(chars, guarded, s, i);
        var four := Look(guarded, s[i..i + 4]);
        ghost var before := buf[..j];
        if !four.Decoded? {
          JoinedFails(before, four, Quartets(chars, guarded, s[i + 4..]));
          return four;
        }
        if j + 3 > buf.Length {
          LastQuartet(chars, guarded, s, i);
          JoinedLast(before, four.bytes);
          return Panicked;
        }
        JoinedOn(before, four.bytes, Quartets(chars, guarded, s[i + 4..]));
        buf[j], buf[j + 1], buf[j + 2] := four.bytes[0], four.bytes[1], four.bytes[2];
        assert buf[..j + 3] == before + four.bytes by { ThreeMoreBytes(buf[..], before, four.bytes); }
        j := j + 3;
        i := i + 4;
      }
      LastQuartet(chars, guarded, s, i);
      JoinedNothing(buf[..j]);
      r := Decoded(buf[..j]);
    }

    /** The two or three characters left over, into the buffer's last bytes. */
    method ReadRest(guarded: bool, t: seq<Byte>, done: seq<Byte>, buf: array<Byte>) returns (r: Outcome)
      requires Valid() && 2 <= |t| <= 3 && buf.Length == |done| + |t| - 1 && buf[..|done|] == done
      modifies buf
      ensures r == Joined(Decoded(done), Looked(chars, guarded, t))
    {
      hide Looked;
      var last := Look(guarded, t);
      if !last.Decoded? { return last; }
      LookedLength(chars, guarded, t);
      var j := |done|;
      buf[j] := last.bytes[0];
      if |t| == 3 { buf[j + 1] := last.bytes[1]; }
      assert buf[..] == done + last.bytes;
      r := Decoded(buf[..]);
    }

    /** Full quartets up to `main`, and the two or three characters after them. */
    method ReadParts(guarded: bool, s: seq<Byte>, main: nat, padding: nat) returns (r: Outcome)
      requires Valid() && main % 4 == 0 && 1 <= padding <= 2 && main + 4 - padding <= |s|
      ensures r == Parts(chars, guarded, s, main, padding)
    {
      hide Quartets, Looked, Valid;
      var buf := new Byte[main / 4 * 3 + 3 - padding](_ => 0);
      r := ReadQuartets(guarded, s[..main], buf);
      if r.Decoded? { r := ReadRest(guarded, s[main..main + 4 - padding], r.bytes, buf); }
    }

    method FromBase64(noPadding: bool, encoded: seq<Byte>) returns (r: Outcome)
      requires Valid()
      ensures r == Base64.FromBase64(chars, noPadding, encoded)
    {
      hide Quartets, Parts, Valid;
      if encoded == [] { return Decoded([]); }
      var length := |encoded|;
      var paddingSuffix := if noPadding && length % 4 == 2 then 2 else if noPadding && length % 4 == 3 then 1 else 0;
      var effectiveLength := length + paddingSuffix;
      if effectiveLength % 4 != 0 { return Failed(InvalidLength); }
      var mainLength :=
        if paddingSuffix > 0 then length - (4 - paddingSuffix) else if encoded[length - 1] == EQUALS then length - 4 else length;
      var padding :=
        if paddingSuffix > 0 then paddingSuffix else if encoded[length - 2] == EQUALS then 2 else if encoded[length - 1] == EQUALS then 1 else 0;
      if mainLength < length {
        r := ReadParts(false, encoded, mainLength, padding);
      } else {
        var buf := new Byte[length / 4 * 3 - padding](_ => 0);
        r := ReadQuartets(false, encoded, buf);
      }
    }

    method FromBase64Bin(pad: seq<Byte>, view: seq<Byte>, offset: nat, length: nat) returns (r: Outcome)
      requires Valid() && offset + length <= |view|
      ensures r == Base64.FromBase64Bin(chars, pad, view[offset..offset + length], view[offset + length..])
    {
      hide Quartets, Looked, Parts, Pads, Valid;
      if length == 0 { return Decoded([]); }
      var s := view[offset..offset + length];
      var padding := CountPadding(pad, view, offset, length);
      var full := if length % 4 != 0 then length + padding else length;
      if padding == 0 {
        var buf := new Byte[full / 4 * 3](_ => 0);
        r := ReadQuartets(true, s, buf);
      } else if padding < 3 {
        r := ReadParts(true, s, full - 4, padding);
      } else {
        var buf := new Byte[full / 4 * 3 - padding](_ => 0);
        r := ReadQuartets(true, s[..length - 1], buf);
        if r.Decoded? {
          assert s[length - 1] == view[offset + length - 1];
          r := ReadPast(view, offset + length - 1);
        }
      }
    }

    /** How many characters are missing, or else how many pads there are if they are expected. */
    method CountPadding(pad: seq<Byte>, view: seq<Byte>, offset: nat, length: nat) returns (padding: nat)
      requires 0 < length && offset + length <= |view|
      ensures padding == if length % 4 != 0 then 4 - length % 4 else Pads(pad, view[offset..offset + length])
    {
      if length % 4 != 0 { return 4 - length % 4; }
      padding := 0;
      if |pad| == 1 {
        var last := offset + length - 1;
        assert view[last] == view[offset..offset + length][length - 1] && view[last - 1] == view[offset..offset + length][length - 2];
        if view[last] == pad[0] {
          padding := if view[last - 1] == pad[0] then 2 else 1;
        }
      }
    }

    /** One character left over: the next is looked at, whatever it is, and there is no room for the result. */
    method ReadPast(view: seq<Byte>, mainEnd: nat) returns (r: Outcome)
      requires Valid() && mainEnd < |view|
      ensures r == if mainEnd + 1 == |view| || Looked(chars, true, [view[mainEnd], view[mainEnd + 1]]).Decoded? then Panicked
                   else Failed(InvalidBase64Sequence)
    {
      if mainEnd + 1 >= |view| { return Panicked; }
      var two := Look(true, [view[mainEnd], view[mainEnd + 1]]);
      TwoOnly(chars, [view[mainEnd], view[mainEnd + 1]]);
      r := if two.Decoded? then Panicked else two;
    }
  }

  lemma TwoOnly(a: Alphabet, s: seq<Byte>)
    ensures Looked(a, true, s).Decoded? || Looked(a, true, s) == Failed(InvalidBase64Sequence)
  {
  }

  lemma LookedLength(a: Alphabet, guarded: bool, s: seq<Byte>)
    ensures Looked(a, guarded, s).Decoded? && 2 <= |s| <= 4 ==> |Looked(a, guarded, s).bytes| == |s| - 1
  {
  }

  lemma LookedValues(a: Alphabet, s: seq<Byte>, sextets: seq<int>)
    requires |sextets| == |s| && forall k :: 0 <= k < |s| ==> sextets[k] == Position(a, s[k]) && sextets[k] >= 0
    ensures Values(a, s) == Some(sextets)
  {
    hide Position;
    if s == [] {
      assert sextets == [];
    } else {
      LookedValues(a, s[1..], sextets[1..]);
      assert sextets == [sextets[0]] + sextets[1..];
    }
  }

  lemma SomeUnknown(a: Alphabet, s: seq<Byte>, sextets: seq<int>)
    requires |sextets| == |s| && (forall k :: 0 <= k < |s| ==> sextets[k] == Position(a, s[k])) && exists k :: 0 <= k < |s| && sextets[k] < 0
    ensures Values(a, s) == None
  {
    ValuesExist(a, s);
  }

  lemma OctetsShort(v: seq<Sextet>)
    requires 2 <= |v| <= 4
    ensures Octets(v) == Ungroup(v[0], v[1], if |v| > 2 then v[2] else 0, if |v| > 3 then v[3] else 0)[..|v| - 1]
  {
  }

  lemma JoinedStart(whole: Outcome)
    ensures Joined(Decoded([]), whole) == whole
  {
    if whole.Decoded? { assert [] + whole.bytes == whole.bytes; }
  }

  lemma JoinedOn(before: seq<Byte>, four: seq<Byte>, more: Outcome)
    ensures Joined(Decoded(before), Joined(Decoded(four), more)) == Joined(Decoded(before + four), more)
  {
    if more.Decoded? { ConcatAssoc(before, four, more.bytes); }
  }

  lemma ThreeMoreBytes(b: seq<Byte>, before: seq<Byte>, three: seq<Byte>)
    requires |three| == 3 && |before| + 3 <= |b| && b[..|before|] == before
    requires b[|before|] == three[0] && b[|before| + 1] == three[1] && b[|before| + 2] == three[2]
    ensures b[..|before| + 3] == before + three
  {
  }

  lemma JoinedFails(before: seq<Byte>, four: Outcome, more: Outcome)
    requires !four.Decoded?
    ensures Joined(Decoded(before), Joined(four, more)) == four
  {
  }

  lemma JoinedLast(before: seq<Byte>, four: seq<Byte>)
    ensures Joined(Decoded(before), Joined(Decoded(four), Decoded([]))).Decoded?
  {
  }

  lemma JoinedNothing(before: seq<Byte>)
    ensures Joined(Decoded(before), Decoded([])) == Decoded(before)
  {
    assert before + [] == before;
  }

  lemma QuartetStep(a: Alphabet, guarded: bool, s: seq<Byte>, i: nat)
    requires |s| % 4 == 0 && i % 4 == 0 && i < |s|
    ensures Quartets(a, guarded, s[i..]) == Joined(Looked(a, guarded, s[i..i + 4]), Quartets(a, guarded, s[i + 4..]))
    ensures Looked(a, guarded, s[i..i + 4]).Decoded? ==> |Looked(a, guarded, s[i..i + 4]).bytes| == 3
  {
    assert s[i..][..4] == s[i..i + 4] && s[i..][4..] == s[i + 4..];
    LookedLength(a, guarded, s[i..i + 4]);
  }

  lemma LastQuartet(a: Alphabet, guarded: bool, s: seq<Byte>, i: nat)
    requires |s| % 4 == 0 && i <= |s|
    ensures i == |s| ==> Quartets(a, guarded, s[i..]) == Decoded([])
    ensures i + 4 == |s| ==> Quartets(a, guarded, s[i + 4..]) == Decoded([])
  {
  }
}
