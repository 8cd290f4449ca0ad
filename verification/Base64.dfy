/**
 Base64 as crates/base64/src encodes and decodes it, for any alphabet: what the encoders emit, what
 the decoders take, and that the one undoes the other.
 */
module Base64 {
  import opened Common

  /** 64 ASCII characters. */
  type Alphabet = a: seq<Byte> | |a| == 64 && forall i :: 0 <= i < |a| ==> a[i] < 128 witness seq(64, _ => 0)

  type Sextet = n: int | 0 <= n < 64

  const EQUALS: Byte := 61

  datatype Base64Error = InvalidLength | InvalidBase64String | InvalidBase64Sequence

  /** What a decoder does, panicking included. */
  datatype Outcome = Decoded(bytes: seq<Byte>) | Failed(error: Base64Error) | Panicked

  // ---------------------------------------------------------------- encoding

  /** The values of the characters for `data`. */
  function Symbols(data: seq<Byte>): (r: seq<Sextet>)
    ensures |r| == |data| / 3 * 4 + (if |data| % 3 == 0 then 0 else |data| % 3 + 1)
  {
    if data == [] then []
    else if |data| == 1 then [data[0] / 4, data[0] % 4 * 16]
    else if |data| == 2 then [data[0] / 4, data[0] % 4 * 16 + data[1] / 16, data[1] % 16 * 4]
    else Group(data[0], data[1], data[2]) + Symbols(data[3..])
  }

  function Group(o1: Byte, o2: Byte, o3: Byte): (r: seq<Sextet>)
    ensures |r| == 4
  {
    [o1 / 4, o1 % 4 * 16 + o2 / 16, o2 % 16 * 4 + o3 / 64, o3 % 64]
  }

  function Chars(a: Alphabet, values: seq<Sextet>): (r: seq<Byte>)
    ensures |r| == |values| && forall i :: 0 <= i < |r| ==> r[i] == a[values[i]]
  {
    if values == [] then [] else [a[values[0]]] + Chars(a, values[1..])
  }

  /** A pad that is not a single character stands for none. */
  function Padding(pad: seq<Byte>, length: nat): seq<Byte> {
    if |pad| != 1 || length % 3 == 0 then [] else if length % 3 == 1 then pad + pad else pad
  }

  function Encode(a: Alphabet, pad: seq<Byte>, data: seq<Byte>): seq<Byte> {
    Chars(a, Symbols(data)) + Padding(pad, |data|)
  }

  // ---------------------------------------------------------------- bits

  /** The low `width` bits, most significant first. */
  function Bits(n: nat, width: nat): seq<bool> {
    if width == 0 then [] else Bits(n / 2, width - 1) + [n % 2 == 1]
  }

  function OctetBits(data: seq<Byte>): seq<bool> {
    if data == [] then [] else Bits(data[0], 8) + OctetBits(data[1..])
  }

  function SextetBits(values: seq<Sextet>): seq<bool> {
    if values == [] then [] else Bits(values[0], 6) + SextetBits(values[1..])
  }

  lemma SplitTwo(n: nat, width: nat)
    ensures Bits(n, width + 2) == Bits(n / 4, width) + Bits(n % 4, 2)
  {
    assert Bits(n % 4, 2) == [n % 4 / 2 % 2 == 1, n % 4 % 2 == 1];
    assert Bits(n, width + 2) == Bits(n / 2, width + 1) + [n % 2 == 1];
    assert n / 2 / 2 == n / 4 && n % 4 / 2 % 2 == n / 2 % 2 && n % 4 % 2 == n % 2;
  }

  lemma SplitFour(n: nat, width: nat)
    ensures Bits(n, width + 4) == Bits(n / 16, width) + Bits(n % 16, 4)
  {
    hide Bits;
    SplitTwo(n, width + 2);
    SplitTwo(n / 4, width);
    SplitTwo(n % 16, 2);
    assert n / 4 / 4 == n / 16 && n % 16 / 4 == n / 4 % 4 && n % 16 % 4 == n % 4;
    ConcatAssoc(Bits(n / 16, width), Bits(n / 4 % 4, 2), Bits(n % 4, 2));
  }

  lemma SplitSix(n: nat)
    ensures Bits(n, 8) == Bits(n / 64, 2) + Bits(n % 64, 6)
  {
    hide Bits;
    SplitTwo(n, 6);
    SplitFour(n / 4, 2);
    SplitTwo(n % 64, 4);
    assert n / 4 / 16 == n / 64 && n % 64 / 4 == n / 4 % 16 && n % 64 % 4 == n % 4;
    ConcatAssoc(Bits(n / 64, 2), Bits(n / 4 % 16, 4), Bits(n % 4, 2));
  }

  lemma JoinTwo(hi: nat, lo: nat, width: nat)
    requires lo < 4
    ensures Bits(hi * 4 + lo, width + 2) == Bits(hi, width) + Bits(lo, 2)
  {
    hide Bits;
    SplitTwo(hi * 4 + lo, width);
    assert (hi * 4 + lo) / 4 == hi && (hi * 4 + lo) % 4 == lo;
  }

  lemma JoinFour(hi: nat, lo: nat, width: nat)
    requires lo < 16
    ensures Bits(hi * 16 + lo, width + 4) == Bits(hi, width) + Bits(lo, 4)
  {
    hide Bits;
    SplitFour(hi * 16 + lo, width);
    assert (hi * 16 + lo) / 16 == hi && (hi * 16 + lo) % 16 == lo;
  }

  lemma JoinSix(hi: nat, lo: nat)
    requires lo < 64
    ensures Bits(hi * 64 + lo, 8) == Bits(hi, 2) + Bits(lo, 6)
  {
    hide Bits;
    SplitSix(hi * 64 + lo);
    assert (hi * 64 + lo) / 64 == hi && (hi * 64 + lo) % 64 == lo;
  }

  /** Three bytes cut after 6, 2 and 4, 4 and 2, and 6 bits. */
  lemma SameBits(a: nat, b: nat, c: nat, d: nat, e: nat, f: nat)
    requires b < 4 && c < 16 && d < 16 && e < 4 && f < 64
    ensures Bits(a, 6) + Bits(b * 16 + c, 6) + Bits(d * 4 + e, 6) + Bits(f, 6)
         == Bits(a * 4 + b, 8) + Bits(c * 16 + d, 8) + Bits(e * 64 + f, 8)
  {
    hide Bits;
    JoinTwo(a, b, 6);
    JoinFour(c, d, 4);
    JoinSix(e, f);
    JoinFour(b, c, 2);
    JoinTwo(d, e, 4);
    Reassociated(Bits(a, 6), Bits(b, 2), Bits(c, 4), Bits(d, 4), Bits(e, 2), Bits(f, 6));
  }

  lemma GroupBits(o1: Byte, o2: Byte, o3: Byte)
    ensures SextetBits(Group(o1, o2, o3)) == OctetBits([o1, o2, o3])
  {
    hide Bits, SextetBits, OctetBits;
    var a, b, c, d, e, f := o1 / 4, o1 % 4, o2 / 16, o2 % 16, o3 / 64, o3 % 64;
    Four(a, b * 16 + c, d * 4 + e, f);
    Three(o1, o2, o3);
    SameBits(a, b, c, d, e, f);
  }

  lemma Reassociated(a: seq<bool>, b: seq<bool>, c: seq<bool>, d: seq<bool>, e: seq<bool>, f: seq<bool>)
    ensures a + (b + c) + (d + e) + f == (a + b) + (c + d) + (e + f)
  {
  }

  lemma Four(a: Sextet, b: Sextet, c: Sextet, d: Sextet)
    ensures SextetBits([a, b, c, d]) == Bits(a, 6) + Bits(b, 6) + Bits(c, 6) + Bits(d, 6)
  {
    assert SextetBits([]) == [];
    hide Bits, SextetBits;
    FirstSextet(a, [b, c, d]);
    FirstSextet(b, [c, d]);
    FirstSextet(c, [d]);
    FirstSextet(d, []);
    assert [a] + [b, c, d] == [a, b, c, d] && [b] + [c, d] == [b, c, d] && [c] + [d] == [c, d] && [d] + [] == [d];
    FourInARow(Bits(a, 6), Bits(b, 6), Bits(c, 6), Bits(d, 6));
  }

  lemma FourInARow(a: seq<bool>, b: seq<bool>, c: seq<bool>, d: seq<bool>)
    ensures a + (b + (c + (d + []))) == a + b + c + d
  {
  }

  lemma FirstSextet(x: Sextet, more: seq<Sextet>)
    ensures SextetBits([x] + more) == Bits(x, 6) + SextetBits(more)
  {
    assert ([x] + more)[1..] == more;
  }

  lemma FirstOctet(x: Byte, more: seq<Byte>)
    ensures OctetBits([x] + more) == Bits(x, 8) + OctetBits(more)
  {
    assert ([x] + more)[1..] == more;
  }

  lemma Three(a: Byte, b: Byte, c: Byte)
    ensures OctetBits([a, b, c]) == Bits(a, 8) + Bits(b, 8) + Bits(c, 8)
  {
    FirstOctet(a, [b, c]);
    FirstOctet(b, [c]);
    FirstOctet(c, []);
    assert OctetBits([]) == [];
    hide Bits, OctetBits;
    assert [a] + [b, c] == [a, b, c] && [b] + [c] == [b, c] && [c] + [] == [c];
  }

  lemma {:induction false} OctetBitsAppend(a: seq<Byte>, b: seq<Byte>)
    ensures OctetBits(a + b) == OctetBits(a) + OctetBits(b)
  {
    if a == [] {
      assert a + b == b;
    } else {
      assert (a + b)[1..] == a[1..] + b;
      OctetBitsAppend(a[1..], b);
    }
  }

  lemma {:induction false} SextetBitsAppend(a: seq<Sextet>, b: seq<Sextet>)
    ensures SextetBits(a + b) == SextetBits(a) + SextetBits(b)
  {
    if a == [] {
      assert a + b == b;
    } else {
      assert (a + b)[1..] == a[1..] + b;
      SextetBitsAppend(a[1..], b);
    }
  }

  function Zeros(k: nat): seq<bool> {
    seq(k, _ => false)
  }

  /** Section 4 of RFC 4648: the bits of the data in groups of six, filled up with zeros. */
  lemma {:induction false} SymbolsAreTheBits(data: seq<Byte>)
    ensures SextetBits(Symbols(data)) == OctetBits(data) + Zeros(if |data| % 3 == 0 then 0 else 6 - |data| % 3 * 2)
  {
    if |data| == 1 {
      LastOne(data[0]);
      assert data == [data[0]];
    } else if |data| == 2 {
      LastTwo(data[0], data[1]);
      assert data == [data[0], data[1]];
    } else if |data| >= 3 {
      var three := [data[0], data[1], data[2]];
      SymbolsAreTheBits(data[3..]);
      GroupBits(data[0], data[1], data[2]);
      assert data == three + data[3..];
      hide SextetBits, OctetBits;
      SextetBitsAppend(Group(data[0], data[1], data[2]), Symbols(data[3..]));
      OctetBitsAppend(three, data[3..]);
    }
  }

  lemma LastOne(o: Byte)
    ensures SextetBits([o / 4, o % 4 * 16]) == OctetBits([o]) + Zeros(4)
  {
    GroupBits(o, 0, 0);
    var g := Group(o, 0, 0);
    assert g == [o / 4, o % 4 * 16] + [0, 0];
    SextetBitsAppend([o / 4, o % 4 * 16], [0, 0]);
    OctetBitsAppend([o], [0, 0]);
    assert [o, 0, 0] == [o] + [0, 0];
    ZeroBits();
    hide SextetBits, OctetBits;
    Truncate(SextetBits([o / 4, o % 4 * 16]), Zeros(12), OctetBits([o]) + Zeros(4), OctetBits([o]), Zeros(16));
  }

  lemma LastTwo(o: Byte, p: Byte)
    ensures SextetBits([o / 4, o % 4 * 16 + p / 16, p % 16 * 4]) == OctetBits([o, p]) + Zeros(2)
  {
    GroupBits(o, p, 0);
    var v := [o / 4, o % 4 * 16 + p / 16, p % 16 * 4];
    assert Group(o, p, 0) == v + [0];
    SextetBitsAppend(v, [0]);
    OctetBitsAppend([o, p], [0]);
    assert [o, p, 0] == [o, p] + [0];
    ZeroBits();
    hide SextetBits, OctetBits;
    Truncate(SextetBits(v), Zeros(6), OctetBits([o, p]) + Zeros(2), OctetBits([o, p]), Zeros(8));
  }

  lemma ZeroBits()
    ensures SextetBits([0]) == Zeros(6) && SextetBits([0, 0]) == Zeros(12)
    ensures OctetBits([0]) == Zeros(8) && OctetBits([0, 0]) == Zeros(16)
  {
    assert [0 as Sextet, 0][1..] == [0] && [0 as Byte, 0][1..] == [0];
    assert Bits(0, 3) == Zeros(3);
    assert Bits(0, 6) == Bits(0, 5) + [false] == Zeros(6);
    assert Bits(0, 8) == Bits(0, 7) + [false] == Zeros(8);
    assert Zeros(12) == Zeros(6) + Zeros(6) && Zeros(16) == Zeros(8) + Zeros(8);
  }

  lemma Truncate(a: seq<bool>, fill: seq<bool>, b: seq<bool>, c: seq<bool>, zeros: seq<bool>)
    requires a + fill == c + zeros && |a| == |b| && c <= b
    requires (forall i :: 0 <= i < |zeros| ==> !zeros[i]) && forall i :: |c| <= i < |b| ==> !b[i]
    ensures a == b
  {
    forall i | 0 <= i < |a| ensures a[i] == b[i] {
      assert a[i] == (c + zeros)[i];
    }
  }

  // ---------------------------------------------------------------- values back to bytes

  /** Full groups of four; of two or three left over, the bytes they hold. */
  function Octets(v: seq<Sextet>): (r: seq<Byte>)
    ensures |r| == |v| / 4 * 3 + (if |v| % 4 >= 2 then |v| % 4 - 1 else 0)
  {
    if |v| < 2 then []
    else if |v| == 2 then Ungroup(v[0], v[1], 0, 0)[..1]
    else if |v| == 3 then Ungroup(v[0], v[1], v[2], 0)[..2]
    else Ungroup(v[0], v[1], v[2], v[3]) + Octets(v[4..])
  }

  function Ungroup(a: nat, b: nat, c: nat, d: nat): (r: seq<Byte>)
    requires a < 64 && b < 64 && c < 64 && d < 64
    ensures |r| == 3
  {
    [a * 4 + b / 16, b % 16 * 16 + c / 4, c % 4 * 64 + d]
  }

  lemma GroupUngrouped(a: Sextet, b: Sextet, c: Sextet, d: Sextet)
    ensures var u := Ungroup(a, b, c, d); Group(u[0], u[1], u[2]) == [a, b, c, d]
  {
    DivMods(a, b / 16);
    DivMods(b % 16, c / 4);
    DivMods(c % 4, d);
  }

  lemma DivMods(q: nat, r: nat)
    ensures r < 4 ==> (q * 4 + r) / 4 == q && (q * 4 + r) % 4 == r
    ensures r < 16 ==> (q * 16 + r) / 16 == q && (q * 16 + r) % 16 == r
    ensures r < 64 ==> (q * 64 + r) / 64 == q && (q * 64 + r) % 64 == r
  {
  }

  lemma UngroupGrouped(o1: Byte, o2: Byte, o3: Byte)
    ensures var g := Group(o1, o2, o3); Ungroup(g[0], g[1], g[2], g[3]) == [o1, o2, o3]
  {
  }

  lemma {:induction false} OctetsBack(data: seq<Byte>)
    ensures Octets(Symbols(data)) == data
  {
    if |data| >= 3 {
      var g := Group(data[0], data[1], data[2]);
      OctetsBack(data[3..]);
      assert (g + Symbols(data[3..]))[4..] == Symbols(data[3..]);
      UngroupGrouped(data[0], data[1], data[2]);
      assert data == [data[0], data[1], data[2]] + data[3..];
    }
  }

  /** The bits the last of two or three values has too many. */
  function Spare(v: seq<Sextet>): nat {
    if |v| % 4 == 2 then v[|v| - 1] % 16 else if |v| % 4 == 3 then v[|v| - 1] % 4 else 0
  }

  function Cleared(v: seq<Sextet>): seq<Sextet> {
    if |v| % 4 == 2 || |v| % 4 == 3 then v[..|v| - 1] + [v[|v| - 1] - Spare(v)] else v
  }

  lemma {:induction false} SymbolsBack(v: seq<Sextet>)
    requires |v| % 4 != 1
    ensures Symbols(Octets(v)) == Cleared(v)
  {
    if |v| >= 4 {
      SymbolsBack(v[4..]);
      var u, rest := Ungroup(v[0], v[1], v[2], v[3]), Octets(v[4..]);
      GroupUngrouped(v[0], v[1], v[2], v[3]);
      SymbolsStep(u, rest);
      ClearedStep(v);
    } else if |v| == 2 {
      TwoBack(v[0], v[1]);
    } else if |v| == 3 {
      ThreeBack(v[0], v[1], v[2]);
    }
  }

  lemma SymbolsStep(u: seq<Byte>, rest: seq<Byte>)
    requires |u| == 3
    ensures Symbols(u + rest) == Group(u[0], u[1], u[2]) + Symbols(rest)
  {
    assert (u + rest)[3..] == rest;
  }

  lemma ClearedStep(v: seq<Sextet>)
    requires |v| >= 4 && |v| % 4 != 1
    ensures Cleared(v) == [v[0], v[1], v[2], v[3]] + Cleared(v[4..])
  {
  }

  lemma TwoBack(a: Sextet, b: Sextet)
    ensures Symbols(Octets([a, b])) == [a, b - b % 16] && Cleared([a, b]) == [a, b - b % 16]
  {
    hide Ungroup;
    GroupUngrouped(a, b, 0, 0);
    OneOf(a, b);
  }

  lemma OneOf(a: Sextet, b: Sextet)
    ensures var o := Ungroup(a, b, 0, 0)[0]; o / 4 == a && o % 4 * 16 == b - b % 16
  {
  }

  lemma TwoOf(a: Sextet, b: Sextet, c: Sextet)
    ensures var u := Ungroup(a, b, c, 0); u[0] / 4 == a && u[0] % 4 * 16 + u[1] / 16 == b && u[1] % 16 * 4 == c - c % 4
  {
  }

  lemma ThreeBack(a: Sextet, b: Sextet, c: Sextet)
    ensures Symbols(Octets([a, b, c])) == [a, b, c - c % 4] && Cleared([a, b, c]) == [a, b, c - c % 4]
  {
    hide Ungroup;
    TwoOf(a, b, c);
  }

  // ---------------------------------------------------------------- the decoder's table

  function Max(a: seq<Byte>): (r: nat)
    ensures forall i :: 0 <= i < |a| ==> a[i] <= r
    ensures a != [] ==> r < 256
  {
    if a == [] then 0
    else
      var m := Max(a[..|a| - 1]);
      if m < a[|a| - 1] then a[|a| - 1] + 0 else m
  }

  /** Where `c` is, the last place if there are several; -1 for nowhere. */
  function Position(a: seq<Byte>, c: nat): (r: int)
    ensures -1 <= r < |a| && (r >= 0 ==> a[r] == c) && (r < 0 ==> c !in a)
  {
    if a == [] then -1 else if a[|a| - 1] == c then |a| - 1 else Position(a[..|a| - 1], c)
  }

  lemma PositionOf(a: Alphabet, i: nat)
    requires Distinct(a) && i < 64
    ensures Position(a, a[i]) == i
  {
    assert a[i] in a;
  }

  function Value(a: Alphabet, c: Byte): (r: Option<Sextet>)
    ensures r.Some? <==> c in a
    ensures r.Some? ==> a[r.value] == c
  {
    if Position(a, c) < 0 then None else Some(Position(a, c))
  }

  function Values(a: Alphabet, s: seq<Byte>): (r: Option<seq<Sextet>>)
    ensures r.Some? ==> |r.value| == |s|
  {
    if s == [] then Some([]) else
    match Value(a, s[0])
    case None => None
    case Some(v) => (match Values(a, s[1..]) case None => None case Some(more) => Some([v] + more))
  }

  lemma {:induction false} ValuesExist(a: Alphabet, s: seq<Byte>)
    ensures Values(a, s).Some? <==> forall i :: 0 <= i < |s| ==> s[i] in a
  {
    if s != [] {
      ValuesExist(a, s[1..]);
      assert forall i :: 1 <= i < |s| ==> s[i] == s[1..][i - 1];
      if forall i :: 0 <= i < |s| ==> s[i] in a { assert forall i :: 0 <= i < |s[1..]| ==> s[1..][i] == s[i + 1]; }
    }
  }

  lemma {:induction false} ValuesOfChars(a: Alphabet, v: seq<Sextet>)
    requires Distinct(a)
    ensures Values(a, Chars(a, v)) == Some(v)
  {
    if v != [] {
      ValuesOfChars(a, v[1..]);
      PositionOf(a, v[0]);
      assert Value(a, a[v[0]]) == Some(v[0]);
      assert Chars(a, v)[1..] == Chars(a, v[1..]);
      assert [v[0]] + v[1..] == v;
    }
  }

  lemma {:induction false} CharsOfValues(a: Alphabet, s: seq<Byte>)
    requires Values(a, s).Some?
    ensures Chars(a, Values(a, s).value) == s
  {
    if s != [] {
      CharsOfValues(a, s[1..]);
      assert Values(a, s).value[1..] == Values(a, s[1..]).value;
    }
  }

  // ---------------------------------------------------------------- decoding

  predicate Beyond(a: Alphabet, s: seq<Byte>) {
    exists i :: 0 <= i < |s| && s[i] as int > Max(a)
  }

  lemma BeyondUnknown(a: Alphabet, s: seq<Byte>)
    ensures Beyond(a, s) ==> Values(a, s).None?
  {
    ValuesExist(a, s);
  }

  /** The guarded decoder is the one of slices, with an error of its own. */
  function NotBase64(guarded: bool): Base64Error {
    if guarded then InvalidBase64Sequence else InvalidBase64String
  }

  /** How a decoder looks characters up: `guarded` against those past its table, or panicking at them. */
  function Looked(a: Alphabet, guarded: bool, s: seq<Byte>): (r: Outcome)
    ensures r.Decoded? <==> Values(a, s).Some?
    ensures r.Decoded? ==> r.bytes == Octets(Values(a, s).value)
  {
    BeyondUnknown(a, s);
    if !guarded && Beyond(a, s) then Panicked
    else match Values(a, s)
      case None => Failed(NotBase64(guarded))
      case Some(v) => Decoded(Octets(v))
  }

  function Joined(first: Outcome, more: Outcome): Outcome {
    if !first.Decoded? then first
    else if !more.Decoded? then more
    else Decoded(first.bytes + more.bytes)
  }

  /** The full quartets. */
  function Quartets(a: Alphabet, guarded: bool, s: seq<Byte>): Outcome
    requires |s| % 4 == 0
  {
    if s == [] then Decoded([]) else Joined(Looked(a, guarded, s[..4]), Quartets(a, guarded, s[4..]))
  }

  /** How many characters are missing that `=` would stand for. */
  function Virtual(noPadding: bool, length: nat): nat {
    if noPadding && length % 4 >= 2 then 4 - length % 4 else 0
  }

  /** Full quartets up to `main`, then a quartet of which `padding` characters are missing or pads. */
  function Parts(a: Alphabet, guarded: bool, s: seq<Byte>, main: nat, padding: nat): Outcome
    requires main % 4 == 0 && 1 <= padding <= 2 && main + 4 - padding <= |s|
  {
    Joined(Quartets(a, guarded, s[..main]), Looked(a, guarded, s[main..main + 4 - padding]))
  }

  function FromBase64(a: Alphabet, noPadding: bool, s: seq<Byte>): Outcome {
    if s == [] then Decoded([]) else
    var missing := Virtual(noPadding, |s|);
    if (|s| + missing) % 4 != 0 then Failed(InvalidLength)
    else if missing > 0 then Parts(a, false, s, |s| + missing - 4, missing)
    else if s[|s| - 1] == EQUALS then Parts(a, false, s, |s| - 4, if s[|s| - 2] == EQUALS then 2 else 1)
    else
      var r := Quartets(a, false, s);
      if s[|s| - 2] == EQUALS && r.Decoded? then Panicked else r
  }

  /** How many pads `s` ends with, as far as they count. */
  function Pads(pad: seq<Byte>, s: seq<Byte>): (r: nat)
    requires |s| >= 2
    ensures r <= 2
  {
    if |pad| != 1 || s[|s| - 1] != pad[0] then 0 else if s[|s| - 2] != pad[0] then 1 else 2
  }

  /** `view[offset..offset + length]`, with what is behind it, which one slip of the decoder looks at. */
  function FromBase64Bin(a: Alphabet, pad: seq<Byte>, s: seq<Byte>, behind: seq<Byte>): Outcome {
    if s == [] then Decoded([])
    else if |s| % 4 == 1 then
      var r := Quartets(a, true, s[..|s| - 1]);
      if !r.Decoded? then r
      else if behind == [] then Panicked
      else if Looked(a, true, [s[|s| - 1], behind[0]]).Decoded? then Panicked
      else Failed(InvalidBase64Sequence)
    else if |s| % 4 != 0 then Parts(a, true, s, |s| - |s| % 4, 4 - |s| % 4)
    else if Pads(pad, s) == 0 then Quartets(a, true, s)
    else Parts(a, true, s, |s| - 4, Pads(pad, s))
  }

  // ---------------------------------------------------------------- what decoding takes

  lemma OctetsStep(f: seq<Sextet>, rest: seq<Sextet>)
    requires |f| == 4
    ensures Octets(f + rest) == Ungroup(f[0], f[1], f[2], f[3]) + Octets(rest)
  {
    assert (f + rest)[4..] == rest;
  }

  lemma {:induction false} OctetsAppend(v: seq<Sextet>, w: seq<Sextet>)
    requires |v| % 4 == 0
    ensures Octets(v + w) == Octets(v) + Octets(w)
  {
    hide Octets, Ungroup;
    if v == [] {
      assert v + w == w && [] + Octets(w) == Octets(w);
      NoOctets();
    } else {
      var f, rest := v[..4], v[4..];
      OctetsAppend(rest, w);
      OctetsStep(f, rest);
      OctetsStep(f, rest + w);
      assert v == f + rest && v + w == f + (rest + w);
      ConcatAssoc(Ungroup(f[0], f[1], f[2], f[3]), Octets(rest), Octets(w));
    }
  }

  lemma NoOctets()
    ensures Octets([]) == []
  {
  }

  function Both(v: Option<seq<Sextet>>, w: Option<seq<Sextet>>): Option<seq<Sextet>> {
    if v.Some? && w.Some? then Some(v.value + w.value) else None
  }

  lemma {:induction false} ValuesAppend(a: Alphabet, s: seq<Byte>, t: seq<Byte>)
    ensures Values(a, s + t) == Both(Values(a, s), Values(a, t))
  {
    if s == [] {
      assert s + t == t;
      if Values(a, t).Some? { assert [] + Values(a, t).value == Values(a, t).value; }
    } else {
      assert (s + t)[0] == s[0] && (s + t)[1..] == s[1..] + t;
      ValuesAppend(a, s[1..], t);
      hide Value;
      if Value(a, s[0]).Some? && Values(a, s[1..]).Some? && Values(a, t).Some? {
        ConcatAssoc([Value(a, s[0]).value], Values(a, s[1..]).value, Values(a, t).value);
      }
    }
  }

  /** Decoded to what the values hold if there are values, and not decoded otherwise. */
  ghost predicate Decodes(r: Outcome, v: Option<seq<Sextet>>) {
    (r.Decoded? <==> v.Some?) && (v.Some? ==> r == Decoded(Octets(v.value)))
  }

  lemma JoinedDecodes(r: Outcome, v: Option<seq<Sextet>>, s: Outcome, w: Option<seq<Sextet>>)
    requires Decodes(r, v) && Decodes(s, w) && (v.Some? ==> |v.value| % 4 == 0)
    ensures Decodes(Joined(r, s), Both(v, w))
  {
    if v.Some? && w.Some? { OctetsAppend(v.value, w.value); }
  }

  lemma {:induction false} QuartetsDecode(a: Alphabet, guarded: bool, s: seq<Byte>)
    requires |s| % 4 == 0
    ensures Decodes(Quartets(a, guarded, s), Values(a, s))
  {
    if s != [] {
      var four, rest := s[..4], s[4..];
      QuartetsDecode(a, guarded, rest);
      assert s == four + rest;
      ValuesAppend(a, four, rest);
      hide Values, Looked, Octets;
      LookedDecodes(a, guarded, four);
      JoinedDecodes(Looked(a, guarded, four), Values(a, four), Quartets(a, guarded, rest), Values(a, rest));
    }
  }

  lemma LookedDecodes(a: Alphabet, guarded: bool, t: seq<Byte>)
    ensures Decodes(Looked(a, guarded, t), Values(a, t))
  {
  }

  lemma PartsDecode(a: Alphabet, guarded: bool, s: seq<Byte>, main: nat, padding: nat)
    requires main % 4 == 0 && 1 <= padding <= 2 && main + 4 - padding <= |s|
    ensures Decodes(Parts(a, guarded, s, main, padding), Values(a, s[..main + 4 - padding]))
  {
    var front, last := s[..main], s[main..main + 4 - padding];
    hide Quartets, Looked, Values, Octets, Joined, Decodes;
    assert s[..main + 4 - padding] == front + last;
    QuartetsDecode(a, guarded, front);
    LookedDecodes(a, guarded, last);
    ValuesAppend(a, front, last);
    JoinedDecodes(Quartets(a, guarded, front), Values(a, front), Looked(a, guarded, last), Values(a, last));
  }

  /** What is left of `s` without the padding at its end. */
  function Body(s: seq<Byte>): seq<Byte> {
    if |s| < 2 || s[|s| - 1] != EQUALS then s else if s[|s| - 2] != EQUALS then s[..|s| - 1] else s[..|s| - 2]
  }

  /** A character that has no value is not among those that have. */
  lemma Unequal(a: Alphabet, s: seq<Byte>, c: Byte)
    requires c !in a && Values(a, s).Some?
    ensures c !in s
  {
    ValuesExist(a, s);
  }

  /** The padded decoder takes exactly quartets of the alphabet's characters, the last with up to two pads. */
  lemma Takes(a: Alphabet, s: seq<Byte>)
    requires EQUALS !in a
    ensures Decodes(FromBase64(a, false, s), if |s| % 4 == 0 then Values(a, Body(s)) else None)
  {
    hide Quartets, Values, Octets, Parts;
    if s == [] {
      NoValues(a);
    } else if |s| % 4 == 0 {
      if s[|s| - 1] != EQUALS {
        QuartetsDecode(a, false, s);
        if Values(a, s).Some? { Unequal(a, s, EQUALS); }
      } else {
        var padding := if s[|s| - 2] == EQUALS then 2 else 1;
        PartsDecode(a, false, s, |s| - 4, padding);
      }
    }
  }

  lemma NoValues(a: Alphabet)
    ensures Values(a, []) == Some([]) && Octets([]) == []
  {
  }

  /** Decoded text is what encoding the result gives exactly when its spare bits are zero. */
  lemma EncodesBack(a: Alphabet, s: seq<Byte>)
    requires Distinct(a) && EQUALS !in a && FromBase64(a, false, s).Decoded?
    ensures Values(a, Body(s)).Some?
    ensures Encode(a, [EQUALS], FromBase64(a, false, s).bytes) == s <==> Spare(Values(a, Body(s)).value) == 0
  {
    hide FromBase64, Values, Octets, Symbols, Chars, Cleared, Spare, Body, Padding;
    Takes(a, s);
    var body := Body(s);
    var v := Values(a, body).value;
    BodyLength(s);
    CharsOfValues(a, body);
    SymbolsBack(v);
    ClearedSame(v);
    BodyAndPads(s, |Octets(v)|);
    if Spare(v) != 0 {
      ValuesOfChars(a, Cleared(v));
      SameStart(Chars(a, Cleared(v)), body, Padding([EQUALS], |Octets(v)|));
    }
  }

  lemma BodyLength(s: seq<Byte>)
    requires |s| % 4 == 0
    ensures |Body(s)| % 4 != 1
  {
  }

  lemma SameStart(x: seq<Byte>, y: seq<Byte>, p: seq<Byte>)
    requires |x| == |y|
    ensures x + p == y + p <==> x == y
  {
    if x + p == y + p { assert x == (x + p)[..|x|] && y == (y + p)[..|y|]; }
  }

  lemma ClearedSame(v: seq<Sextet>)
    ensures |Cleared(v)| == |v| && (Spare(v) == 0 <==> Cleared(v) == v)
  {
    if Spare(v) != 0 { assert Cleared(v)[|v| - 1] != v[|v| - 1]; }
  }

  lemma BodyAndPads(s: seq<Byte>, length: nat)
    requires |s| % 4 == 0 && length == |Body(s)| / 4 * 3 + (if |Body(s)| % 4 >= 2 then |Body(s)| % 4 - 1 else 0)
    ensures s == Body(s) + Padding([EQUALS], length)
  {
  }

  // ---------------------------------------------------------------- round trips

  lemma BodyOfPadded(c: seq<Byte>, length: nat)
    requires EQUALS !in c && |c| == length / 3 * 4 + (if length % 3 == 0 then 0 else length % 3 + 1)
    ensures Body(c + Padding([EQUALS], length)) == c && |c + Padding([EQUALS], length)| % 4 == 0
  {
    var p := Padding([EQUALS], length);
    assert |c| >= 1 ==> c[|c| - 1] != EQUALS;
    BodyWithout(c, p);
  }

  lemma BodyWithout(c: seq<Byte>, p: seq<Byte>)
    requires (|c| >= 1 ==> c[|c| - 1] != EQUALS) && (|c| >= 2 ==> c[|c| - 2] != EQUALS)
    requires p == [] || (|c| >= 2 && (p == [EQUALS] || p == [EQUALS, EQUALS]))
    ensures Body(c + p) == c
  {
    var s := c + p;
    assert s[..|c|] == c;
    assert |c| >= 1 ==> s[|c| - 1] == c[|c| - 1];
  }

  lemma PaddedRead(a: Alphabet, noPadding: bool, c: seq<Byte>, length: nat)
    requires EQUALS !in a && Values(a, c).Some? && |c| == length / 3 * 4 + (if length % 3 == 0 then 0 else length % 3 + 1)
    ensures FromBase64(a, noPadding, c + Padding([EQUALS], length)) == Decoded(Octets(Values(a, c).value))
  {
    hide FromBase64, Values, Octets, Body, Padding;
    Unequal(a, c, EQUALS);
    BodyOfPadded(c, length);
    var s := c + Padding([EQUALS], length);
    Takes(a, s);
    NothingMissing(a, noPadding, s);
  }

  lemma NothingMissing(a: Alphabet, noPadding: bool, s: seq<Byte>)
    requires |s| % 4 == 0
    ensures FromBase64(a, noPadding, s) == FromBase64(a, false, s)
  {
    hide Quartets, Looked;
    assert Virtual(noPadding, |s|) == 0;
  }

  lemma SomeMissing(a: Alphabet, noPadding: bool, s: seq<Byte>)
    requires |s| % 4 >= 2
    ensures FromBase64(a, noPadding, s) == if noPadding then Parts(a, false, s, |s| - |s| % 4, 4 - |s| % 4) else Failed(InvalidLength)
  {
    hide Parts, Quartets;
    assert Virtual(noPadding, |s|) == if noPadding then 4 - |s| % 4 else 0;
  }

  lemma UnpaddedRead(a: Alphabet, noPadding: bool, c: seq<Byte>)
    requires EQUALS !in a && Values(a, c).Some? && |c| % 4 != 1
    ensures FromBase64(a, noPadding, c) == if noPadding || |c| % 4 == 0 then Decoded(Octets(Values(a, c).value)) else Failed(InvalidLength)
  {
    hide FromBase64, Parts, Values, Octets;
    if |c| % 4 == 0 {
      NothingMissing(a, noPadding, c);
      Unequal(a, c, EQUALS);
      assert Body(c) == c;
      Takes(a, c);
    } else {
      SomeMissing(a, noPadding, c);
      PartsDecode(a, false, c, |c| - |c| % 4, 4 - |c| % 4);
      assert c[..|c|] == c;
    }
  }

  /** Only what comes before the pads counts. */
  lemma PartsBefore(a: Alphabet, s: seq<Byte>, c: seq<Byte>, main: nat, padding: nat)
    requires main % 4 == 0 && 1 <= padding <= 2 && main + 4 - padding == |c| <= |s| && s[..|c|] == c
    ensures Parts(a, true, s, main, padding) == Parts(a, true, c, main, padding)
  {
    assert s[..main] == c[..main] && s[main..|c|] == c[main..|c|];
  }

  /** The slice decoder on characters and what pads it. */
  lemma BinSplits(a: Alphabet, pad: seq<Byte>, c: seq<Byte>, p: seq<Byte>, behind: seq<Byte>)
    requires c != [] && |c| % 4 != 1 && (|pad| == 1 ==> pad[0] !in c)
    requires p == [] || (|pad| == 1 && |c| % 4 >= 2 && p == if |c| % 4 == 2 then pad + pad else pad)
    ensures FromBase64Bin(a, pad, c + p, behind)
         == if |c| % 4 == 0 then Quartets(a, true, c) else Parts(a, true, c, |c| - |c| % 4, 4 - |c| % 4)
  {
    hide Parts, Quartets;
    var s := c + p;
    assert s[..|c|] == c && s[|c| - 1] == c[|c| - 1] && s[|c| - 2] == c[|c| - 2];
    if p == [] {
      assert s == c;
    } else {
      PartsBefore(a, s, c, |c| - |c| % 4, 4 - |c| % 4);
      assert Pads(pad, s) == 4 - |c| % 4;
    }
  }

  lemma BinRead(a: Alphabet, pad: seq<Byte>, c: seq<Byte>, p: seq<Byte>, behind: seq<Byte>)
    requires Values(a, c).Some? && |c| % 4 != 1 && (|pad| == 1 ==> pad[0] !in a)
    requires p == [] || (|pad| == 1 && |c| % 4 >= 2 && p == if |c| % 4 == 2 then pad + pad else pad)
    ensures FromBase64Bin(a, pad, c + p, behind) == Decoded(Octets(Values(a, c).value))
  {
    hide FromBase64Bin, Quartets, Parts, Values, Octets;
    if |pad| == 1 { Unequal(a, c, pad[0]); }
    if c == [] {
      BinNothing(a, pad, c, p, behind);
    } else {
      BinSplits(a, pad, c, p, behind);
      if |c| % 4 == 0 {
        QuartetsDecode(a, true, c);
      } else {
        PartsDecode(a, true, c, |c| - |c| % 4, 4 - |c| % 4);
        assert c[..|c|] == c;
      }
    }
  }

  lemma BinNothing(a: Alphabet, pad: seq<Byte>, c: seq<Byte>, p: seq<Byte>, behind: seq<Byte>)
    requires c == [] && p == []
    ensures FromBase64Bin(a, pad, c + p, behind) == Decoded([]) && Values(a, c) == Some([]) && Octets([]) == []
  {
  }

  /** With padding, whether or not the decoder would do without. */
  lemma PaddedRoundTrip(a: Alphabet, noPadding: bool, data: seq<Byte>)
    requires Distinct(a) && EQUALS !in a
    ensures FromBase64(a, noPadding, Encode(a, [EQUALS], data)) == Decoded(data)
  {
    hide FromBase64, Values, Chars, Symbols, Octets, Padding;
    var v := Symbols(data);
    ValuesOfChars(a, v);
    OctetsBack(data);
    PaddedRead(a, noPadding, Chars(a, v), |data|);
  }

  /** Without padding, the decoder that does without takes it, and the other one only full quartets. */
  lemma UnpaddedRoundTrip(a: Alphabet, noPadding: bool, pad: seq<Byte>, data: seq<Byte>)
    requires Distinct(a) && EQUALS !in a && |pad| != 1
    ensures FromBase64(a, noPadding, Encode(a, pad, data)) == Decoded(data) <==> noPadding || |data| % 3 == 0
  {
    hide FromBase64, Values, Chars, Symbols, Octets;
    var v := Symbols(data);
    var c := Chars(a, v);
    assert Encode(a, pad, data) == c;
    ValuesOfChars(a, v);
    OctetsBack(data);
    UnpaddedRead(a, noPadding, c);
  }

  /** The slice decoder, on text padded as it expects or not padded at all, whatever is behind it. */
  lemma BinRoundTrip(a: Alphabet, pad: seq<Byte>, written: seq<Byte>, data: seq<Byte>, behind: seq<Byte>)
    requires Distinct(a) && (|pad| == 1 ==> pad[0] !in a) && (written == pad || |written| != 1)
    ensures FromBase64Bin(a, pad, Encode(a, written, data), behind) == Decoded(data)
  {
    hide FromBase64Bin, Values, Chars, Symbols, Octets;
    var v := Symbols(data);
    var c := Chars(a, v);
    ValuesOfChars(a, v);
    OctetsBack(data);
    BinRead(a, pad, c, Padding(written, |data|), behind);
  }
}
