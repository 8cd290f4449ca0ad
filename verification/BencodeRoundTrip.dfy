/** Decoding what the Bencode encoder wrote, with anything behind it: the canonical form comes back, and two values are encoded alike exactly when they have the same one. */
module BencodeRoundTrip {
  import opened Common
  import opened Bytes
  import opened Decimals
  import opened Bencode

  // ---------------------------------------------------------------- canonical form

  /** Strings as bytes, numbers in the narrowest variant, keys sorted at every level. */
  ghost function Canon(c: Platform, v: PackValue): PackValue
    decreases v, 1
  {
    match v
    case Integer(i) => CanonNumber(i)
    case UInteger(u) => CanonNumber(u)
    case Float(f) => CanonNumber(c.round(f))
    case BigInt(n) => CanonNumber(n)
    case Str(t) => Bytes(t)
    case Array(items) => Array(CanonItems(c, items))
    case Object(members) =>
      SortedIsIn(members);
      Object(CanonPairs(c, v, Sort(members)))
    case Opaque => Null
    case _ => v
  }

  ghost function CanonNumber(n: I128): PackValue {
    if -0x8000_0000_0000_0000 <= n < 0x8000_0000_0000_0000 then Integer(n) else BigInt(n)
  }

  ghost function CanonItems(c: Platform, items: seq<PackValue>): seq<PackValue>
    decreases items, 0
  {
    if items == [] then [] else [Canon(c, items[0])] + CanonItems(c, items[1..])
  }

  ghost function CanonPairs(c: Platform, parent: PackValue, pairs: seq<Pair>): (r: seq<Pair>)
    requires forall i :: 0 <= i < |pairs| ==> pairs[i].value < parent
    ensures |r| == |pairs| && forall i :: 0 <= i < |r| ==> r[i].key == pairs[i].key
    decreases parent, 0, |pairs|
  {
    if pairs == [] then [] else [Pair(pairs[0].key, Canon(c, pairs[0].value))] + CanonPairs(c, parent, pairs[1..])
  }

  // ---------------------------------------------------------------- what the decoder takes

  /** Lengths have at most 10 digits. */
  ghost predicate ShortEnough(b: seq<Byte>) {
    |b| < 100_0000_0000
  }

  /** Numerals have at most 25 bytes. */
  ghost predicate NumeralFits(n: int) {
    |Numeral(n)| <= 25
  }

  /** The decoder takes the encoding: no number or length with too many digits, no refused key. */
  ghost predicate Decodable(c: Platform, v: PackValue)
    decreases v
  {
    match v
    case BigInt(n) => NumeralFits(n)
    case Bytes(b) => ShortEnough(b)
    case Str(t) => ShortEnough(t)
    case Array(items) => forall i :: 0 <= i < |items| ==> Decodable(c, items[i])
    case Object(members) => forall i :: 0 <= i < |members| ==> KeyOk(members[i].key) && Decodable(c, members[i].value)
    case _ => true
  }

  ghost predicate KeyOk(key: Text) {
    ShortEnough(key) && key != PROTO
  }

  /** Keys are UTF-8, as the program's strings are. */
  ghost predicate Proper(c: Platform, v: PackValue)
    decreases v
  {
    match v
    case Array(items) => forall i :: 0 <= i < |items| ==> Proper(c, items[i])
    case Object(members) => forall i :: 0 <= i < |members| ==> c.utf8(members[i].key) && Proper(c, members[i].value)
    case _ => true
  }

  // ---------------------------------------------------------------- bytes in place

  /** A read that takes exactly `w` and makes `v` of it, or, when `ok` does not hold, fails. */
  ghost predicate Gives<T>(r: At<T>, x: nat, w: seq<Byte>, v: T, ok: bool) {
    if ok then r.x == x + |w| && r.result.Ok? && r.result.value == v else r.result.Err?
  }

  // ---------------------------------------------------------------- numbers

  lemma NumeralBack(n: int)
    ensures ParseNumber(Numeral(n)) == Some(n)
    ensures forall i :: 0 <= i < |Numeral(n)| ==> Numeral(n)[i] != 101
  {
    DecimalBack(if n < 0 then -n else n);
    var t := Numeral(n);
    if n < 0 {
      assert t[1..] == Decimal(-n);
    } else {
      assert IsDigit(t[0]);
    }
  }

  lemma {:induction false} NumberTextRead(data: seq<Byte>, x: nat, t: Text, count: nat)
    requires Lies(data, x, t + [101]) && (forall i :: 0 <= i < |t| ==> t[i] != 101) && count <= 25
    ensures Gives(NumberText(data, x, count), x, t + [101], t, |t| + count <= 25)
    decreases |t|
  {
    if t == [] {
      assert t + [101] == [101] + [];
      LiesByte(data, x, 101, []);
    } else {
      assert t + [101] == [t[0]] + (t[1..] + [101]);
      LiesByte(data, x, t[0], t[1..] + [101]);
      if count < 25 {
        NumberTextRead(data, x + 1, t[1..], count + 1);
        assert [t[0]] + t[1..] == t;
      }
    }
  }

  lemma {:induction false} LengthTextRead(data: seq<Byte>, x: nat, t: Text, count: nat)
    requires Lies(data, x, t + [58]) && AllDigits(t) && count <= 10
    ensures Gives(LengthText(data, x, count), x, t + [58], t, |t| + count <= 10)
    decreases |t|
  {
    if t == [] {
      assert t + [58] == [58] + [];
      LiesByte(data, x, 58, []);
    } else {
      assert t + [58] == [t[0]] + (t[1..] + [58]);
      LiesByte(data, x, t[0], t[1..] + [58]);
      if count < 10 {
        LengthTextRead(data, x + 1, t[1..], count + 1);
        assert [t[0]] + t[1..] == t;
      }
    }
  }

  function Pow10(k: nat): nat {
    if k == 0 then 1 else 10 * Pow10(k - 1)
  }

  lemma {:induction false} DecimalLength(n: nat, k: nat)
    requires k >= 1
    ensures |Decimal(n)| <= k <==> n < Pow10(k)
    decreases k
  {
    if n >= 10 && k > 1 {
      DecimalLength(n / 10, k - 1);
    } else if n < 10 {
      TenOrMore(k);
    }
  }

  lemma {:induction false} TenOrMore(k: nat)
    requires k >= 1
    ensures Pow10(k) >= 10
  {
    if k > 1 { TenOrMore(k - 1); }
  }

  lemma WordFits(n: int)
    requires -0x8000_0000_0000_0000 <= n < 0x1_0000_0000_0000_0000
    ensures NumeralFits(n)
  {
    Powers();
    DecimalLength(if n < 0 then 0 - n else n, 24);
  }

  lemma Powers()
    ensures Pow10(10) == 100_0000_0000 && Pow10(24) == 1_0000_0000_0000_0000_0000_0000
    ensures Pow10(25) == 10_0000_0000_0000_0000_0000_0000
  {
    assert Pow10(5) == 100000;
    assert Pow10(10) == 10 * 10 * 10 * 10 * 10 * Pow10(5);
    assert Pow10(15) == 10 * 10 * 10 * 10 * 10 * Pow10(10);
    assert Pow10(20) == 10 * 10 * 10 * 10 * 10 * Pow10(15);
    assert Pow10(25) == 10 * 10 * 10 * 10 * 10 * Pow10(20);
    assert Pow10(25) == 10 * Pow10(24);
  }

  lemma NumberRead(data: seq<Byte>, x: nat, n: I128)
    requires Lies(data, x, IntegerBytes(n))
    ensures x < |data| && data[x] == 105 && Gives(ReadNumber(data, x), x, IntegerBytes(n), CanonNumber(n), NumeralFits(n))
  {
    var t := Numeral(n);
    LiesByte(data, x, 105, t + [101]);
    NumeralBack(n);
    NumberTextRead(data, x + 1, t, 0);
  }

  lemma StringRead(data: seq<Byte>, x: nat, b: seq<Byte>)
    requires Lies(data, x, StringBytes(b))
    ensures x < |data| && IsDigit(data[x]) && Gives(ReadString(data, x), x, StringBytes(b), b, ShortEnough(b))
  {
    var t := Decimal(|b|);
    DecimalBack(|b|);
    ConcatAssoc(t, [58], b);
    LiesParts(data, x, t + [58], b);
    LengthTextRead(data, x, t, 0);
    Powers();
    DecimalLength(|b|, 10);
    assert t + [58] == [t[0]] + (t[1..] + [58]);
    LiesByte(data, x, t[0], t[1..] + [58]);
  }

  // ---------------------------------------------------------------- values

  lemma {:induction false} AnyRead(c: Platform, data: seq<Byte>, x: nat, v: PackValue)
    requires Proper(c, v) && Lies(data, x, Encode(c, v))
    ensures x < |data| && data[x] != 101
    ensures Gives(ReadAny(c, data, x), x, Encode(c, v), Canon(c, v), Decodable(c, v))
    decreases v, 1
  {
    hide Lies, ReadNumber, ReadString, ReadItems, ReadPairs, IntegerBytes, StringBytes, Numeral, Sort;
    match v
    case Null => LiesOnly(data, x, 110);
    case Undefined => LiesOnly(data, x, 117);
    case Bool(b) => LiesOnly(data, x, if b then 116 else 102);
    case Integer(i) => WordFits(i); NumberRead(data, x, i);
    case UInteger(u) => WordFits(u); NumberRead(data, x, u);
    case Float(f) => WordFits(c.round(f)); NumberRead(data, x, c.round(f));
    case BigInt(n) => NumberRead(data, x, n);
    case Bytes(b) => StringRead(data, x, b);
    case Str(t) => StringRead(data, x, t);
    case Array(items) =>
      LiesByte(data, x, 108, EncodeItems(c, items) + [101]);
      ItemsRead(c, data, x + 1, items);
    case Object(members) => ObjectRead(c, data, x, v);
    case Opaque => LiesOnly(data, x, 110);
  }

  lemma {:induction false} ItemsRead(c: Platform, data: seq<Byte>, x: nat, items: seq<PackValue>)
    requires (forall i :: 0 <= i < |items| ==> Proper(c, items[i])) && Lies(data, x, EncodeItems(c, items) + [101])
    ensures Gives(ReadItems(c, data, x), x, EncodeItems(c, items) + [101], CanonItems(c, items), forall i :: 0 <= i < |items| ==> Decodable(c, items[i]))
    decreases items, 0
  {
    hide Lies, Encode, ReadAny, Canon, Decodable, Proper;
    if items == [] {
      assert [] + [101] == [101 as Byte];
      LiesOnly(data, x, 101);
    } else {
      var w, rest := Encode(c, items[0]), EncodeItems(c, items[1..]) + [101];
      ConcatAssoc(w, EncodeItems(c, items[1..]), [101]);
      LiesParts(data, x, w, rest);
      AnyRead(c, data, x, items[0]);
      ItemsRead(c, data, x + |w|, items[1..]);
      assert (forall i :: 0 <= i < |items| ==> Decodable(c, items[i]))
             <==> Decodable(c, items[0]) && forall i :: 0 <= i < |items[1..]| ==> Decodable(c, items[1..][i]) by {
        SplitAll(items, (v: PackValue) => Decodable(c, v));
      }
    }
  }

  lemma SplitAll<T>(s: seq<T>, p: T -> bool)
    requires s != []
    ensures (forall i :: 0 <= i < |s| ==> p(s[i])) <==> p(s[0]) && forall i :: 0 <= i < |s[1..]| ==> p(s[1..][i])
  {
    if p(s[0]) && forall i :: 0 <= i < |s[1..]| ==> p(s[1..][i]) {
      forall i | 0 <= i < |s| ensures p(s[i]) { if i > 0 { assert s[i] == s[1..][i - 1]; } }
    }
  }

  ghost predicate PairOk(c: Platform, p: Pair) {
    KeyOk(p.key) && Decodable(c, p.value)
  }

  ghost function PairTest(c: Platform): Pair -> bool {
    (p: Pair) => PairOk(c, p)
  }

  lemma {:induction false} ObjectRead(c: Platform, data: seq<Byte>, x: nat, v: PackValue)
    requires v.Object? && Proper(c, v) && Lies(data, x, Encode(c, v))
    ensures x < |data| && data[x] == 100
    ensures Gives(ReadAny(c, data, x), x, Encode(c, v), Canon(c, v), Decodable(c, v))
    decreases v, 0, |v.members| + 1
  {
    hide Lies, ReadPairs, Sort;
    var pairs := Sort(v.members);
    SortedIsIn(v.members);
    var body := EncodePairs(c, v, pairs) + [101];
    LiesByte(data, x, 100, body);
    forall i | 0 <= i < |pairs| ensures c.utf8(pairs[i].key) && Proper(c, pairs[i].value) {
      var j :| 0 <= j < |v.members| && v.members[j] == pairs[i];
    }
    SameLength(v.members);
    PairsRead(c, data, x + 1, v, pairs);
    AllOfSame(v.members, pairs, PairTest(c));
    assert (forall i :: 0 <= i < |v.members| ==> PairTest(c)(v.members[i])) <==> Decodable(c, v);
  }

  lemma SameLength(pairs: seq<Pair>)
    ensures |Sort(pairs)| == |pairs|
  {
    assert |multiset(Sort(pairs))| == |multiset(pairs)|;
  }

  lemma AllOfSame(a: seq<Pair>, b: seq<Pair>, p: Pair -> bool)
    requires multiset(a) == multiset(b)
    ensures (forall i :: 0 <= i < |a| ==> p(a[i])) <==> forall i :: 0 <= i < |b| ==> p(b[i])
  {
    forall x: Pair ensures x in a <==> x in b {
      assert x in multiset(a) <==> x in multiset(b);
    }
    assert (forall i :: 0 <= i < |a| ==> p(a[i])) <==> forall x :: x in a ==> p(x);
    assert (forall i :: 0 <= i < |b| ==> p(b[i])) <==> forall x :: x in b ==> p(x);
  }

  lemma {:induction false} PairsRead(c: Platform, data: seq<Byte>, x: nat, parent: PackValue, pairs: seq<Pair>)
    requires forall i :: 0 <= i < |pairs| ==> pairs[i].value < parent && c.utf8(pairs[i].key) && Proper(c, pairs[i].value)
    requires Lies(data, x, EncodePairs(c, parent, pairs) + [101])
    ensures Gives(ReadPairs(c, data, x), x, EncodePairs(c, parent, pairs) + [101], CanonPairs(c, parent, pairs),
                  PairsOk(c, pairs))
    decreases parent, 0, |pairs|
  {
    hide Lies, Encode, ReadAny, ReadPairs, Canon, Decodable, Proper, ReadString, StringBytes, PairsOk;
    if pairs == [] {
      NoPairsRead(c, data, x);
    } else {
      var p, tail := pairs[0], EncodePairs(c, parent, pairs[1..]);
      var k, w, rest := StringBytes(p.key), Encode(c, p.value), tail + [101];
      PairBytes(k, w, tail);
      LiesParts(data, x, k, w + rest);
      LiesParts(data, x + |k|, w, rest);
      StringRead(data, x, p.key);
      AnyRead(c, data, x + |k|, p.value);
      PairsRead(c, data, x + |k| + |w|, parent, pairs[1..]);
      PairsOkSplit(c, pairs);
      PairStep(c, data, x, p, k, w, rest, Canon(c, p.value), CanonPairs(c, parent, pairs[1..]), Decodable(c, p.value), PairsOk(c, pairs[1..]));
    }
  }

  lemma NoPairsRead(c: Platform, data: seq<Byte>, x: nat)
    requires Lies(data, x, [] + [101])
    ensures Gives(ReadPairs(c, data, x), x, [] + [101], [], PairsOk(c, []))
  {
    assert [] + [101] == [101 as Byte];
    LiesOnly(data, x, 101);
  }

  ghost predicate PairsOk(c: Platform, pairs: seq<Pair>) {
    forall i :: 0 <= i < |pairs| ==> PairTest(c)(pairs[i])
  }

  lemma PairsOkSplit(c: Platform, pairs: seq<Pair>)
    requires pairs != []
    ensures PairsOk(c, pairs) <==> KeyOk(pairs[0].key) && Decodable(c, pairs[0].value) && PairsOk(c, pairs[1..])
  {
    hide Decodable, KeyOk;
    SplitAll(pairs, PairTest(c));
  }

  lemma PairStep(c: Platform, data: seq<Byte>, x: nat, p: Pair, k: seq<Byte>, w: seq<Byte>, rest: seq<Byte>, norm: PackValue, more: seq<Pair>, ok: bool, restOk: bool)
    requires x < |data| && IsDigit(data[x]) && c.utf8(p.key)
    requires Gives(ReadString(data, x), x, k, p.key, ShortEnough(p.key)) && Gives(ReadAny(c, data, x + |k|), x + |k|, w, norm, ok)
    requires Gives(ReadPairs(c, data, x + |k| + |w|), x + |k| + |w|, rest, more, restOk)
    ensures Gives(ReadPairs(c, data, x), x, k + (w + rest), [Pair(p.key, norm)] + more, KeyOk(p.key) && ok && restOk)
  {
    hide ReadString, ReadAny;
  }

  lemma PairBytes(k: seq<Byte>, w: seq<Byte>, tail: seq<Byte>)
    ensures k + (w + tail) + [101] == k + (w + (tail + [101]))
  {
  }

  /**
   Whatever follows an encoding, decoding takes exactly the encoding and gives the canonical form,
   if and only if no number and no length has too many digits and no key is `__proto__`.
   */
  lemma RoundTrip(c: Platform, v: PackValue, before: seq<Byte>, more: seq<Byte>)
    requires Proper(c, v)
    ensures var r := ReadAny(c, before + Encode(c, v) + more, |before|);
            if Decodable(c, v) then r == At(|before| + |Encode(c, v)|, Ok(Canon(c, v))) else r.result.Err?
  {
    var data := before + Encode(c, v) + more;
    assert data[|before|..|before| + |Encode(c, v)|] == Encode(c, v);
    AnyRead(c, data, |before|, v);
  }

  // ---------------------------------------------------------------- canonical encodings

  lemma {:induction false} CanonEncodes(c: Platform, v: PackValue)
    ensures Encode(c, Canon(c, v)) == Encode(c, v)
    decreases v, 1
  {
    match v
    case Array(items) => CanonItemsEncode(c, items);
    case Object(members) =>
      SortedIsIn(members);
      SortSorts(members);
      CanonPairsEncode(c, v, Canon(c, v), Sort(members));
      var pairs := CanonPairs(c, v, Sort(members));
      SortedStays(pairs);
    case _ =>
  }

  lemma {:induction false} CanonItemsEncode(c: Platform, items: seq<PackValue>)
    ensures EncodeItems(c, CanonItems(c, items)) == EncodeItems(c, items)
    decreases items, 0
  {
    if items != [] {
      CanonEncodes(c, items[0]);
      CanonItemsEncode(c, items[1..]);
      assert CanonItems(c, items)[1..] == CanonItems(c, items[1..]);
    }
  }

  lemma {:induction false} CanonPairsEncode(c: Platform, parent: PackValue, canon: PackValue, pairs: seq<Pair>)
    requires forall i :: 0 <= i < |pairs| ==> pairs[i].value < parent
    requires forall i :: 0 <= i < |pairs| ==> CanonPairs(c, parent, pairs)[i].value < canon
    ensures EncodePairs(c, canon, CanonPairs(c, parent, pairs)) == EncodePairs(c, parent, pairs)
    decreases parent, 0, |pairs|
  {
    if pairs != [] {
      var r := CanonPairs(c, parent, pairs);
      CanonEncodes(c, pairs[0].value);
      assert r[1..] == CanonPairs(c, parent, pairs[1..]);
      forall i | 0 <= i < |pairs[1..]| ensures CanonPairs(c, parent, pairs[1..])[i].value < canon { assert r[1..][i] == r[i + 1]; }
      CanonPairsEncode(c, parent, canon, pairs[1..]);
    }
  }

  ghost predicate Sorted(pairs: seq<Pair>) {
    forall i, j :: 0 <= i < j < |pairs| ==> !KeyLess(pairs[j].key, pairs[i].key)
  }

  lemma {:induction false} LessTransitive(a: Text, b: Text, d: Text)
    requires !KeyLess(b, a) && !KeyLess(d, b)
    ensures !KeyLess(d, a)
    decreases |a|
  {
    if a != [] && d != [] && b != [] && a[0] == d[0] && KeyLess(d, a) { LessTransitive(a[1..], b[1..], d[1..]); }
  }

  lemma {:induction false} LessTotal(a: Text, b: Text)
    ensures KeyLess(a, b) ==> !KeyLess(b, a)
    ensures !KeyLess(a, b) && !KeyLess(b, a) ==> a == b
    decreases |a|
  {
    if a != [] && b != [] {
      LessTotal(a[1..], b[1..]);
      assert a == [a[0]] + a[1..] && b == [b[0]] + b[1..];
    }
  }

  /** One key comes before another when it is a proper prefix of it or has the smaller byte where they first differ. */
  lemma {:induction false} LessIsLexicographic(a: Text, b: Text)
    ensures KeyLess(a, b) <==> a < b || exists i :: 0 <= i < |a| && i < |b| && a[..i] == b[..i] && a[i] < b[i]
    decreases |a|
  {
    if a != [] && b != [] {
      var a', b' := a[1..], b[1..];
      LessIsLexicographic(a', b');
      assert a == [a[0]] + a' && b == [b[0]] + b';
      if a[0] == b[0] {
        if a' < b' { assert a < b; }
        if i :| 0 <= i < |a'| && i < |b'| && a'[..i] == b'[..i] && a'[i] < b'[i] {
          assert a[..i + 1] == [a[0]] + a'[..i] && b[..i + 1] == [b[0]] + b'[..i] && a[i + 1] < b[i + 1];
        }
        if a < b { assert a' < b'; }
        if i :| 0 <= i < |a| && i < |b| && a[..i] == b[..i] && a[i] < b[i] {
          assert i > 0 && a'[..i - 1] == a[..i][1..] && b'[..i - 1] == b[..i][1..] && a'[i - 1] < b'[i - 1];
        }
      } else {
        if a[0] < b[0] { assert a[..0] == b[..0]; }
        forall i | 0 <= i < |a| && i < |b| && a[..i] == b[..i] ensures i == 0 { if i > 0 { SameStart(a, b, i); } }
      }
    }
  }

  lemma SameStart(a: Text, b: Text, i: nat)
    requires 0 < i <= |a| && i <= |b| && a[..i] == b[..i]
    ensures a[0] == b[0]
  {
    assert a[..i][0] == b[..i][0];
  }

  lemma {:induction false} InsertSorts(p: Pair, sorted: seq<Pair>)
    requires Sorted(sorted)
    ensures Sorted(Insert(p, sorted))
  {
    var r := Insert(p, sorted);
    if sorted == [] || !KeyLess(sorted[0].key, p.key) {
      forall i, j | 0 <= i < j < |r| ensures !KeyLess(r[j].key, r[i].key) {
        if i == 0 && j > 1 { LessTransitive(p.key, sorted[0].key, sorted[j - 1].key); }
      }
    } else {
      assert Sorted(sorted[1..]);
      InsertSorts(p, sorted[1..]);
      var more := Insert(p, sorted[1..]);
      LessTotal(sorted[0].key, p.key);
      forall j | 0 <= j < |more| ensures !KeyLess(more[j].key, sorted[0].key) {
        assert more[j] in multiset(more);
        if more[j] != p {
          assert more[j] in multiset(sorted[1..]);
          var k :| 0 <= k < |sorted[1..]| && sorted[1..][k] == more[j];
          assert sorted[k + 1] == more[j];
        }
      }
    }
  }

  lemma {:induction false} SortSorts(pairs: seq<Pair>)
    ensures Sorted(Sort(pairs))
  {
    if pairs != [] {
      SortSorts(pairs[1..]);
      InsertSorts(pairs[0], Sort(pairs[1..]));
    }
  }

  ghost function WithKey(pairs: seq<Pair>, key: Text): seq<Pair> {
    if pairs == [] then [] else (if pairs[0].key == key then [pairs[0]] else []) + WithKey(pairs[1..], key)
  }

  lemma {:induction false} InsertIsStable(p: Pair, sorted: seq<Pair>, key: Text)
    ensures WithKey(Insert(p, sorted), key) == (if p.key == key then [p] else []) + WithKey(sorted, key)
  {
    hide KeyLess;
    if sorted == [] || !KeyLess(sorted[0].key, p.key) {
      assert ([p] + sorted)[1..] == sorted;
    } else {
      var more := Insert(p, sorted[1..]);
      assert ([sorted[0]] + more)[1..] == more;
      InsertIsStable(p, sorted[1..], key);
      LessTotal(sorted[0].key, p.key);
    }
  }

  /** Pairs with the same key stay in the order they were given. */
  lemma {:induction false} SortIsStable(pairs: seq<Pair>, key: Text)
    ensures WithKey(Sort(pairs), key) == WithKey(pairs, key)
  {
    if pairs != [] {
      SortIsStable(pairs[1..], key);
      InsertIsStable(pairs[0], Sort(pairs[1..]), key);
    }
  }

  lemma {:induction false} SortedStays(pairs: seq<Pair>)
    requires Sorted(pairs)
    ensures Sort(pairs) == pairs
  {
    if pairs != [] {
      SortedStays(pairs[1..]);
      assert |pairs| > 1 ==> !KeyLess(pairs[1].key, pairs[0].key) && pairs[1..][0] == pairs[1];
      assert pairs == [pairs[0]] + pairs[1..];
    }
  }

  ghost predicate DistinctKeys(pairs: seq<Pair>) {
    forall i, j :: 0 <= i < j < |pairs| ==> pairs[i].key != pairs[j].key
  }

  /** Pairs in order of distinct keys are determined by what pairs they are. */
  lemma {:induction false} SortedUnique(a: seq<Pair>, b: seq<Pair>)
    requires Sorted(a) && Sorted(b) && multiset(a) == multiset(b) && DistinctKeys(a)
    ensures a == b
  {
    if a == [] {
      assert |multiset(b)| == 0;
    } else {
      FirstIsSame(a, b);
      RestIsSame(a, b);
      SortedUnique(a[1..], b[1..]);
      assert a == [a[0]] + a[1..] && b == [b[0]] + b[1..];
    }
  }

  lemma RestIsSame(a: seq<Pair>, b: seq<Pair>)
    requires a != [] && b != [] && a[0] == b[0] && multiset(a) == multiset(b)
    ensures multiset(a[1..]) == multiset(b[1..])
  {
    assert a == [a[0]] + a[1..] && b == [b[0]] + b[1..];
    assert multiset(a[1..]) == multiset(a) - multiset{a[0]};
    assert multiset(b[1..]) == multiset(b) - multiset{b[0]};
  }

  lemma FirstIsSame(a: seq<Pair>, b: seq<Pair>)
    requires Sorted(a) && Sorted(b) && multiset(a) == multiset(b) && DistinctKeys(a) && a != []
    ensures b != [] && a[0] == b[0]
  {
    assert a[0] in multiset(b);
    var i :| 0 <= i < |b| && b[i] == a[0];
    assert b[0] in multiset(a);
    var j :| 0 <= j < |a| && a[j] == b[0];
    LessTotal(a[0].key, b[0].key);
  }

  /** With distinct keys the order in which an object lists them shows neither in its encoding nor in its canonical form. */
  lemma KeyOrderInvisible(c: Platform, a: seq<Pair>, b: seq<Pair>)
    requires multiset(a) == multiset(b) && DistinctKeys(a)
    ensures Encode(c, Object(a)) == Encode(c, Object(b)) && Canon(c, Object(a)) == Canon(c, Object(b))
  {
    SortSorts(a);
    SortSorts(b);
    DistinctSorted(a);
    SortedUnique(Sort(a), Sort(b));
    SortedIsIn(a);
    SortedIsIn(b);
    SameParent(c, Object(a), Object(b), Sort(a));
  }

  // ---------------------------------------------------------------- key order at every level

  /** The same pairs of distinct keys, perhaps in another order. */
  ghost predicate Permutes(a: seq<Pair>, b: seq<Pair>) {
    multiset(a) == multiset(b) && DistinctKeys(a)
  }

  /** `w` is `v` with the pairs of any objects in it, at any depth, in another order. */
  ghost predicate Reordered(v: PackValue, w: PackValue)
    decreases v
  {
    match v
    case Array(items) => w.Array? && |w.items| == |items| && forall i :: 0 <= i < |items| ==> Reordered(items[i], w.items[i])
    case Object(members) =>
      w.Object? && (exists p: seq<Pair> ::
        && Permutes(p, w.members) && |p| == |members|
        && (forall i :: 0 <= i < |p| ==> p[i].key == members[i].key && Reordered(members[i].value, p[i].value)))
    case _ => v == w
  }

  /** Key by key the same canonical values. */
  ghost predicate Alike(c: Platform, a: seq<Pair>, b: seq<Pair>) {
    |a| == |b| && forall i :: 0 <= i < |a| ==> a[i].key == b[i].key && Canon(c, a[i].value) == Canon(c, b[i].value)
  }

  lemma {:induction false} InsertAlike(c: Platform, p: Pair, q: Pair, a: seq<Pair>, b: seq<Pair>)
    requires Alike(c, a, b) && p.key == q.key && Canon(c, p.value) == Canon(c, q.value)
    ensures Alike(c, Insert(p, a), Insert(q, b))
  {
    hide Canon, KeyLess;
    if a != [] && KeyLess(a[0].key, p.key) { InsertAlike(c, p, q, a[1..], b[1..]); }
  }

  lemma {:induction false} SortAlike(c: Platform, a: seq<Pair>, b: seq<Pair>)
    requires Alike(c, a, b)
    ensures Alike(c, Sort(a), Sort(b))
  {
    hide Canon;
    if a != [] {
      SortAlike(c, a[1..], b[1..]);
      InsertAlike(c, a[0], b[0], Sort(a[1..]), Sort(b[1..]));
    }
  }

  lemma {:induction false} PairsAlike(c: Platform, v: PackValue, w: PackValue, a: seq<Pair>, b: seq<Pair>)
    requires Alike(c, a, b) && forall i :: 0 <= i < |a| ==> a[i].value < v && b[i].value < w
    ensures CanonPairs(c, v, a) == CanonPairs(c, w, b)
    decreases |a|
  {
    hide Canon;
    if a != [] { PairsAlike(c, v, w, a[1..], b[1..]); }
  }

  lemma {:induction false} ItemsAlike(c: Platform, a: seq<PackValue>, b: seq<PackValue>)
    requires |a| == |b| && forall i :: 0 <= i < |a| ==> Canon(c, a[i]) == Canon(c, b[i])
    ensures CanonItems(c, a) == CanonItems(c, b)
  {
    hide Canon;
    if a != [] { ItemsAlike(c, a[1..], b[1..]); }
  }

  lemma SortedInside(a: seq<Pair>)
    ensures forall i :: 0 <= i < |Sort(a)| ==> Sort(a)[i].value < Object(a)
  {
    SortedIsIn(a);
    hide Sort;
    forall i | 0 <= i < |Sort(a)| ensures Sort(a)[i].value < Object(a) {
      var k :| 0 <= k < |a| && a[k] == Sort(a)[i];
      assert a[k].value < a[k];
    }
  }

  lemma ObjectsAlike(c: Platform, a: seq<Pair>, b: seq<Pair>)
    requires Alike(c, a, b)
    ensures Canon(c, Object(a)) == Canon(c, Object(b))
  {
    SortAlike(c, a, b);
    SortedInside(a);
    SortedInside(b);
    assert |Sort(a)| == |Sort(b)|;
    hide Alike, Sort;
    PairsAlike(c, Object(a), Object(b), Sort(a), Sort(b));
  }

  lemma {:induction false} ReorderedCanon(c: Platform, v: PackValue, w: PackValue)
    requires Reordered(v, w)
    ensures Canon(c, v) == Canon(c, w)
    decreases v
  {
    hide Canon, Permutes;
    match v
    case Array(items) =>
      forall i | 0 <= i < |items| ensures Canon(c, items[i]) == Canon(c, w.items[i]) { ReorderedCanon(c, items[i], w.items[i]); }
      ItemsAlike(c, items, w.items);
      ArraysAlike(c, items, w.items);
    case Object(members) =>
      var p: seq<Pair> :| Permutes(p, w.members) && |p| == |members|
        && forall i :: 0 <= i < |p| ==> p[i].key == members[i].key && Reordered(members[i].value, p[i].value);
      forall i | 0 <= i < |p| ensures Canon(c, members[i].value) == Canon(c, p[i].value) { ReorderedCanon(c, members[i].value, p[i].value); }
      ObjectsAlike(c, members, p);
      PermutedAlike(c, p, w.members);
    case _ =>
  }

  lemma ArraysAlike(c: Platform, a: seq<PackValue>, b: seq<PackValue>)
    ensures CanonItems(c, a) == CanonItems(c, b) ==> Canon(c, Array(a)) == Canon(c, Array(b))
  {
    hide CanonItems;
  }

  lemma PermutedAlike(c: Platform, a: seq<Pair>, b: seq<Pair>)
    requires Permutes(a, b)
    ensures Canon(c, Object(a)) == Canon(c, Object(b))
  {
    hide Canon, Encode, DistinctKeys;
    KeyOrderInvisible(c, a, b);
  }

  /** At any depth the order of distinct keys shows neither in the encoding nor in what it decodes to. */
  lemma OrderInvisible(c: Platform, v: PackValue, w: PackValue)
    requires Reordered(v, w)
    ensures Encode(c, v) == Encode(c, w) && Canon(c, v) == Canon(c, w)
  {
    hide Canon, Encode, Reordered;
    ReorderedCanon(c, v, w);
    CanonEncodes(c, v);
    CanonEncodes(c, w);
  }

  lemma DistinctSorted(a: seq<Pair>)
    requires DistinctKeys(a)
    ensures DistinctKeys(Sort(a))
  {
    var s := Sort(a);
    forall i, j | 0 <= i < j < |s| ensures s[i].key != s[j].key {
      if s[i].key == s[j].key {
        SortedIsIn(a);
        var k :| 0 <= k < |a| && a[k] == s[i];
        var l :| 0 <= l < |a| && a[l] == s[j];
        assert k == l;
        Twice(s, i, j);
        OnceOnly(a, k);
      }
    }
  }

  lemma Twice(s: seq<Pair>, i: nat, j: nat)
    requires i < j < |s| && s[i] == s[j]
    ensures multiset(s)[s[i]] >= 2
  {
    assert s == s[..i] + [s[i]] + (s[i + 1..j] + [s[j]] + s[j + 1..]);
  }

  lemma OnceOnly(a: seq<Pair>, k: nat)
    requires DistinctKeys(a) && k < |a|
    ensures multiset(a)[a[k]] == 1
  {
    assert a == a[..k] + [a[k]] + a[k + 1..];
    assert a[k] !in a[..k] && a[k] !in a[k + 1..];
  }

  lemma {:induction false} SameParent(c: Platform, p: PackValue, q: PackValue, pairs: seq<Pair>)
    requires forall i :: 0 <= i < |pairs| ==> pairs[i].value < p && pairs[i].value < q
    ensures EncodePairs(c, p, pairs) == EncodePairs(c, q, pairs) && CanonPairs(c, p, pairs) == CanonPairs(c, q, pairs)
    decreases |pairs|
  {
    if pairs != [] { SameParent(c, p, q, pairs[1..]); }
  }

  /** Values the decoder takes are encoded alike exactly when their canonical forms are the same. */
  lemma SameEncoding(c: Platform, v: PackValue, w: PackValue)
    requires Proper(c, v) && Proper(c, w) && Decodable(c, v) && Decodable(c, w)
    ensures Encode(c, v) == Encode(c, w) <==> Canon(c, v) == Canon(c, w)
  {
    CanonEncodes(c, v);
    CanonEncodes(c, w);
    if Encode(c, v) == Encode(c, w) {
      RoundTrip(c, v, [], []);
      RoundTrip(c, w, [], []);
    }
  }
}
