/**
 SSH multiprecision integers: crates/json-joy-json-pack/src/json_pack_mpint.rs, built with overflow
 checks or without.
 */
module Mpint {
  import opened Common
  import opened Bytes

  const MIN: int := 0 - 0x8000_0000_0000_0000_0000_0000_0000_0000
  const WORD: int := 0x1_0000_0000_0000_0000_0000_0000_0000_0000

  /** `-2^119`, from which on the encoder goes wrong. */
  const LIMIT: int := 0 - 0x80_0000_0000_0000_0000_0000_0000_0000

  // ---------------------------------------------------------------- what the bytes mean

  /** Section 5 of RFC 4251: two's complement, most significant byte first. */
  function TwosComplement(b: seq<Byte>): int {
    FromBigEndian(b) - (if b != [] && b[0] >= 128 then Pow256(|b|) else 0)
  }

  /** No unnecessary leading byte; zero has none at all. */
  ghost predicate Shortest(b: seq<Byte>) {
    && (|b| == 1 ==> b[0] != 0)
    && (|b| > 1 ==> !(b[0] == 0 && b[1] < 128) && !(b[0] == 255 && b[1] >= 128))
  }

  // ---------------------------------------------------------------- machine arithmetic

  function LowWord(n: int): (r: nat)
    ensures r < WORD
  {
    n % 0x1_0000_0000_0000_0000_0000_0000_0000_0000
  }

  function Wrap(n: int): I128 {
    var m := LowWord(n);
    if m < 0x8000_0000_0000_0000_0000_0000_0000_0000 then m else m - 0x1_0000_0000_0000_0000_0000_0000_0000_0000
  }

  function BitLength(n: nat): nat {
    if n == 0 then 0 else 1 + BitLength(n / 2)
  }

  /** `value >> (i * 8) & 0xff`, the shift taken modulo 128. */
  function ShiftedByte(value: nat, i: nat): Byte {
    value / Pow256(i % 16) % 256
  }

  function Octets(value: nat, count: nat): (r: seq<Byte>)
    ensures |r| == count
  {
    if count == 0 then [] else [ShiftedByte(value, count - 1)] + Octets(value, count - 1)
  }

  function StripOnes(b: seq<Byte>): seq<Byte>
    decreases |b|
  {
    if |b| > 1 && b[0] == 255 && b[1] >= 128 then StripOnes(b[1..]) else b
  }

  function Digits(n: nat): seq<Byte> {
    if n == 0 then [] else Digits(n / 256) + [n % 256]
  }

  function ByteLength(v: I128): nat
    requires v < 0
  {
    (BitLength(0 - v) + 8) / 8
  }

  /** None where the source panics, which without overflow checks it does not. */
  function FromI128(checked: bool, v: I128): Option<seq<Byte>> {
    if v == 0 then Some([])
    else if v < 0 then
      if checked && (v == MIN || ByteLength(v) >= 16) then None else
      Some(StripOnes(Octets(LowWord(Pow256(ByteLength(v) % 16) + v), ByteLength(v))))
    else
      var bytes := Digits(v);
      Some(if bytes != [] && bytes[0] >= 128 then [0] + bytes else bytes)
  }

  function ToI128(checked: bool, data: seq<Byte>): Option<I128> {
    if data == [] then Some(0) else
    var value := Wrap(FromBigEndian(data));
    if data[0] < 128 then Some(value) else
    if checked && |data| * 8 % 0x1_0000_0000 >= 128 then None else
    var r := value - Wrap(Pow256(|data| % 16));
    if checked && r != Wrap(r) then None else Some(Wrap(r))
  }

  // ---------------------------------------------------------------- ranges

  lemma PowOver(n: nat)
    requires n > 0
    ensures Pow256(n) == 256 * Pow256(n - 1)
  {
  }

  lemma {:induction false} BigEndianFirst(b: seq<Byte>)
    requires b != []
    ensures FromBigEndian(b) == b[0] * Pow256(|b| - 1) + FromBigEndian(b[1..])
    ensures FromBigEndian(b[1..]) < Pow256(|b| - 1)
  {
    if |b| == 1 {
      assert b[..0] == [] && b[1..] == [];
    } else {
      var c := b[..|b| - 1];
      BigEndianFirst(c);
      var d := b[1..];
      assert d[..|d| - 1] == c[1..] && d[|d| - 1] == b[|b| - 1];
      assert 256 * (b[0] * Pow256(|b| - 2)) == b[0] * (256 * Pow256(|b| - 2));
    }
  }

  function Top(b: Byte): int {
    if b >= 128 then b - 256 else b
  }

  lemma Parts(b: seq<Byte>)
    requires b != []
    ensures TwosComplement(b) == Top(b[0]) * Pow256(|b| - 1) + FromBigEndian(b[1..])
    ensures FromBigEndian(b[1..]) < Pow256(|b| - 1) && Pow256(|b|) == 256 * Pow256(|b| - 1)
  {
    BigEndianFirst(b);
    PowOver(|b|);
    hide FromBigEndian, Pow256, Top;
    Distribute(b[0], Pow256(|b| - 1));
  }

  lemma Distribute(t: Byte, p: nat)
    ensures Top(t) * p == t * p - (if t >= 128 then 256 * p else 0)
  {
    var n: int := t;
    assert (n - 256) * p == n * p - 256 * p;
  }

  lemma TopTimes(t: int, p: int)
    requires -128 <= t < 128 && p >= 0
    ensures -128 * p <= t * p <= 127 * p
    ensures t > 0 ==> t * p >= p
    ensures t < 0 ==> t * p <= -p
    ensures t < -1 ==> t * p <= -2 * p
  {
  }

  /** What `n` bytes can hold. */
  lemma InRange(b: seq<Byte>)
    ensures 0 - Pow256(|b|) <= 2 * TwosComplement(b) < Pow256(|b|)
  {
    if b != [] {
      Parts(b);
      TopTimes(Top(b[0]), Pow256(|b| - 1));
    }
  }

  /** A shortest form is out of the range of fewer bytes. */
  lemma OutOfRange(b: seq<Byte>)
    requires Shortest(b) && b != []
    ensures !(0 - Pow256(|b| - 1) <= 2 * TwosComplement(b) < Pow256(|b| - 1))
  {
    Parts(b);
    TopTimes(Top(b[0]), Pow256(|b| - 1));
    if |b| > 1 {
      var c := b[1..];
      Parts(c);
      TopTimes(Top(c[0]), Pow256(|c| - 1));
      hide TwosComplement, Pow256, FromBigEndian;
    } else {
      assert b[1..] == [];
    }
  }

  lemma {:induction false} Wider(m: nat, n: nat)
    requires m <= n
    ensures Pow256(m) <= Pow256(n)
  {
    if m < n { Wider(m, n - 1); }
  }

  lemma {:induction false} BigEndianInjective(a: seq<Byte>, b: seq<Byte>)
    requires |a| == |b| && FromBigEndian(a) == FromBigEndian(b)
    ensures a == b
  {
    if a != [] {
      var k := |a| - 1;
      BigEndianInjective(a[..k], b[..k]);
      assert a == a[..k] + [a[k]] && b == b[..k] + [b[k]];
    }
  }

  /** The shortest form of a number is its only one of that length, and no other form is shorter. */
  lemma ShortestIsUnique(a: seq<Byte>, b: seq<Byte>)
    requires Shortest(a) && TwosComplement(a) == TwosComplement(b)
    ensures |a| <= |b| && (|a| == |b| ==> a == b)
  {
    InRange(b);
    if |b| < |a| {
      OutOfRange(a);
      Wider(|b|, |a| - 1);
    } else if |a| == |b| && a != [] {
      BigEndianFirst(a);
      BigEndianFirst(b);
      SignsAgree(a, b);
      BigEndianInjective(a, b);
    }
  }

  lemma SignsAgree(a: seq<Byte>, b: seq<Byte>)
    requires |a| == |b| && a != [] && TwosComplement(a) == TwosComplement(b)
    ensures a[0] >= 128 <==> b[0] >= 128
  {
    Sign(a);
    Sign(b);
  }

  lemma Sign(b: seq<Byte>)
    requires b != []
    ensures TwosComplement(b) < 0 <==> b[0] >= 128
  {
    Parts(b);
    TopTimes(Top(b[0]), Pow256(|b| - 1));
  }

  // ---------------------------------------------------------------- the encoder's bytes

  lemma {:induction false} DigitsMean(n: nat)
    ensures FromBigEndian(Digits(n)) == n && (n > 0 ==> Digits(n) != [] && Digits(n)[0] > 0)
  {
    if n > 0 {
      DigitsMean(n / 256);
      var d := Digits(n);
      assert d[..|d| - 1] == Digits(n / 256);
    }
  }

  lemma {:induction false} StripKeeps(b: seq<Byte>)
    requires b != [] && b[0] >= 128
    ensures var s := StripOnes(b); TwosComplement(s) == TwosComplement(b) && Shortest(s) && 0 < |s| <= |b| && s[0] >= 128
    ensures (|b| > 1 ==> !(b[0] == 255 && b[1] >= 128)) ==> StripOnes(b) == b
    decreases |b|
  {
    if |b| > 1 && b[0] == 255 && b[1] >= 128 {
      BigEndianFirst(b);
      StripKeeps(b[1..]);
    }
  }

  lemma {:induction false} OctetsAre(value: nat, count: nat)
    requires count <= 16
    ensures Octets(value, count) == BigEndian(value, count)
  {
    if count > 0 {
      OctetsAre(value, count - 1);
      HighByteFirst(value, count);
      NotShiftedRound(value, count - 1);
      hide BigEndian, Pow256, ShiftedByte;
    }
  }

  lemma NotShiftedRound(value: nat, i: nat)
    requires i < 16
    ensures ShiftedByte(value, i) == value / Pow256(i) % 256
  {
    hide Pow256;
    assert i % 16 == i;
  }

  lemma {:induction false} HighByteFirst(value: nat, count: nat)
    requires count > 0
    ensures BigEndian(value, count) == [value / Pow256(count - 1) % 256] + BigEndian(value, count - 1)
  {
    if count > 1 {
      HighByteFirst(value / 256, count - 1);
      DivideTwice(value, Pow256(count - 2));
    }
  }

  lemma DivideTwice(n: nat, p: nat)
    requires p > 0
    ensures n / 256 / p == n / (256 * p)
  {
    var q, r := n / 256, n % 256;
    var a, b := q / p, q % p;
    assert n == 256 * (a * p + b) + r;
    assert n == a * (256 * p) + (256 * b + r);
    assert 256 * b + r < 256 * p;
    QuotientIs(n, 256 * p, a, 256 * b + r);
  }

  lemma {:induction false} BitLengthHalves(n: nat, k: nat)
    ensures BitLength(n) <= k <==> n < Pow2(k)
    decreases k
  {
    if k > 0 && n > 0 { BitLengthHalves(n / 2, k - 1); }
  }

  function Pow2(k: nat): (r: nat)
    ensures r > 0
  {
    if k == 0 then 1 else 2 * Pow2(k - 1)
  }

  lemma {:induction false} PowsAgree(k: nat)
    ensures Pow2(8 * k) == Pow256(k)
  {
    if k > 0 {
      PowsAgree(k - 1);
      EightMore(8 * k - 8);
    }
  }

  lemma EightMore(k: nat)
    ensures Pow2(k + 8) == 256 * Pow2(k)
  {
    assert Pow2(k + 2) == 2 * Pow2(k + 1);
    assert Pow2(k + 4) == 2 * Pow2(k + 3) && Pow2(k + 3) == 2 * Pow2(k + 2);
    assert Pow2(k + 6) == 2 * Pow2(k + 5) && Pow2(k + 5) == 2 * Pow2(k + 4);
    assert Pow2(k + 8) == 2 * Pow2(k + 7) && Pow2(k + 7) == 2 * Pow2(k + 6);
  }

  lemma ModShift(a: int, k: int)
    ensures LowWord(a + k * WORD) == LowWord(a)
  {
  }

  lemma ModSmall(a: int)
    ensures 0 <= a < WORD ==> LowWord(a) == a
    ensures -WORD <= a < 0 ==> LowWord(a) == a + WORD
  {
  }

  lemma WrapIs(n: int)
    ensures MIN <= n < -MIN ==> Wrap(n) == n
    ensures -MIN <= n < WORD ==> Wrap(n) == n - WORD
  {
    ModSmall(n);
    hide LowWord;
  }

  lemma Powers()
    ensures Pow2(119) == -LIMIT && Pow2(127) == -MIN && Pow256(16) == WORD && Pow256(15) == -2 * LIMIT
  {
    PowsAgree(14);
    PowsAgree(15);
    PowsAgree(16);
    assert Pow256(4) == 0x1_0000_0000;
    assert Pow256(8) == 0x1_0000_0000_0000_0000;
    assert Pow256(12) == 0x1_0000_0000_0000_0000_0000_0000;
    assert Pow256(14) == 0x1_0000_0000_0000_0000_0000_0000_0000;
    assert Pow2(119) == 128 * Pow2(112);
    assert Pow2(128) == 2 * Pow2(127);
  }

  /** The bytes set aside are enough, and fewer than 16 exactly above the limit. */
  lemma BytesEnough(v: I128)
    requires MIN < v < 0
    ensures var n := ByteLength(v); 1 <= n <= 16 && 0 - Pow256(n) <= 2 * v && (n < 16 <==> v > LIMIT)
  {
    Powers();
    var n := ByteLength(v);
    BitLengthHalves(0 - v, 119);
    BitLengthHalves(0 - v, 127);
    BitLengthHalves(0 - v, 8 * n - 1);
    PowsAgree(n);
    assert Pow2(8 * n) == 2 * Pow2(8 * n - 1);
  }

  lemma NegativeOctets(v: int, n: nat)
    requires 1 <= n <= 16 && v < 0 && 0 - Pow256(n) <= 2 * v
    ensures var b := Octets(Pow256(n) + v, n); b[0] >= 128 && TwosComplement(b) == v
  {
    var b := Octets(Pow256(n) + v, n);
    OctetsAre(Pow256(n) + v, n);
    BigEndianRead(Pow256(n) + v, n);
    Parts(b);
    TopTimes(Top(b[0]), Pow256(n - 1));
  }

  lemma FromNegative(checked: bool, v: I128)
    requires MIN < v < 0 && ByteLength(v) < 16 && 0 - Pow256(ByteLength(v)) <= 2 * v && Pow256(ByteLength(v)) < WORD
    ensures FromI128(checked, v) == Some(StripOnes(Octets(Pow256(ByteLength(v)) + v, ByteLength(v))))
  {
    hide StripOnes, Octets, Pow256, ByteLength, LowWord;
    ModSmall(Pow256(ByteLength(v)) + v);
  }

  lemma FromPositive(v: I128)
    requires v > 0
    ensures var d := Digits(v); var b := if d[0] >= 128 then [0] + d else d;
            TwosComplement(b) == v && Shortest(b) && |b| <= 16
  {
    DigitsMean(v);
    var d := Digits(v);
    DigitsFew(v);
    hide Digits, Pow256;
    if d[0] >= 128 {
      Few(d, v);
      var b := [0] + d;
      assert b[1..] == d;
      Parts(b);
    }
  }

  /** Above the limit the encoder gives the shortest form, in either build. */
  lemma FromIsShortest(checked: bool, v: I128)
    requires v > LIMIT
    ensures var r := FromI128(checked, v); r.Some? && TwosComplement(r.value) == v && Shortest(r.value) && |r.value| <= 16
  {
    Powers();
    hide StripOnes, Octets, Pow256, ByteLength, Digits;
    if v < 0 {
      BytesEnough(v);
      var n := ByteLength(v);
      Wider(n, 15);
      FromNegative(checked, v);
      NegativeOctets(v, n);
      StripKeeps(Octets(Pow256(n) + v, n));
    } else if v > 0 {
      DigitsMean(v);
      FromPositive(v);
    }
  }

  lemma {:induction false} DigitsCount(n: nat, k: nat)
    requires n < Pow256(k)
    ensures |Digits(n)| <= k
  {
    if n > 0 { DigitsCount(n / 256, k - 1); }
  }

  lemma DigitsFew(v: I128)
    requires v > 0
    ensures |Digits(v)| <= 16
  {
    Powers();
    DigitsCount(v, 16);
  }

  lemma Few(d: seq<Byte>, v: I128)
    requires d != [] && d[0] >= 128 && FromBigEndian(d) == v && |d| <= 16
    ensures |d| <= 15
  {
    Powers();
    Parts(d);
    Sign(d);
    InRange(d);
  }

  /** From the limit down, without overflow checks: the bytes of the next number, or, at the bottom, of a positive one. */
  lemma Astray(v: I128)
    requires v <= LIMIT
    ensures var r := FromI128(false, v);
            && r.Some?
            && (v == MIN ==> r.value != [] && r.value[0] == 0 && FromBigEndian(r.value) == 0x8000_0000_0000_0000_0000_0000_0000_0100)
            && (v > MIN ==> r.value != [] && TwosComplement(r.value) == v + 1 && Shortest(r.value) && r.value[0] >= 128)
            && (v > MIN ==> (|r.value| == 16 <==> v < LIMIT - 1) && |r.value| <= 16)
  {
    hide FromI128, TwosComplement, FromBigEndian, Shortest;
    if v == MIN {
      Bottom();
    } else {
      NextInstead(v);
    }
  }

  lemma NextInstead(v: I128)
    requires MIN < v <= LIMIT
    ensures var r := FromI128(false, v);
            && r.Some? && r.value != [] && TwosComplement(r.value) == v + 1 && Shortest(r.value) && r.value[0] >= 128
            && (|r.value| == 16 <==> v < LIMIT - 1) && |r.value| <= 16
  {
    Powers();
    FromNext(v);
    hide FromI128, StripOnes, Octets, Pow256, TwosComplement, Shortest;
    NegativeOctets(v + 1, 16);
    var b := Octets(WORD + (v + 1), 16);
    StripKeeps(b);
    SixteenOrFewer(StripOnes(b), v);
  }

  lemma SixteenOrFewer(s: seq<Byte>, v: I128)
    requires MIN < v <= LIMIT && s != [] && |s| <= 16 && Shortest(s) && TwosComplement(s) == v + 1
    ensures |s| == 16 <==> v < LIMIT - 1
  {
    Powers();
    hide Pow256, TwosComplement, Shortest;
    InRange(s);
    OutOfRange(s);
    if |s| < 16 { Wider(|s|, 15); }
  }

  lemma FirstPowers()
    ensures Pow256(0) == 1 && Pow256(1) == 256
  {
  }

  lemma SixteenBytes(v: I128)
    requires MIN < v <= LIMIT
    ensures ByteLength(v) == 16
  {
    BytesEnough(v);
  }

  lemma FromNext(v: I128)
    requires MIN < v <= LIMIT
    ensures FromI128(false, v) == Some(StripOnes(Octets(WORD + (v + 1), 16)))
  {
    hide StripOnes, Octets, Pow256, ByteLength, LowWord;
    FirstPowers();
    SixteenBytes(v);
    ModSmall(Pow256(0) + v);
  }

  lemma Bottom()
    ensures var r := FromI128(false, MIN);
            r.Some? && r.value != [] && r.value[0] == 0 && FromBigEndian(r.value) == 0x8000_0000_0000_0000_0000_0000_0000_0100
  {
    hide StripOnes, Octets, Pow256, ByteLength, LowWord, FromBigEndian;
    SeventeenBytes();
    FirstPowers();
    ModSmall(Pow256(17 % 16) + MIN);
    BottomOctets();
    StopsAtZero(Octets(0x8000_0000_0000_0000_0000_0000_0000_0100, 17));
  }

  lemma SeventeenBytes()
    ensures ByteLength(MIN) == 17
  {
    Powers();
    BitLengthHalves(0 - MIN, 127);
    BitLengthHalves(0 - MIN, 128);
    assert Pow2(128) == 2 * Pow2(127);
  }

  lemma StopsAtZero(b: seq<Byte>)
    requires b != [] && b[0] == 0
    ensures StripOnes(b) == b
  {
  }

  lemma BottomOctets()
    ensures var b := Octets(0x8000_0000_0000_0000_0000_0000_0000_0100, 17);
            b[0] == 0 && FromBigEndian(b) == 0x8000_0000_0000_0000_0000_0000_0000_0100
  {
    Powers();
    var value := 0x8000_0000_0000_0000_0000_0000_0000_0100;
    assert ShiftedByte(value, 16) == 0 by { assert Pow256(0) == 1; }
    var b := Octets(value, 17);
    assert b == [0] + Octets(value, 16);
    OctetsAre(value, 16);
    hide Octets;
    BigEndianRead(value, 16);
    BigEndianFirst(b);
    assert b[1..] == BigEndian(value, 16);
  }

  // ---------------------------------------------------------------- reading back

  /** Reading gives what the bytes mean, for up to 15 bytes and, without a sign, 16. */
  lemma ToReads(checked: bool, data: seq<Byte>)
    requires |data| <= 15 || (|data| == 16 && data[0] < 128)
    ensures ToI128(checked, data) == Some(TwosComplement(data))
  {
    hide Pow256, FromBigEndian, Wrap, TwosComplement, ToI128;
    if data == [] {
      ToEmpty(checked);
    } else if data[0] < 128 {
      ToUnsigned(checked, data);
    } else {
      ToSigned(checked, data);
    }
  }

  lemma ToEmpty(checked: bool)
    ensures ToI128(checked, []) == Some(TwosComplement([]))
  {
  }

  lemma ToUnsigned(checked: bool, data: seq<Byte>)
    requires 0 < |data| <= 16 && data[0] < 128
    ensures ToI128(checked, data) == Some(TwosComplement(data))
  {
    hide Pow256, FromBigEndian, Wrap;
    Powers();
    InRange(data);
    Sign(data);
    Wider(|data|, 16);
    WrapIs(FromBigEndian(data));
  }

  lemma ToSigned(checked: bool, data: seq<Byte>)
    requires 0 < |data| <= 15 && data[0] >= 128
    ensures ToI128(checked, data) == Some(TwosComplement(data))
  {
    hide Pow256, FromBigEndian, Wrap;
    assert |data| * 8 % 0x1_0000_0000 < 128 && |data| % 16 == |data|;
    Powers();
    InRange(data);
    Sign(data);
    Wider(|data|, 15);
    WrapIs(FromBigEndian(data));
    WrapIs(Pow256(|data|));
    WrapIs(TwosComplement(data));
  }

  function Back(checked: bool, v: I128): Option<I128> {
    match FromI128(checked, v)
    case Some(b) => ToI128(checked, b)
    case None => None
  }

  /** The encoder's bytes mean the number they were made from exactly above the limit. */
  lemma EncodesExactly(checked: bool, v: I128)
    ensures FromI128(checked, v).Some? && TwosComplement(FromI128(checked, v).value) == v <==> v > LIMIT
  {
    if v > LIMIT {
      FromIsShortest(checked, v);
    } else if checked {
      if v > MIN { BytesEnough(v); }
    } else {
      Astray(v);
      if v == MIN { Sign(FromI128(false, v).value); }
    }
  }

  /**
   Encoding and reading back gives the number again exactly above the limit. Without overflow checks
   two mistakes cancel out below it, except in the first two places and at the smallest number.
   */
  lemma RoundTrip(checked: bool, v: I128)
    ensures Back(checked, v) == Some(v) <==> v > LIMIT || (!checked && MIN < v < LIMIT - 1)
  {
    Powers();
    if v > LIMIT {
      FromIsShortest(checked, v);
      var b := FromI128(checked, v).value;
      if |b| == 16 { SixteenUnsigned(b, v); }
      ToReads(checked, b);
    } else if checked {
      if v > MIN { BytesEnough(v); }
    } else {
      Astray(v);
      var b := FromI128(false, v).value;
      if v >= LIMIT - 1 {
        ToReads(false, b);
      } else if v > MIN {
        Cancels(b, v);
      }
    }
  }

  lemma SixteenUnsigned(b: seq<Byte>, v: I128)
    requires |b| == 16 && Shortest(b) && TwosComplement(b) == v && v > LIMIT
    ensures b[0] < 128
  {
    Powers();
    OutOfRange(b);
    Sign(b);
  }

  lemma Cancels(b: seq<Byte>, v: I128)
    requires v < LIMIT && |b| == 16 && b[0] >= 128 && TwosComplement(b) == v + 1
    ensures ToI128(false, b) == Some(v)
  {
    hide Pow256, FromBigEndian, Wrap;
    FirstPowers();
    Powers();
    WrapIs(FromBigEndian(b));
    WrapIs(1);
    WrapIs(v);
  }

  // ---------------------------------------------------------------- as they run

  method MakeFromI128(checked: bool, value: I128) returns (r: Option<seq<Byte>>)
    ensures r == FromI128(checked, value)
  {
    hide LowWord, Pow256, BitLength, ShiftedByte;
    if value == 0 { return Some([]); }
    var bytes: seq<Byte> := [];
    if value < 0 {
      if checked && value == MIN { return None; }
      var byteLength := (BitLength(0 - value) + 8) / 8;
      if checked && byteLength * 8 >= 128 { return None; }
      var twoComplement := LowWord(Pow256(byteLength % 16) + value);
      var i := byteLength;
      assert [] + Octets(twoComplement, byteLength) == Octets(twoComplement, byteLength);
      while i > 0
        invariant 0 <= i <= byteLength && bytes + Octets(twoComplement, i) == Octets(twoComplement, byteLength)
      {
        i := i - 1;
        ConcatAssoc(bytes, [ShiftedByte(twoComplement, i)], Octets(twoComplement, i));
        bytes := bytes + [ShiftedByte(twoComplement, i)];
      }
      assert bytes + [] == bytes;
      while |bytes| > 1 && bytes[0] == 255 && bytes[1] >= 128
        invariant StripOnes(bytes) == StripOnes(Octets(twoComplement, byteLength))
        decreases |bytes|
      {
        bytes := bytes[1..];
      }
    } else {
      var temp: nat := value;
      assert Digits(value) + [] == Digits(value);
      while temp > 0
        invariant Digits(temp) + bytes == Digits(value)
      {
        ConcatAssoc(Digits(temp / 256), [temp % 256], bytes);
        bytes := [temp % 256] + bytes;
        temp := temp / 256;
      }
      assert [] + bytes == bytes;
      if bytes != [] && bytes[0] >= 128 { bytes := [0] + bytes; }
    }
    r := Some(bytes);
  }

  lemma WrapStep(n: nat, b: Byte)
    ensures Wrap(Wrap(n) * 256 + b) == Wrap(n * 256 + b)
  {
    var k := (Wrap(n) - n) / WORD;
    assert Wrap(n) == n + k * WORD;
    ModShift(n * 256 + b, 256 * k);
  }

  method ReadToI128(checked: bool, data: seq<Byte>) returns (r: Option<I128>)
    ensures r == ToI128(checked, data)
  {
    if data == [] { return Some(0); }
    var value: I128 := 0;
    var i := 0;
    while i < |data|
      invariant 0 <= i <= |data| && value == Wrap(FromBigEndian(data[..i]))
    {
      assert data[..i + 1][..i] == data[..i];
      WrapStep(FromBigEndian(data[..i]), data[i]);
      value := Wrap(value * 256 + data[i]);
      i := i + 1;
    }
    assert data[..i] == data;
    if data[0] < 128 { return Some(value); }
    if checked && |data| * 8 % 0x1_0000_0000 >= 128 { return None; }
    var difference := value - Wrap(Pow256(|data| % 16));
    if checked && difference != Wrap(difference) { return None; }
    r := Some(Wrap(difference));
  }
}
