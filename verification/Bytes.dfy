/** Bytes, machine words and their little- and big-endian forms. */
module Bytes {
  import opened Common

  /** A UTF-8 string, as its bytes. */
  type Text = seq<Byte>

  type I32 = n: int | -0x8000_0000 <= n < 0x8000_0000
  type I64 = n: int | -0x8000_0000_0000_0000 <= n < 0x8000_0000_0000_0000

  type U64 = n: int | 0 <= n < 0x1_0000_0000_0000_0000
  type I128 = n: int | -0x8000_0000_0000_0000_0000_0000_0000_0000 <= n < 0x8000_0000_0000_0000_0000_0000_0000_0000

  /** Floating-point numbers appear only as their bit patterns. */
  type F32 = n: int | 0 <= n < 0x1_0000_0000
  type F64 = n: int | 0 <= n < 0x1_0000_0000_0000_0000

  function Pow256(n: nat): (r: nat)
    ensures 0 < r
  {
    if n == 0 then 1 else 256 * Pow256(n - 1)
  }

  /** `n as i32` */
  function AsI32(n: nat): I32 {
    (n + 0x8000_0000) % 0x1_0000_0000 - 0x8000_0000
  }

  /** How much of `data` lies behind `x`. */
  function Left(data: seq<Byte>, x: nat): nat {
    if x <= |data| then |data| - x else 0
  }

  lemma WordSizes()
    ensures Pow256(4) == 0x1_0000_0000 && Pow256(8) == 0x1_0000_0000_0000_0000
  {
    assert Pow256(8) == 256 * 256 * 256 * 256 * Pow256(4);
  }

  /** The `width` low bytes of `n`, least significant first. */
  function LittleEndian(n: nat, width: nat): (r: seq<Byte>)
    ensures |r| == width
  {
    if width == 0 then [] else [n % 256] + LittleEndian(n / 256, width - 1)
  }

  function FromLittleEndian(b: seq<Byte>): nat {
    if b == [] then 0 else b[0] + 256 * FromLittleEndian(b[1..])
  }

  /** The `width` low bytes of `n`, most significant first. */
  function BigEndian(n: nat, width: nat): (r: seq<Byte>)
    ensures |r| == width
  {
    if width == 0 then [] else BigEndian(n / 256, width - 1) + [n % 256]
  }

  function FromBigEndian(b: seq<Byte>): nat {
    if b == [] then 0 else 256 * FromBigEndian(b[..|b| - 1]) + b[|b| - 1]
  }

  lemma {:induction false} LittleEndianBelow(b: seq<Byte>)
    ensures FromLittleEndian(b) < Pow256(|b|)
  {
    if b != [] { LittleEndianBelow(b[1..]); }
  }

  lemma LittleEndianBound(b: seq<Byte>)
    ensures |b| == 4 ==> FromLittleEndian(b) < 0x1_0000_0000
    ensures |b| == 8 ==> FromLittleEndian(b) < 0x1_0000_0000_0000_0000
  {
    LittleEndianBelow(b);
  }

  lemma {:induction false} LittleEndianRead(n: nat, width: nat)
    requires n < Pow256(width)
    ensures FromLittleEndian(LittleEndian(n, width)) == n
  {
    if width > 0 { LittleEndianRead(n / 256, width - 1); }
  }

  lemma DivMod256(low: Byte, m: nat)
    ensures (low + 256 * m) % 256 == low && (low + 256 * m) / 256 == m
  {
  }

  lemma {:induction false} LittleEndianWritten(b: seq<Byte>)
    ensures LittleEndian(FromLittleEndian(b), |b|) == b
  {
    if b != [] {
      LittleEndianWritten(b[1..]);
      DivMod256(b[0], FromLittleEndian(b[1..]));
    }
  }

  lemma {:induction false} BigEndianRead(n: nat, width: nat)
    requires n < Pow256(width)
    ensures FromBigEndian(BigEndian(n, width)) == n
  {
    if width > 0 {
      BigEndianRead(n / 256, width - 1);
      assert BigEndian(n, width)[..width - 1] == BigEndian(n / 256, width - 1);
    }
  }

  // ---------------------------------------------------------------- bytes in place

  /** `w` lies in `data` from `x` on. */
  ghost predicate Lies(data: seq<Byte>, x: nat, w: seq<Byte>) {
    x + |w| <= |data| && data[x..x + |w|] == w
  }

  lemma LiesParts(data: seq<Byte>, x: nat, a: seq<Byte>, b: seq<Byte>)
    requires Lies(data, x, a + b)
    ensures Lies(data, x, a) && Lies(data, x + |a|, b)
  {
    assert data[x..x + |a|] == (a + b)[..|a|] == a;
    assert data[x + |a|..x + |a| + |b|] == (a + b)[|a|..] == b;
  }

  lemma LiesByte(data: seq<Byte>, x: nat, b: Byte, w: seq<Byte>)
    requires Lies(data, x, [b] + w)
    ensures x < |data| && data[x] == b && data[x..x + 1] == [b] && Lies(data, x + 1, w)
  {
    LiesParts(data, x, [b], w);
    assert data[x] == data[x..x + 1][0];
  }

  lemma LiesOnly(data: seq<Byte>, x: nat, b: Byte)
    requires Lies(data, x, [b])
    ensures x < |data| && data[x] == b
  {
    assert data[x] == data[x..x + 1][0];
  }
}
