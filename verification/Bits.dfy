/** Fixed-width unsigned integers as the bytes and the bits they are made of. */
module Bits {

  type Byte = x: int | 0 <= x < 256
  type U16 = x: int | 0 <= x < 0x1_0000
  type U32 = x: int | 0 <= x < 0x1_0000_0000
  type U64 = x: int | 0 <= x < 0x1_0000_0000_0000_0000

  /** Bytes of zeros. */
  function Nulls(n: nat): (r: seq<Byte>)
    ensures |r| == n
    ensures forall i :: 0 <= i < n ==> r[i] == 0
  {
    seq(n, _ => 0)
  }

  // ------------------------------------------------ little-endian bytes

  function U16Bytes(v: U16): (r: seq<Byte>)
    ensures |r| == 2
  {
    [v % 256, v / 256]
  }

  function ReadU16(b: seq<Byte>): U16
    requires |b| == 2
  {
    (b[0] as int) + 256 * (b[1] as int)
  }

  function U32Bytes(v: U32): (r: seq<Byte>)
    ensures |r| == 4
  {
    U16Bytes(v % 0x1_0000) + U16Bytes(v / 0x1_0000)
  }

  function ReadU32(b: seq<Byte>): U32
    requires |b| == 4
  {
    (ReadU16(b[..2]) as int) + 0x1_0000 * (ReadU16(b[2..]) as int)
  }

  function U64Bytes(v: U64): (r: seq<Byte>)
    ensures |r| == 8
  {
    U32Bytes(v % 0x1_0000_0000) + U32Bytes(v / 0x1_0000_0000)
  }

  function ReadU64(b: seq<Byte>): U64
    requires |b| == 8
  {
    (ReadU32(b[..4]) as int) + 0x1_0000_0000 * (ReadU32(b[4..]) as int)
  }

  lemma U16RoundTrip(v: U16, b: seq<Byte>)
    requires |b| == 2
    ensures ReadU16(U16Bytes(v)) == v
    ensures U16Bytes(ReadU16(b)) == b
  {
  }

  lemma U32RoundTrip(v: U32, b: seq<Byte>)
    requires |b| == 4
    ensures ReadU32(U32Bytes(v)) == v
    ensures U32Bytes(ReadU32(b)) == b
  {
    var lo, hi := v % 0x1_0000, v / 0x1_0000;
    U16RoundTrip(lo, b[..2]);
    U16RoundTrip(hi, b[2..]);
    assert U32Bytes(v)[..2] == U16Bytes(lo);
    assert U32Bytes(v)[2..] == U16Bytes(hi);
    Halves16(ReadU16(b[..2]), ReadU16(b[2..]));
    assert b == b[..2] + b[2..];
  }

  lemma Halves16(lo: U16, hi: U16)
    ensures ((lo as int) + 0x1_0000 * (hi as int)) % 0x1_0000 == lo
    ensures ((lo as int) + 0x1_0000 * (hi as int)) / 0x1_0000 == hi
  {
  }

  lemma U64RoundTrip(v: U64, b: seq<Byte>)
    requires |b| == 8
    ensures ReadU64(U64Bytes(v)) == v
    ensures U64Bytes(ReadU64(b)) == b
  {
    var lo, hi := v % 0x1_0000_0000, v / 0x1_0000_0000;
    U32RoundTrip(lo, b[..4]);
    U32RoundTrip(hi, b[4..]);
    assert U64Bytes(v)[..4] == U32Bytes(lo);
    assert U64Bytes(v)[4..] == U32Bytes(hi);
    Halves(ReadU32(b[..4]), ReadU32(b[4..]));
    assert b == b[..4] + b[4..];
  }

  lemma Halves(lo: U32, hi: U32)
    ensures ((lo as int) + 0x1_0000_0000 * (hi as int)) % 0x1_0000_0000 == lo
    ensures ((lo as int) + 0x1_0000_0000 * (hi as int)) / 0x1_0000_0000 == hi
  {
  }

  // ------------------------------------------------- the numbers they are

  /** The number that the bytes are, the least significant one first. */
  function Little(bytes: seq<Byte>): nat {
    if bytes == [] then 0 else bytes[0] as nat + 256 * Little(bytes[1..])
  }

  lemma {:induction false} LittleSplit(a: seq<Byte>, b: seq<Byte>)
    ensures |a| == 2 ==> Little(a + b) == Little(a) + 0x1_0000 * Little(b)
    ensures |a| == 4 ==> Little(a + b) == Little(a) + 0x1_0000_0000 * Little(b)
  {
    if |a| == 2 {
      LittlePair(a[0], a[1], b);
      assert a == [a[0], a[1]];
      assert [a[0], a[1]] + [] == [a[0], a[1]];
      LittlePair(a[0], a[1], []);
    } else if |a| == 4 {
      LittleSplit(a[..2], a[2..] + b);
      LittleSplit(a[2..], b);
      LittleSplit(a[..2], a[2..]);
      assert a + b == a[..2] + (a[2..] + b) && a == a[..2] + a[2..];
    }
  }

  lemma LittlePair(x: Byte, y: Byte, b: seq<Byte>)
    ensures Little([x, y] + b) == x as nat + 256 * (y as nat) + 0x1_0000 * Little(b)
  {
    assert ([x, y] + b)[1..] == [y] + b && ([y] + b)[1..] == b;
    assert Little([y] + b) == y as nat + 256 * Little(b);
  }

  lemma Little16(v: U16)
    ensures Little(U16Bytes(v)) == v
  {
    LittlePair(v % 256, v / 256, []);
    assert U16Bytes(v) + [] == U16Bytes(v);
  }

  lemma Little32(v: U32)
    ensures Little(U32Bytes(v)) == v
  {
    LittleSplit(U16Bytes(v % 0x1_0000), U16Bytes(v / 0x1_0000));
    Little16(v % 0x1_0000);
    Little16(v / 0x1_0000);
  }

  lemma Little64(v: U64)
    ensures Little(U64Bytes(v)) == v
  {
    LittleSplit(U32Bytes(v % 0x1_0000_0000), U32Bytes(v / 0x1_0000_0000));
    Little32(v % 0x1_0000_0000);
    Little32(v / 0x1_0000_0000);
  }

  // -------------------------------------------------------------- bits

  /** The `n` low bits of `v`, least significant first. */
  function ToBits(v: nat, n: nat): (r: seq<bool>)
    ensures |r| == n
    decreases n
  {
    if n == 0 then [] else [v % 2 == 1] + ToBits(v / 2, n - 1)
  }

  function FromBits(bits: seq<bool>): nat {
    if bits == [] then 0 else (if bits[0] then 1 else 0) + 2 * FromBits(bits[1..])
  }

  function Pow2(n: nat): (p: nat)
    ensures p > 0
  {
    if n == 0 then 1 else 2 * Pow2(n - 1)
  }

  lemma {:induction false} BitsRoundTrip(v: nat, n: nat)
    requires v < Pow2(n)
    ensures FromBits(ToBits(v, n)) == v
    decreases n
  {
    if n > 0 {
      BitsRoundTrip(v / 2, n - 1);
      assert ToBits(v, n)[1..] == ToBits(v / 2, n - 1);
    }
  }

  lemma {:induction false} NumberRoundTrip(bits: seq<bool>)
    ensures FromBits(bits) < Pow2(|bits|)
    ensures ToBits(FromBits(bits), |bits|) == bits
  {
    if bits != [] {
      NumberRoundTrip(bits[1..]);
      assert bits == [bits[0]] + bits[1..];
      assert FromBits(bits) / 2 == FromBits(bits[1..]);
    }
  }

  lemma Pow2Values()
    ensures Pow2(8) == 256
    ensures Pow2(16) == 0x1_0000
    ensures Pow2(31) == 0x8000_0000
    ensures Pow2(32) == 0x1_0000_0000
  {
    assert Pow2(8) == 256;
    assert Pow2(12) == 16 * Pow2(8);
    assert Pow2(16) == 16 * Pow2(12);
    assert Pow2(20) == 16 * Pow2(16);
    assert Pow2(24) == 16 * Pow2(20);
    assert Pow2(28) == 16 * Pow2(24);
    assert Pow2(31) == 8 * Pow2(28);
  }

  lemma {:induction false} TopBit(v: nat, n: nat)
    requires n > 0 && Pow2(n - 1) <= v < Pow2(n)
    ensures ToBits(v, n)[n - 1]
    decreases n
  {
    if n > 1 {
      TopBit(v / 2, n - 1);
    }
  }

  function Reverse(bits: seq<bool>): (r: seq<bool>)
    ensures |r| == |bits|
    ensures forall i :: 0 <= i < |r| ==> r[i] == bits[|bits| - 1 - i]
  {
    seq(|bits|, i requires 0 <= i < |bits| => bits[|bits| - 1 - i])
  }

  lemma ReverseTwice(bits: seq<bool>)
    ensures Reverse(Reverse(bits)) == bits
  {
  }

  /** Numbers with the same bits, in either order, are the same number. */
  lemma BitsInjective(a: nat, b: nat, n: nat)
    requires a < Pow2(n) && b < Pow2(n)
    requires ToBits(a, n) == ToBits(b, n) || Reverse(ToBits(a, n)) == Reverse(ToBits(b, n))
    ensures a == b
  {
    BitsRoundTrip(a, n);
    BitsRoundTrip(b, n);
    ReverseTwice(ToBits(a, n));
    ReverseTwice(ToBits(b, n));
  }
}
