/** The two cyclic redundancy checks of the bridge.

  A register is written as its bits in shifting order: the head is the bit that
  leaves next. In that order the reflected IEEE CRC-32 of section 8 of RFC 1952
  (`Crc32`, least significant bit first) and CCITT-FALSE (`Crc16`, most
  significant bit first) are the same machine with different taps, so both are
  proved at once: every change confined to a window no wider than the register
  changes the checksum.
 */
module Checksum {
  import opened Bits

  type Word = seq<bool>

  // ------------------------------------------------------ shift register

  function Xor(a: Word, b: Word): (r: Word)
    requires |a| == |b|
    ensures |r| == |a|
    ensures forall i :: 0 <= i < |a| ==> r[i] == (a[i] != b[i])
  {
    seq(|a|, i requires 0 <= i < |a| => a[i] != b[i])
  }

  function Zeros(n: nat): (r: Word)
    ensures |r| == n
    ensures forall i :: 0 <= i < n ==> !r[i]
  {
    seq(n, _ => false)
  }

  /** One iteration of the inner loop: shift, and apply the taps if a one left. */
  function Step(taps: Word, c: Word): (r: Word)
    requires |c| == |taps| > 0
    ensures |r| == |c|
  {
    var shifted := c[1..] + [false];
    if c[0] then Xor(shifted, taps) else shifted
  }

  /** One shift for each bit of `m`. */
  function Shifts(taps: Word, c: Word, m: Word): (r: Word)
    requires |c| == |taps| > 0
    ensures |r| == |c|
    decreases |m|
  {
    if m == [] then c else Shifts(taps, Step(taps, c), m[1..])
  }

  /** The byte is combined with the front of the register. */
  function Mix(c: Word, m: Word): (r: Word)
    requires |m| <= |c|
    ensures |r| == |c|
  {
    Xor(c, m + Zeros(|c| - |m|))
  }

  /** Byte order in which the machine consumes bits. */
  datatype Order = LsbFirst | MsbFirst

  function ByteBits(order: Order, b: Byte): (r: Word)
    ensures |r| == 8
  {
    match order
    case LsbFirst => ToBits(b, 8)
    case MsbFirst => Reverse(ToBits(b, 8))
  }

  function ByteStep(taps: Word, order: Order, c: Word, b: Byte): (r: Word)
    requires |c| == |taps| >= 8
    ensures |r| == |c|
  {
    var m := ByteBits(order, b);
    Shifts(taps, Mix(c, m), m)
  }

  function Fold(taps: Word, order: Order, c: Word, bytes: seq<Byte>): (r: Word)
    requires |c| == |taps| >= 8
    ensures |r| == |c|
    decreases |bytes|
  {
    if bytes == [] then c else Fold(taps, order, ByteStep(taps, order, c, bytes[0]), bytes[1..])
  }

  /** The inner loop. */
  method ShiftByte(taps: Word, order: Order, c: Word, b: Byte) returns (r: Word)
    requires |c| == |taps| >= 8
    ensures r == ByteStep(taps, order, c, b)
  {
    var m := ByteBits(order, b);
    r := Mix(c, m);
    var k := 0;
    while k < |m|
      invariant 0 <= k <= |m| && |r| == |c|
      invariant Shifts(taps, r, m[k..]) == Shifts(taps, Mix(c, m), m)
    {
      r := Step(taps, r);
      assert m[k..][1..] == m[k + 1..];
      k := k + 1;
    }
  }

  // ----------------------------------------------------- the two machines

  const TAPS32: Word := ToBits(0xedb8_8320, 32)
  const TAPS16: Word := Reverse(ToBits(0x1021, 16))

  lemma TapsEnterAtTheEnd()
    ensures |TAPS32| == 32 && TAPS32[31]
    ensures |TAPS16| == 16 && TAPS16[15]
  {
    Pow2Values();
    TopBit(0xedb8_8320, 32);
    assert ToBits(0x1021, 16)[0];
  }

  function Ones(n: nat): (r: Word)
    ensures |r| == n
    ensures forall i :: 0 <= i < n ==> r[i]
  {
    seq(n, _ => true)
  }

  function Crc32Ieee(bytes: seq<Byte>): U32 {
    var c := Xor(Fold(TAPS32, LsbFirst, Ones(32), bytes), Ones(32));
    NumberRoundTrip(c);
    Pow2Values();
    FromBits(c)
  }

  function Crc16CcittFalse(bytes: seq<Byte>): U16 {
    var c := Reverse(Fold(TAPS16, MsbFirst, Ones(16), bytes));
    NumberRoundTrip(c);
    Pow2Values();
    FromBits(c)
  }

  /** The 32-bit register, updated in place. */
  class Crc32 {
    var state: Word

    ghost predicate Valid()
      reads this
    {
      |state| == 32
    }

    constructor ()
      ensures Valid() && state == Ones(32)
    {
      state := Ones(32);
    }

    method Update(bytes: seq<Byte>)
      requires Valid()
      modifies this
      ensures Valid() && state == Fold(TAPS32, LsbFirst, old(state), bytes)
    {
      var i := 0;
      while i < |bytes|
        invariant 0 <= i <= |bytes| && Valid()
        invariant Fold(TAPS32, LsbFirst, state, bytes[i..]) == Fold(TAPS32, LsbFirst, old(state), bytes)
      {
        state := ShiftByte(TAPS32, LsbFirst, state, bytes[i]);
        assert bytes[i..][1..] == bytes[i + 1..];
        i := i + 1;
      }
    }
  }

  method ComputeCrc32Ieee(bytes: seq<Byte>) returns (crc: U32)
    ensures crc == Crc32Ieee(bytes)
  {
    var register := new Crc32();
    register.Update(bytes);
    NumberRoundTrip(Xor(register.state, Ones(32)));
    Pow2Values();
    crc := FromBits(Xor(register.state, Ones(32)));
  }

  method ComputeCrc16CcittFalse(bytes: seq<Byte>) returns (crc: U16)
    ensures crc == Crc16CcittFalse(bytes)
  {
    var c := Ones(16);
    var i := 0;
    while i < |bytes|
      invariant 0 <= i <= |bytes| && |c| == 16
      invariant Fold(TAPS16, MsbFirst, c, bytes[i..]) == Fold(TAPS16, MsbFirst, Ones(16), bytes)
    {
      c := ShiftByte(TAPS16, MsbFirst, c, bytes[i]);
      assert bytes[i..][1..] == bytes[i + 1..];
      i := i + 1;
    }
    NumberRoundTrip(Reverse(c));
    Pow2Values();
    crc := FromBits(Reverse(c));
  }

  /** The checksum of a storage image skips the four bytes that hold it; it is
      the plain checksum of the bytes before and the bytes after. */
  method Crc32WithoutHeader(image: seq<Byte>) returns (crc: U32)
    requires |image| >= 16
    ensures crc == Crc32Ieee(image[..12] + image[16..])
  {
    var c := FoldWithoutHeader(TAPS32, LsbFirst, Ones(32), image);
    NumberRoundTrip(Xor(c, Ones(32)));
    Pow2Values();
    crc := FromBits(Xor(c, Ones(32)));
  }

  method FoldWithoutHeader(taps: Word, order: Order, init: Word, image: seq<Byte>) returns (c: Word)
    requires |init| == |taps| >= 8 && |image| >= 16
    ensures c == Fold(taps, order, init, image[..12] + image[16..])
  {
    c := init;
    var i := 0;
    while i < |image|
      invariant 0 <= i <= |image| && |c| == |taps|
      invariant Fold(taps, order, c, Uncovered(image, i)) == Fold(taps, order, init, Uncovered(image, 0))
    {
      UncoveredStep(image, i);
      if i < 12 || 16 <= i {
        c := ShiftByte(taps, order, c, image[i]);
      }
      i := i + 1;
    }
  }

  /** What the image checksum still has to cover after the first `n` bytes. */
  ghost function Uncovered(image: seq<Byte>, n: nat): seq<Byte>
    requires n <= |image| && |image| >= 16
  {
    if n <= 12 then image[n..12] + image[16..] else if n <= 16 then image[16..] else image[n..]
  }

  lemma UncoveredStep(image: seq<Byte>, n: nat)
    requires n < |image| && |image| >= 16
    ensures 12 <= n < 16 ==> Uncovered(image, n + 1) == Uncovered(image, n)
    ensures n < 12 || 16 <= n ==>
      Uncovered(image, n) != [] && Uncovered(image, n)[0] == image[n] && Uncovered(image, n)[1..] == Uncovered(image, n + 1)
  {
  }

  // --------------------------------- the machine, one message bit at a time

  ghost function FeedBit(taps: Word, c: Word, m: bool): (r: Word)
    requires |c| == |taps| > 0
    ensures |r| == |c|
  {
    Step(taps, [c[0] != m] + c[1..])
  }

  ghost function Feed(taps: Word, c: Word, ms: Word): (r: Word)
    requires |c| == |taps| > 0
    ensures |r| == |c|
    decreases |ms|
  {
    if ms == [] then c else Feed(taps, FeedBit(taps, c, ms[0]), ms[1..])
  }

  lemma StepLinear(taps: Word, a: Word, b: Word)
    requires |a| == |b| == |taps| > 0
    ensures Step(taps, Xor(a, b)) == Xor(Step(taps, a), Step(taps, b))
  {
  }

  lemma MixSplits(c: Word, m: Word)
    requires 0 < |m| <= |c|
    ensures Mix(c, m) == Xor([c[0] != m[0]] + c[1..], [false] + (m[1..] + Zeros(|c| - |m|)))
  {
    assert m == [m[0]] + m[1..];
  }

  lemma QuietStep(taps: Word, m: Word)
    requires |m| + 1 == |taps|
    ensures Step(taps, [false] + m) == m + [false]
  {
    assert ([false] + m)[1..] == m;
  }

  /** Mixing `m` in and shifting |m| times is feeding `m` bit by bit. */
  lemma {:induction false} MixIsFeed(taps: Word, c: Word, m: Word)
    requires |m| <= |c| == |taps| && |taps| > 0
    ensures Shifts(taps, Mix(c, m), m) == Feed(taps, c, m)
    decreases |m|
  {
    if m == [] {
      assert Mix(c, m) == c;
    } else {
      var head := [c[0] != m[0]] + c[1..];
      var rest := m[1..] + Zeros(|c| - |m|);
      MixSplits(c, m);
      StepLinear(taps, head, [false] + rest);
      QuietStep(taps, rest);
      assert rest + [false] == m[1..] + Zeros(|c| - |m[1..]|);
      MixIsFeed(taps, FeedBit(taps, c, m[0]), m[1..]);
    }
  }

  ghost function MessageBits(order: Order, bytes: seq<Byte>): (r: Word)
    ensures |r| == 8 * |bytes|
  {
    if bytes == [] then [] else ByteBits(order, bytes[0]) + MessageBits(order, bytes[1..])
  }

  lemma {:induction false} FeedAppend(taps: Word, c: Word, a: Word, b: Word)
    requires |c| == |taps| > 0
    ensures Feed(taps, c, a + b) == Feed(taps, Feed(taps, c, a), b)
    decreases |a|
  {
    if a == [] {
      assert a + b == b;
    } else {
      assert (a + b)[1..] == a[1..] + b;
      FeedAppend(taps, FeedBit(taps, c, a[0]), a[1..], b);
    }
  }

  lemma {:induction false} FoldIsFeed(taps: Word, order: Order, c: Word, bytes: seq<Byte>)
    requires |c| == |taps| >= 8
    ensures Fold(taps, order, c, bytes) == Feed(taps, c, MessageBits(order, bytes))
    decreases |bytes|
  {
    if bytes != [] {
      var bits := ByteBits(order, bytes[0]);
      MixIsFeed(taps, c, bits);
      FeedAppend(taps, c, bits, MessageBits(order, bytes[1..]));
      FoldIsFeed(taps, order, ByteStep(taps, order, c, bytes[0]), bytes[1..]);
    }
  }

  // ------------------------------------------------- detection of bursts

  /** If the last tap is set, the step is injective: the last bit of the result
      is the bit that left. */
  lemma StepInjective(taps: Word, a: Word, b: Word)
    requires |a| == |b| == |taps| > 0 && taps[|taps| - 1]
    requires Step(taps, a) == Step(taps, b)
    ensures a == b
  {
    var n := |taps|;
    assert Step(taps, a)[n - 1] == a[0];
    assert Step(taps, b)[n - 1] == b[0];
    var x := Step(taps, a);
    forall i | 1 <= i < n
      ensures a[i] == b[i]
    {
      assert x[i - 1] == (a[i] != (a[0] && taps[i - 1]));
      assert x[i - 1] == (b[i] != (b[0] && taps[i - 1]));
    }
  }

  /** Equal bits lead different registers to different registers. */
  lemma {:induction false} FeedInjective(taps: Word, s: Word, t: Word, ms: Word)
    requires |s| == |t| == |taps| > 0 && taps[|taps| - 1]
    requires Feed(taps, s, ms) == Feed(taps, t, ms)
    ensures s == t
    decreases |ms|
  {
    if ms != [] {
      FeedInjective(taps, FeedBit(taps, s, ms[0]), FeedBit(taps, t, ms[0]), ms[1..]);
      var s', t' := [s[0] != ms[0]] + s[1..], [t[0] != ms[0]] + t[1..];
      StepInjective(taps, s', t');
      assert s'[0] == t'[0] && s'[1..] == t'[1..];
      assert s == [s[0]] + s[1..] && t == [t[0]] + t[1..];
    }
  }

  /** If the last bit of the result is clear, nothing was tapped. */
  lemma StepBack(taps: Word, x: Word)
    requires |x| == |taps| > 0 && taps[|taps| - 1]
    requires !Step(taps, x)[|taps| - 1]
    ensures x == [false] + Step(taps, x)[..|taps| - 1]
  {
    var n := |taps|;
    assert Step(taps, x)[n - 1] == x[0];
    assert Step(taps, x)[..n - 1] == x[1..];
  }

  lemma XorHeads(s: Word, t: Word, p: bool, q: bool, rest: Word)
    requires |s| == |t| == |rest| + 1
    requires Xor([s[0] != p] + s[1..], [t[0] != q] + t[1..]) == [false] + rest
    ensures Xor(s, t) == [p != q] + rest
  {
    var x := Xor([s[0] != p] + s[1..], [t[0] != q] + t[1..]);
    assert !x[0];
    assert forall i :: 1 <= i < |s| ==> x[i] == Xor(s, t)[i];
  }

  lemma ZerosLast(d: Word, k: nat)
    ensures (d + Zeros(k + 1))[|d| + k] == false
    ensures (d + Zeros(k + 1))[..|d| + k] == d + Zeros(k)
  {
  }

  /** One bit back: registers whose successors differ by `d` followed by zeros. */
  lemma MeetingStep(taps: Word, s: Word, t: Word, p: bool, q: bool, d: Word, k: nat)
    requires |s| == |t| == |taps| == |d| + k + 1 && taps[|taps| - 1]
    requires Xor(FeedBit(taps, s, p), FeedBit(taps, t, q)) == d + Zeros(k + 1)
    ensures Xor(s, t) == [p != q] + (d + Zeros(k))
  {
    var s', t' := [s[0] != p] + s[1..], [t[0] != q] + t[1..];
    StepLinear(taps, s', t');
    ZerosLast(d, k);
    StepBack(taps, Xor(s', t'));
    XorHeads(s, t, p, q, d + Zeros(k));
  }

  lemma XorCons(a: Word, b: Word)
    requires |a| == |b| > 0
    ensures Xor(a, b) == [a[0] != b[0]] + Xor(a[1..], b[1..])
  {
  }

  /** Registers that meet after at most |taps| bits each differed exactly by
      the difference of those bits. */
  lemma {:induction false} MeetingRegisters(taps: Word, s: Word, t: Word, a: Word, b: Word)
    requires |s| == |t| == |taps| > 0 && taps[|taps| - 1]
    requires |a| == |b| <= |taps|
    requires Feed(taps, s, a) == Feed(taps, t, b)
    ensures Xor(s, t) == Xor(a, b) + Zeros(|taps| - |a|)
    decreases |a|
  {
    if a == [] {
      assert Xor(s, t) == Zeros(|taps|);
    } else {
      MeetingRegisters(taps, FeedBit(taps, s, a[0]), FeedBit(taps, t, b[0]), a[1..], b[1..]);
      MeetingStep(taps, s, t, a[0], b[0], Xor(a[1..], b[1..]), |taps| - |a|);
      XorCons(a, b);
    }
  }

  lemma SameMeetingSameBits(taps: Word, s: Word, a: Word, b: Word)
    requires |s| == |taps| > 0 && taps[|taps| - 1]
    requires |a| == |b| <= |taps|
    requires Feed(taps, s, a) == Feed(taps, s, b)
    ensures a == b
  {
    MeetingRegisters(taps, s, s, a, b);
    forall i | 0 <= i < |a|
      ensures a[i] == b[i]
    {
      assert !Xor(s, s)[i];
      assert (Xor(a, b) + Zeros(|taps| - |a|))[i] == Xor(a, b)[i];
    }
  }

  lemma FeedThrough(taps: Word, c: Word, pre: Word, a: Word, post: Word)
    requires |c| == |taps| > 0
    ensures Feed(taps, c, pre + (a + post)) == Feed(taps, Feed(taps, Feed(taps, c, pre), a), post)
  {
    FeedAppend(taps, c, pre, a + post);
    FeedAppend(taps, Feed(taps, c, pre), a, post);
  }

  /** Two messages that differ only inside a window no wider than the register
      never have the same checksum. */
  lemma BurstDetected(taps: Word, c: Word, pre: Word, a: Word, b: Word, post: Word)
    requires |c| == |taps| > 0 && taps[|taps| - 1]
    requires |a| == |b| <= |taps| && a != b
    ensures Feed(taps, c, pre + (a + post)) != Feed(taps, c, pre + (b + post))
  {
    FeedThrough(taps, c, pre, a, post);
    FeedThrough(taps, c, pre, b, post);
    NeverMeet(taps, Feed(taps, c, pre), a, b, post);
  }

  lemma NeverMeet(taps: Word, s: Word, a: Word, b: Word, post: Word)
    requires |s| == |taps| > 0 && taps[|taps| - 1]
    requires |a| == |b| <= |taps| && a != b
    ensures Feed(taps, Feed(taps, s, a), post) != Feed(taps, Feed(taps, s, b), post)
  {
    if Feed(taps, Feed(taps, s, a), post) == Feed(taps, Feed(taps, s, b), post) {
      FeedInjective(taps, Feed(taps, s, a), Feed(taps, s, b), post);
      SameMeetingSameBits(taps, s, a, b);
    }
  }

  lemma {:induction false} MessageBitsAppend(order: Order, a: seq<Byte>, b: seq<Byte>)
    ensures MessageBits(order, a + b) == MessageBits(order, a) + MessageBits(order, b)
  {
    if a == [] {
      assert a + b == b;
    } else {
      assert (a + b)[1..] == a[1..] + b;
      MessageBitsAppend(order, a[1..], b);
    }
  }

  lemma ByteBitsInjective(order: Order, a: Byte, b: Byte)
    requires ByteBits(order, a) == ByteBits(order, b)
    ensures a == b
  {
    Pow2Values();
    BitsInjective(a, b, 8);
  }

  lemma SplitEqual(a: Word, a': Word, b: Word, b': Word)
    requires |a| == |b| && a + a' == b + b'
    ensures a == b && a' == b'
  {
    assert a == (a + a')[..|a|] && b == (b + b')[..|b|];
    assert a' == (a + a')[|a|..] && b' == (b + b')[|b|..];
  }

  lemma {:induction false} MessageBitsInjective(order: Order, a: seq<Byte>, b: seq<Byte>)
    requires |a| == |b| && MessageBits(order, a) == MessageBits(order, b)
    ensures a == b
  {
    if a != [] {
      SplitEqual(ByteBits(order, a[0]), MessageBits(order, a[1..]), ByteBits(order, b[0]), MessageBits(order, b[1..]));
      ByteBitsInjective(order, a[0], b[0]);
      MessageBitsInjective(order, a[1..], b[1..]);
      assert a == [a[0]] + a[1..] && b == [b[0]] + b[1..];
    }
  }

  /** The same for bytes: `x` and `y` are the contents of the window. */
  lemma BurstOfBytesDetected(taps: Word, order: Order, c: Word,
                             pre: seq<Byte>, x: seq<Byte>, y: seq<Byte>, post: seq<Byte>)
    requires |c| == |taps| >= 8 && taps[|taps| - 1]
    requires |x| == |y| && 8 * |x| <= |taps| && x != y
    ensures Fold(taps, order, c, pre + (x + post)) != Fold(taps, order, c, pre + (y + post))
  {
    FoldIsFeed(taps, order, c, pre + (x + post));
    FoldIsFeed(taps, order, c, pre + (y + post));
    MessageBitsAppend(order, pre, x + post);
    MessageBitsAppend(order, x, post);
    MessageBitsAppend(order, pre, y + post);
    MessageBitsAppend(order, y, post);
    if MessageBits(order, x) == MessageBits(order, y) {
      MessageBitsInjective(order, x, y);
    }
    BurstDetected(taps, c, MessageBits(order, pre), MessageBits(order, x), MessageBits(order, y),
                  MessageBits(order, post));
  }

  /** A window of up to four bytes is seen by the storage checksum. */
  lemma Crc32SeesBurst(pre: seq<Byte>, x: seq<Byte>, y: seq<Byte>, post: seq<Byte>)
    requires |x| == |y| <= 4 && x != y
    ensures Crc32Ieee(pre + (x + post)) != Crc32Ieee(pre + (y + post))
  {
    TapsEnterAtTheEnd();
    BurstOfBytesDetected(TAPS32, LsbFirst, Ones(32), pre, x, y, post);
    var f := Fold(TAPS32, LsbFirst, Ones(32), pre + (x + post));
    var g := Fold(TAPS32, LsbFirst, Ones(32), pre + (y + post));
    NumberRoundTrip(Xor(f, Ones(32)));
    NumberRoundTrip(Xor(g, Ones(32)));
    XorTwice(f, Ones(32));
    XorTwice(g, Ones(32));
  }

  /** A window of up to two bytes is seen by the packet checksum. */
  lemma Crc16SeesBurst(pre: seq<Byte>, x: seq<Byte>, y: seq<Byte>, post: seq<Byte>)
    requires |x| == |y| <= 2 && x != y
    ensures Crc16CcittFalse(pre + (x + post)) != Crc16CcittFalse(pre + (y + post))
  {
    TapsEnterAtTheEnd();
    BurstOfBytesDetected(TAPS16, MsbFirst, Ones(16), pre, x, y, post);
    var f := Fold(TAPS16, MsbFirst, Ones(16), pre + (x + post));
    var g := Fold(TAPS16, MsbFirst, Ones(16), pre + (y + post));
    NumberRoundTrip(Reverse(f));
    NumberRoundTrip(Reverse(g));
    ReverseTwice(f);
    ReverseTwice(g);
  }

  lemma XorTwice(a: Word, b: Word)
    requires |a| == |b|
    ensures Xor(Xor(a, b), b) == a
  {
  }
}
