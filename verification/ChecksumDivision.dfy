/** The checksums as remainders: schoolbook long division of the message by the
    generator polynomials of the two standards. */
module ChecksumDivision {
  import opened Bits
  import opened Checksum

  /** A polynomial over two elements, the coefficient of the highest power first. */
  function Polynomial(degree: nat, powers: set<nat>): (w: Word)
    ensures |w| == degree + 1
  {
    seq(degree + 1, i requires 0 <= i <= degree => (degree - i) in powers)
  }

  const POWERS32: set<nat> := {32, 26, 23, 22, 16, 12, 11, 10, 8, 7, 5, 4, 2, 1, 0}
  const POWERS16: set<nat> := {16, 12, 5, 0}

  /** x^32 + x^26 + x^23 + x^22 + x^16 + x^12 + x^11 + x^10 + x^8 + x^7 + x^5 + x^4 + x^2 + x + 1 */
  const GENERATOR32: Word := Polynomial(32, POWERS32)

  /** x^16 + x^12 + x^5 + 1 */
  const GENERATOR16: Word := Polynomial(16, POWERS16)

  /** What long division leaves: as long as the dividend is longer than the remainder,
      the generator is subtracted if the leading bit is one, and the bit is dropped. */
  function Remainder(g: Word, bits: Word): (r: Word)
    requires |g| > 1 && |bits| >= |g| - 1
    ensures |r| == |g| - 1
    decreases |bits|
  {
    if |bits| == |g| - 1 then bits
    else
      var lead := bits[..|g|];
      Remainder(g, (if bits[0] then Xor(lead, g) else lead)[1..] + bits[|g|..])
  }

  /** The message with room for the checksum, and its first bits inverted where the
      register starts with ones. */
  function Dividend(start: Word, message: Word): (r: Word)
    ensures |r| == |start| + |message|
  {
    Xor(start + Zeros(|message|), message + Zeros(|start|))
  }

  /** One division step is one step of the register. */
  lemma DivisionStep(taps: Word, c: Word, m: Word)
    requires |c| == |taps| > 0 && m != []
    ensures var g, bits := [true] + taps, Dividend(c, m);
      (if bits[0] then Xor(bits[..|g|], g) else bits[..|g|])[1..] + bits[|g|..]
      == Dividend(FeedBit(taps, c, m[0]), m[1..])
  {
    var g, bits := [true] + taps, Dividend(c, m);
    var left := (if bits[0] then Xor(bits[..|g|], g) else bits[..|g|])[1..] + bits[|g|..];
    var right := Dividend(FeedBit(taps, c, m[0]), m[1..]);
    var n := |c|;
    forall i | 0 <= i < |right| ensures left[i] == right[i] {
      assert (m + Zeros(n))[i + 1] == (m[1..] + Zeros(n))[i];
      StepBit(taps, c, m[0], |m|, i);
    }
  }

  lemma StepBit(taps: Word, c: Word, m: bool, len: nat, i: nat)
    requires |c| == |taps| > 0 && len > 0 && i < |c| + len - 1
    ensures (FeedBit(taps, c, m) + Zeros(len - 1))[i]
            == ((c + Zeros(len))[i + 1] != (c[0] != m && i < |c| && taps[i]))
  {
  }

  /** Feeding the register divides: it ends with the remainder. */
  lemma {:induction false} FeedDivides(taps: Word, c: Word, m: Word)
    requires |c| == |taps| > 0
    ensures Feed(taps, c, m) == Remainder([true] + taps, Dividend(c, m))
    decreases |m|
  {
    if m == [] {
      assert Dividend(c, m) == c;
    } else {
      DivisionStep(taps, c, m);
      FeedDivides(taps, FeedBit(taps, c, m[0]), m[1..]);
    }
  }

  // ------------------------------------------------------------- generators

  lemma {:induction false} FromBitsSplit(a: Word, b: Word)
    ensures FromBits(a + b) == FromBits(a) + Pow2(|a|) * FromBits(b)
    decreases |a|
  {
    if a == [] {
      assert a + b == b;
    } else {
      assert (a + b)[1..] == a[1..] + b;
      FromBitsSplit(a[1..], b);
      var first := if a[0] then 1 else 0;
      assert FromBits(a + b) == first + 2 * FromBits(a[1..] + b);
      Regroup(first, FromBits(a[1..]), Pow2(|a| - 1), FromBits(b));
    }
  }

  lemma Regroup(first: nat, rest: nat, p: nat, q: nat)
    ensures first + 2 * (rest + p * q) == (first + 2 * rest) + (2 * p) * q
  {
  }

  function Weight(bit: bool, weight: nat): nat {
    if bit then weight else 0
  }

  lemma Nibble(a: bool, b: bool, c: bool, d: bool)
    ensures FromBits([a, b, c, d]) == Weight(a, 1) + Weight(b, 2) + Weight(c, 4) + Weight(d, 8)
  {
    assert [a, b, c, d][1..] == [b, c, d] && [b, c, d][1..] == [c, d] && [c, d][1..] == [d] && [d][1..] == [];
    assert FromBits([d]) == Weight(d, 1);
    assert FromBits([c, d]) == Weight(c, 1) + 2 * FromBits([d]);
    assert FromBits([b, c, d]) == Weight(b, 1) + 2 * FromBits([c, d]);
  }

  /** Four bits of a polynomial as a number. */
  lemma NibbleAt(w: Word, i: nat)
    requires i + 4 <= |w|
    ensures FromBits(w[i..i + 4]) == Weight(w[i], 1) + Weight(w[i + 1], 2) + Weight(w[i + 2], 4) + Weight(w[i + 3], 8)
  {
    Nibble(w[i], w[i + 1], w[i + 2], w[i + 3]);
    assert w[i..i + 4] == [w[i], w[i + 1], w[i + 2], w[i + 3]];
  }

  lemma {:induction false} FourBitsMore(w: Word, i: nat)
    requires i + 4 <= |w|
    ensures FromBits(w[i..]) == FromBits(w[i..i + 4]) + 16 * FromBits(w[i + 4..])
  {
    assert w[i..] == w[i..i + 4] + w[i + 4..];
    FromBitsSplit(w[i..i + 4], w[i + 4..]);
    assert Pow2(4) == 2 * Pow2(3) && Pow2(3) == 2 * Pow2(2) && Pow2(2) == 4;
  }

  /** Sixteen bits as four digits. */
  lemma Digits(w: Word, i: nat)
    requires i + 16 <= |w|
    ensures FromBits(w[i..]) == FromBits(w[i..i + 4]) + 0x10 * FromBits(w[i + 4..i + 8]) + 0x100 * FromBits(w[i + 8..i + 12])
                                + 0x1000 * FromBits(w[i + 12..i + 16]) + 0x1_0000 * FromBits(w[i + 16..])
  {
    FourBitsMore(w, i);
    FourBitsMore(w, i + 4);
    FourBitsMore(w, i + 8);
    FourBitsMore(w, i + 12);
  }

  lemma Number32()
    ensures FromBits(GENERATOR32[1..]) == 0xedb8_8320
  {
    var w := GENERATOR32[1..];
    LowDigits32(w);
    MiddleDigits32(w);
    HighDigits32(w);
    Digits(w, 0);
    Digits(w, 16);
    assert w[0..] == w && w[32..] == [];
  }

  lemma Leads(g: Word)
    requires g != [] && g[0]
    ensures g == [true] + g[1..]
  {
  }

  /** The taps of the register are the generator below its leading power. */
  lemma TapsAreGenerator32()
    ensures [true] + TAPS32 == GENERATOR32
  {
    Number32();
    NumberRoundTrip(GENERATOR32[1..]);
    Leads(GENERATOR32);
  }

  /** The digit of the taps at position `i`: the powers that the generator has there. */
  lemma DigitOf(degree: nat, powers: set<nat>, i: nat, a: bool, b: bool, c: bool, d: bool)
    requires i + 4 <= degree
    requires a == (degree - 1 - i in powers) && b == (degree - 2 - i in powers)
    requires c == (degree - 3 - i in powers) && d == (degree - 4 - i in powers)
    ensures FromBits(Polynomial(degree, powers)[1..][i..i + 4]) == Weight(a, 1) + Weight(b, 2) + Weight(c, 4) + Weight(d, 8)
  {
    NibbleAt(Polynomial(degree, powers)[1..], i);
  }

  lemma LowDigits32(w: Word)
    requires w == GENERATOR32[1..]
    ensures FromBits(w[0..4]) == 0 && FromBits(w[4..8]) == 2
  {
    DigitOf(32, POWERS32, 0, false, false, false, false);
    DigitOf(32, POWERS32, 4, false, true, false, false);
  }

  lemma MiddleDigits32(w: Word)
    requires w == GENERATOR32[1..]
    ensures FromBits(w[8..12]) == 3 && FromBits(w[12..16]) == 8
  {
    DigitOf(32, POWERS32, 8, true, true, false, false);
    DigitOf(32, POWERS32, 12, false, false, false, true);
  }

  lemma HighDigits32(w: Word)
    requires w == GENERATOR32[1..]
    ensures FromBits(w[16..20]) == 8 && FromBits(w[20..24]) == 0xb && FromBits(w[24..28]) == 0xd && FromBits(w[28..32]) == 0xe
  {
    DigitOf(32, POWERS32, 16, false, false, false, true);
    DigitOf(32, POWERS32, 20, true, true, false, true);
    DigitOf(32, POWERS32, 24, true, false, true, true);
    DigitOf(32, POWERS32, 28, false, true, true, true);
  }

  /** The register of CRC-16 shifts the other way: its lowest tap is the last bit. */
  lemma ReversedDigit(i: nat, a: bool, b: bool, c: bool, d: bool)
    requires i + 4 <= 16
    requires a == (i in POWERS16) && b == (i + 1 in POWERS16) && c == (i + 2 in POWERS16) && d == (i + 3 in POWERS16)
    ensures FromBits(Reverse(GENERATOR16[1..])[i..i + 4]) == Weight(a, 1) + Weight(b, 2) + Weight(c, 4) + Weight(d, 8)
  {
    var r := Reverse(GENERATOR16[1..]);
    NibbleAt(r, i);
  }

  lemma Number16()
    ensures FromBits(Reverse(GENERATOR16[1..])) == 0x1021
  {
    var r := Reverse(GENERATOR16[1..]);
    ReversedDigit(0, true, false, false, false);
    ReversedDigit(4, false, true, false, false);
    ReversedDigit(8, false, false, false, false);
    ReversedDigit(12, true, false, false, false);
    Digits(r, 0);
    assert r[0..] == r && r[16..] == [];
  }

  lemma FromNumber(w: Word, v: nat)
    requires FromBits(Reverse(w)) == v
    ensures Reverse(ToBits(v, |w|)) == w
  {
    NumberRoundTrip(Reverse(w));
    ReverseTwice(w);
  }

  lemma TapsAreGenerator16()
    ensures [true] + TAPS16 == GENERATOR16
  {
    Number16();
    FromNumber(GENERATOR16[1..], 0x1021);
    Leads(GENERATOR16);
  }

  // --------------------------------------------------------- both checksums

  /** CRC-32 is the inverted remainder of the inverted-start message, bits taken least
      significant first (section 8 of RFC 1952). */
  lemma Crc32IsRemainder(bytes: seq<Byte>)
    ensures ToBits(Crc32Ieee(bytes), 32) ==
      Xor(Remainder(GENERATOR32, Dividend(Ones(32), MessageBits(LsbFirst, bytes))), Ones(32))
  {
    TapsAreGenerator32();
    FoldIsFeed(TAPS32, LsbFirst, Ones(32), bytes);
    FeedDivides(TAPS32, Ones(32), MessageBits(LsbFirst, bytes));
    NumberRoundTrip(Xor(Fold(TAPS32, LsbFirst, Ones(32), bytes), Ones(32)));
  }

  /** CRC-16 is the remainder itself, bits taken most significant first. */
  lemma Crc16IsRemainder(bytes: seq<Byte>)
    ensures Reverse(ToBits(Crc16CcittFalse(bytes), 16)) ==
      Remainder(GENERATOR16, Dividend(Ones(16), MessageBits(MsbFirst, bytes)))
  {
    TapsAreGenerator16();
    FoldIsFeed(TAPS16, MsbFirst, Ones(16), bytes);
    FeedDivides(TAPS16, Ones(16), MessageBits(MsbFirst, bytes));
    var c := Fold(TAPS16, MsbFirst, Ones(16), bytes);
    NumberRoundTrip(Reverse(c));
    ReverseTwice(c);
  }
}
