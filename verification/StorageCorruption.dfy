/** A decodable image with any covered byte changed no longer decodes, and the
    bytes after the body never matter. */
module StorageCorruption {
  import opened Bits
  import opened Checksum
  import opened InputProfiles
  import opened StorageImage
  import opened StorageCodec

  /** Number of bytes of an image that the header declares. */
  function TotalLen(image: seq<Byte>): nat
    requires |image| >= IMAGE_LEN
  {
    HEADER_LEN + ReadU16(image[6..8])
  }

  lemma AcceptedHeader(image: seq<Byte>)
    requires DecodeHeader(image).Success?
    ensures |image| >= IMAGE_LEN && image[..4] == MAGIC && ReadU16(image[4..6]) == SCHEMA_VERSION
    ensures TotalLen(image) == HEADER_LEN + BodyLen(image[16]) <= IMAGE_LEN && 368 <= TotalLen(image)
    ensures ReadU32(image[12..16]) == Crc32Ieee(CoveredBytes(image, ReadU16(image[6..8])))
    ensures DecodeHeader(image) == Success(image[16])
  {
  }

  ghost predicate SameOutside(a: seq<Byte>, b: seq<Byte>, lo: nat, hi: nat) {
    lo <= hi <= |a| == |b| && a[..lo] == b[..lo] && a[hi..] == b[hi..]
  }

  lemma SameSlice(a: seq<Byte>, b: seq<Byte>, lo: nat, hi: nat, x: nat, y: nat)
    requires SameOutside(a, b, lo, hi) && x <= y <= |a| && (y <= lo || hi <= x)
    ensures a[x..y] == b[x..y]
  {
    forall k | x <= k < y
      ensures a[k] == b[k]
    {
      if y <= lo {
        assert a[..lo][k] == b[..lo][k];
      } else {
        assert a[hi..][k - hi] == b[hi..][k - hi];
      }
    }
  }

  /** A change of at most four bytes in the generation or in the body changes
      the checksum of the covered bytes. */
  lemma CoveredChanges(a: seq<Byte>, b: seq<Byte>, lo: nat, hi: nat, n: nat)
    requires SameOutside(a, b, lo, hi) && hi - lo <= 4 && a[lo..hi] != b[lo..hi]
    requires HEADER_LEN + n <= |a| && (hi <= 12 || (16 <= lo && hi <= HEADER_LEN + n))
    ensures Crc32Ieee(CoveredBytes(a, n)) != Crc32Ieee(CoveredBytes(b, n))
  {
    var end := HEADER_LEN + n;
    if hi <= 12 {
      SameSlice(a, b, lo, hi, hi, 12);
      SameSlice(a, b, lo, hi, 16, end);
      var post := a[hi..12] + a[16..end];
      assert CoveredBytes(a, n) == a[..lo] + (a[lo..hi] + post);
      assert CoveredBytes(b, n) == a[..lo] + (b[lo..hi] + post);
      Crc32SeesBurst(a[..lo], a[lo..hi], b[lo..hi], post);
    } else {
      SameSlice(a, b, lo, hi, 0, 12);
      SameSlice(a, b, lo, hi, 16, lo);
      SameSlice(a, b, lo, hi, hi, end);
      var pre := a[..12] + a[16..lo];
      assert CoveredBytes(a, n) == pre + (a[lo..hi] + a[hi..end]);
      assert CoveredBytes(b, n) == pre + (b[lo..hi] + a[hi..end]);
      Crc32SeesBurst(pre, a[lo..hi], b[lo..hi], a[hi..end]);
    }
  }

  /** Any change confined to four consecutive bytes of the generation or of the
      body makes decoding fail. */
  lemma BurstRejected(image: seq<Byte>, changed: seq<Byte>, lo: nat, hi: nat)
    requires DecodeImage(image).Success? && SameOutside(image, changed, lo, hi)
    requires hi - lo <= 4 && image[lo..hi] != changed[lo..hi]
    requires (8 <= lo && hi <= 12) || (16 <= lo && hi <= TotalLen(image))
    ensures DecodeImage(changed).Failure?
  {
    AcceptedHeader(image);
    HeaderRejects(image, changed, lo, hi);
  }

  lemma HeaderRejects(image: seq<Byte>, changed: seq<Byte>, lo: nat, hi: nat)
    requires DecodeHeader(image).Success? && SameOutside(image, changed, lo, hi)
    requires hi - lo <= 4 && image[lo..hi] != changed[lo..hi]
    requires (8 <= lo && hi <= 12) || (16 <= lo && hi <= TotalLen(image))
    ensures DecodeHeader(changed).Failure?
  {
    AcceptedHeader(image);
    if DecodeHeader(changed).Success? {
      AcceptedHeader(changed);
      SameSlice(image, changed, lo, hi, 6, 8);
      SameSlice(image, changed, lo, hi, 12, 16);
      CoveredChanges(image, changed, lo, hi, ReadU16(image[6..8]));
    }
  }

  lemma OneByte(image: seq<Byte>, i: nat, b: Byte)
    requires i < |image| && b != image[i]
    ensures SameOutside(image, image[i := b], i, i + 1)
    ensures image[i..i + 1] != image[i := b][i..i + 1]
  {
    assert image[i..i + 1][0] == image[i] && image[i := b][i..i + 1][0] == b;
  }

  /** The slice around a changed byte changes. */
  lemma SliceChanges(image: seq<Byte>, i: nat, b: Byte, x: nat, y: nat)
    requires x <= i < y <= |image| && b != image[i]
    ensures image[i := b][x..y] != image[x..y]
  {
    assert image[i := b][x..y][i - x] == b && image[x..y][i - x] == image[i];
  }

  lemma U16Differs(a: seq<Byte>, b: seq<Byte>)
    requires |a| == |b| == 2 && a != b
    ensures ReadU16(a) != ReadU16(b)
  {
    U16RoundTrip(0, a);
    U16RoundTrip(0, b);
  }

  lemma U32Differs(a: seq<Byte>, b: seq<Byte>)
    requires |a| == |b| == 4 && a != b
    ensures ReadU32(a) != ReadU32(b)
  {
    U32RoundTrip(0, a);
    U32RoundTrip(0, b);
  }

  lemma TagByteRejected(image: seq<Byte>, i: nat, b: Byte)
    requires DecodeHeader(image).Success? && i < 6 && b != image[i]
    ensures DecodeHeader(image[i := b]).Failure?
  {
    AcceptedHeader(image);
    if i < 4 {
      SliceChanges(image, i, b, 0, 4);
    } else {
      SliceChanges(image, i, b, 4, 6);
      U16Differs(image[4..6], image[i := b][4..6]);
    }
  }

  /** A changed length no longer fits the stored number of hosts. */
  lemma LengthByteRejected(image: seq<Byte>, i: nat, b: Byte)
    requires DecodeHeader(image).Success? && 6 <= i < 8 && b != image[i]
    ensures DecodeHeader(image[i := b]).Failure?
  {
    AcceptedHeader(image);
    SliceChanges(image, i, b, 6, 8);
    U16Differs(image[6..8], image[i := b][6..8]);
  }

  lemma ChecksumByteRejected(image: seq<Byte>, i: nat, b: Byte)
    requires DecodeHeader(image).Success? && 12 <= i < 16 && b != image[i]
    ensures DecodeHeader(image[i := b]).Failure?
  {
    var changed := image[i := b];
    AcceptedHeader(image);
    OneByte(image, i, b);
    SliceChanges(image, i, b, 12, 16);
    U32Differs(image[12..16], changed[12..16]);
    SameSlice(image, changed, i, i + 1, 6, 8);
    SameSlice(image, changed, i, i + 1, 0, 12);
    SameSlice(image, changed, i, i + 1, 16, TotalLen(image));
  }

  /** For every image that decodes, changing any one of its declared bytes makes
      decoding fail. */
  lemma SingleByteRejected(image: seq<Byte>, i: nat, b: Byte)
    requires DecodeImage(image).Success? && i < TotalLen(image) && b != image[i]
    ensures i < |image| && DecodeImage(image[i := b]).Failure?
  {
    AcceptedHeader(image);
    if i < 6 {
      TagByteRejected(image, i, b);
    } else if i < 8 {
      LengthByteRejected(image, i, b);
    } else if 12 <= i < 16 {
      ChecksumByteRejected(image, i, b);
    } else {
      OneByte(image, i, b);
      BurstRejected(image, image[i := b], i, i + 1);
    }
  }

  // --------------------------------------------------- the rest is ignored

  ghost predicate SameUpTo(a: seq<Byte>, b: seq<Byte>, n: nat) {
    n <= |a| && n <= |b| && a[..n] == b[..n]
  }

  lemma PrefixSlice(a: seq<Byte>, b: seq<Byte>, n: nat, x: nat, y: nat)
    requires SameUpTo(a, b, n) && x <= y <= n
    ensures a[x..y] == b[x..y]
  {
    assert a[x..y] == a[..n][x..y] && b[x..y] == b[..n][x..y];
  }

  lemma SameProfileSlice(a: seq<Byte>, b: seq<Byte>, i: nat)
    requires |a| >= IMAGE_LEN && |b| >= IMAGE_LEN && SameUpTo(a, b, 368) && i < CAPACITY
    ensures ProfileSlice(a, i) == ProfileSlice(b, i)
  {
    PrefixSlice(a, b, 368, PROFILES_AT + i * PROFILE_LEN, PROFILES_AT + i * PROFILE_LEN + PROFILE_LEN);
  }

  lemma SameHostSlice(a: seq<Byte>, b: seq<Byte>, n: nat, i: nat)
    requires |a| >= IMAGE_LEN && |b| >= IMAGE_LEN && i < n <= HOSTS_MAX && SameUpTo(a, b, HEADER_LEN + BodyLen(n))
    ensures HostSlice(a, i) == HostSlice(b, i)
  {
    PrefixSlice(a, b, HEADER_LEN + BodyLen(n), HOSTS_AT + i * HOST_LEN, HOSTS_AT + i * HOST_LEN + HOST_LEN);
  }

  lemma ProfilesFromPrefix(a: seq<Byte>, b: seq<Byte>, n: nat)
    requires |a| >= IMAGE_LEN && |b| >= IMAGE_LEN && SameUpTo(a, b, 368) && n <= CAPACITY
    ensures ProfileResults(a, n) == ProfileResults(b, n)
  {
    forall i | 0 <= i < n ensures ProfileResults(a, n)[i] == ProfileResults(b, n)[i] {
      SameProfileSlice(a, b, i);
    }
  }

  lemma HostsFromPrefix(a: seq<Byte>, b: seq<Byte>, n: nat)
    requires |a| >= IMAGE_LEN && |b| >= IMAGE_LEN && n <= HOSTS_MAX && SameUpTo(a, b, HEADER_LEN + BodyLen(n))
    ensures HostResults(a, n) == HostResults(b, n)
  {
    forall i | 0 <= i < n ensures HostResults(a, n)[i] == HostResults(b, n)[i] {
      SameHostSlice(a, b, n, i);
    }
  }

  lemma HeaderFromPrefix(image: seq<Byte>, other: seq<Byte>)
    requires DecodeHeader(image).Success? && |other| >= IMAGE_LEN && SameUpTo(image, other, TotalLen(image))
    ensures DecodeHeader(other) == DecodeHeader(image)
  {
    AcceptedHeader(image);
    var n := TotalLen(image);
    PrefixSlice(image, other, n, 0, 4);
    PrefixSlice(image, other, n, 4, 6);
    PrefixSlice(image, other, n, 6, 8);
    PrefixSlice(image, other, n, 12, 16);
    PrefixSlice(image, other, n, 0, 12);
    PrefixSlice(image, other, n, 16, n);
    assert image[16] == image[16..n][0] && other[16] == other[16..n][0];
    assert CoveredBytes(image, n - HEADER_LEN) == CoveredBytes(other, n - HEADER_LEN);
  }

  lemma SameScalars(a: seq<Byte>, b: seq<Byte>)
    requires SameUpTo(a, b, 368)
    ensures a[8..12] == b[8..12] && a[17] == b[17] && a[18..30] == b[18..30] && a[30] == b[30]
  {
    PrefixSlice(a, b, 368, 8, 12);
    PrefixSlice(a, b, 368, 18, 30);
    assert a[17] == a[..368][17] && b[17] == b[..368][17];
    assert a[30] == a[..368][30] && b[30] == b[..368][30];
  }

  /** The decoded state depends only on the declared bytes. */
  lemma DecodeFromPrefix(image: seq<Byte>, other: seq<Byte>)
    requires DecodeImage(image).Success? && |other| >= IMAGE_LEN && SameUpTo(image, other, TotalLen(image))
    ensures DecodeImage(other) == DecodeImage(image)
  {
    AcceptedHeader(image);
    HeaderFromPrefix(image, other);
    PrefixSlice(image, other, TotalLen(image), 0, 368);
    assert SameUpTo(image, other, 368);
    SameScalars(image, other);
    if image[30] <= CAPACITY {
      ProfilesFromPrefix(image, other, image[30]);
    }
    HostsFromPrefix(image, other, image[16]);
    BodyCongruent(image, other, image[16]);
  }

  lemma BodyCongruent(a: seq<Byte>, b: seq<Byte>, hosts: nat)
    requires |a| >= IMAGE_LEN && |b| >= IMAGE_LEN && hosts <= HOSTS_MAX
    requires a[8..12] == b[8..12] && a[17] == b[17] && a[18..30] == b[18..30] && a[30] == b[30]
    requires a[30] <= CAPACITY ==> ProfileResults(a, a[30]) == ProfileResults(b, a[30])
    requires HostResults(a, hosts) == HostResults(b, hosts)
    ensures DecodeBody(a, hosts) == DecodeBody(b, hosts)
  {
  }

  /** Changing a byte after the declared ones changes nothing. */
  lemma TailIgnored(image: seq<Byte>, i: nat, b: Byte)
    requires DecodeImage(image).Success? && TotalLen(image) <= i < |image|
    ensures DecodeImage(image[i := b]) == DecodeImage(image)
  {
    assert image[i := b][..TotalLen(image)] == image[..TotalLen(image)];
    DecodeFromPrefix(image, image[i := b]);
  }
}
