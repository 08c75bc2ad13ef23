/** Decoding an encoded state gives exactly its durable part. */
module StorageRoundTrip {
  import opened Options
  import opened Bits
  import opened Checksum
  import opened InputProfiles
  import opened StorageImage
  import opened StorageCodec

  /** The registry that storage gives back: profiles idle and armed, counters
      kept, the next counter above the ones seen. */
  function DurableRegistry(ps: seq<InputProfile>): (r: Registry)
    ensures |r.profiles| == |ps|
    ensures forall i :: 0 <= i < |ps| ==> r.profiles[i] == DurableProfile(ps[i])
  {
    if ps == [] then EMPTY
    else
      var before := DurableRegistry(ps[..|ps| - 1]);
      var last := ps[|ps| - 1];
      Registry(before.profiles + [DurableProfile(last)], Max(before.nextSequence, Next(last.lastSeen)))
  }

  function Durable(s: StorageState): StorageState {
    s.(profiles := DurableRegistry(s.profiles.profiles))
  }

  ghost predicate Encodable(s: StorageState) {
    Shaped(s) && ValidState(s) && WellFormed(s.profiles)
  }

  /** The settings are inside the limits that the decoder enforces. */
  ghost predicate InRange(s: StorageState) {
    && GlobalInRange(s.settings)
    && forall i :: 0 <= i < |s.profiles.profiles| ==> ProfileInRange(s.profiles.profiles[i])
  }

  // -------------------------------------------------------- the regions

  /** `x` lies in `s` at offset `at`. */
  ghost predicate LiesAt(s: seq<Byte>, at: nat, x: seq<Byte>) {
    at + |x| <= |s| && s[at..at + |x|] == x
  }

  lemma LiesInside(s: seq<Byte>, at: nat, x: seq<Byte>, off: nat, y: seq<Byte>)
    requires LiesAt(s, at, x) && LiesAt(x, off, y)
    ensures LiesAt(s, at + off, y)
  {
    forall k | 0 <= k < |y|
      ensures s[at + off + k] == y[k]
    {
      assert y[k] == x[off..off + |y|][k] == x[off + k];
      assert x[off + k] == s[at..at + |x|][off + k];
    }
  }

  /** Where each part of a state lies in its image. */
  ghost predicate Laid(image: seq<Byte>, s: StorageState)
    requires Shaped(s) && |s.profiles.profiles| <= CAPACITY
  {
    && |image| == IMAGE_LEN
    && LiesAt(image, 0, HeadBytes(s)) && LiesAt(image, 16, BodyBytes(s))
    && LiesAt(image, 12, U32Bytes(Crc32Ieee(HeadBytes(s) + BodyBytes(s))))
  }

  lemma ImageIsLaid(s: StorageState)
    requires Shaped(s) && |s.profiles.profiles| <= CAPACITY
    ensures Laid(Image(s), s)
  {
    PartsLie(HeadBytes(s), U32Bytes(Crc32Ieee(HeadBytes(s) + BodyBytes(s))), BodyBytes(s),
             Nulls(IMAGE_LEN - HEADER_LEN - BodyLen(|s.hosts|)), Image(s));
  }

  lemma PartsLie(head: seq<Byte>, crc: seq<Byte>, body: seq<Byte>, rest: seq<Byte>, image: seq<Byte>)
    requires |head| == 12 && |crc| == 4 && image == head + crc + (body + rest)
    ensures LiesAt(image, 0, head) && LiesAt(image, 12, crc) && LiesAt(image, 16, body)
  {
    ThreeParts(head, crc, body, rest);
  }

  lemma ThreeParts(a: seq<Byte>, b: seq<Byte>, c: seq<Byte>, d: seq<Byte>)
    ensures LiesAt(a + b + (c + d), 0, a)
    ensures LiesAt(a + b + (c + d), |a|, b)
    ensures LiesAt(a + b + (c + d), |a| + |b|, c)
  {
  }

  lemma HeadFields(s: StorageState)
    requires |s.hosts| <= HOSTS_MAX
    ensures LiesAt(HeadBytes(s), 0, MAGIC)
    ensures LiesAt(HeadBytes(s), 4, U16Bytes(SCHEMA_VERSION))
    ensures LiesAt(HeadBytes(s), 6, U16Bytes(BodyLen(|s.hosts|)))
    ensures LiesAt(HeadBytes(s), 8, U32Bytes(s.generation))
  {
    HeadParts(MAGIC, U16Bytes(SCHEMA_VERSION), U16Bytes(BodyLen(|s.hosts|)), U32Bytes(s.generation), HeadBytes(s));
  }

  lemma HeadParts(magic: seq<Byte>, version: seq<Byte>, len: seq<Byte>, generation: seq<Byte>, head: seq<Byte>)
    requires |magic| == 4 && |version| == 2 && |len| == 2 && |generation| == 4
    requires head == magic + version + len + generation
    ensures LiesAt(head, 0, magic) && LiesAt(head, 4, version) && LiesAt(head, 6, len) && LiesAt(head, 8, generation)
  {
  }

  lemma BodyFields(s: StorageState)
    requires Shaped(s) && |s.profiles.profiles| <= CAPACITY
    ensures var ps := s.profiles.profiles;
      && LiesAt(BodyBytes(s), 0, [|s.hosts|, if s.lastActive.Some? then s.lastActive.value else NO_HOST])
      && LiesAt(BodyBytes(s), 2, GlobalBytes(s.settings))
      && LiesAt(BodyBytes(s), 14, [|ps|])
      && LiesAt(BodyBytes(s), 48, ProfilesBytes(ps))
      && LiesAt(BodyBytes(s), 352, HostsBytes(s.hosts))
  {
    PrefixFields(s);
    var p := PrefixBytes(s);
    assert LiesAt(BodyBytes(s), 0, p);
    LiesInside(BodyBytes(s), 0, p, 0, [|s.hosts|, if s.lastActive.Some? then s.lastActive.value else NO_HOST]);
    LiesInside(BodyBytes(s), 0, p, 2, GlobalBytes(s.settings));
    LiesInside(BodyBytes(s), 0, p, 14, [|s.profiles.profiles|]);
    LiesInside(BodyBytes(s), 0, p, 48, ProfilesBytes(s.profiles.profiles));
  }

  lemma PrefixFields(s: StorageState)
    requires |s.hosts| <= HOSTS_MAX && |s.profiles.profiles| <= CAPACITY
    ensures var ps := s.profiles.profiles;
      && LiesAt(PrefixBytes(s), 0, [|s.hosts|, if s.lastActive.Some? then s.lastActive.value else NO_HOST])
      && LiesAt(PrefixBytes(s), 2, GlobalBytes(s.settings))
      && LiesAt(PrefixBytes(s), 14, [|ps|])
      && LiesAt(PrefixBytes(s), 48, ProfilesBytes(ps))
  {
    var ps := s.profiles.profiles;
    PrefixParts([|s.hosts|, if s.lastActive.Some? then s.lastActive.value else NO_HOST], GlobalBytes(s.settings),
                [|ps|], Nulls(33), ProfilesBytes(ps), Nulls(PROFILE_LEN * (CAPACITY - |ps|) + 16), PrefixBytes(s));
  }

  lemma PrefixParts(counts: seq<Byte>, settings: seq<Byte>, n: seq<Byte>, gap: seq<Byte>, profiles: seq<Byte>,
                    rest: seq<Byte>, prefix: seq<Byte>)
    requires |counts| == 2 && |settings| == 12 && |n| == 1 && |gap| == 33
    requires prefix == counts + settings + n + gap + (profiles + rest)
    ensures LiesAt(prefix, 0, counts) && LiesAt(prefix, 2, settings) && LiesAt(prefix, 14, n) && LiesAt(prefix, 48, profiles)
  {
  }

  lemma {:induction false} RecordLiesAt(records: seq<seq<Byte>>, len: nat, i: nat)
    requires i < |records| && forall k :: 0 <= k < |records| ==> |records[k]| == len
    ensures LiesAt(Flat(records, len), Row(len, i), records[i])
    decreases |records|
  {
    var n := |records| - 1;
    var before, last := Flat(records[..n], len), records[n];
    Appended(before, last);
    if i < n {
      RecordLiesAt(records[..n], len, i);
      LiesInside(before + last, 0, before, Row(len, i), records[i]);
    }
  }

  lemma Appended(a: seq<Byte>, b: seq<Byte>)
    ensures LiesAt(a + b, 0, a) && LiesAt(a + b, |a|, b)
  {
  }

  lemma InsideBody(image: seq<Byte>, body: seq<Byte>, at: nat, rows: seq<Byte>, row: nat, record: seq<Byte>)
    requires LiesAt(image, 16, body) && LiesAt(body, at, rows) && LiesAt(rows, row, record)
    ensures LiesAt(image, 16 + at + row, record)
  {
    LiesInside(body, at, rows, row, record);
    LiesInside(image, 16, body, at + row, record);
  }

  lemma ProfileSliceOf(image: seq<Byte>, body: seq<Byte>, ps: seq<InputProfile>, i: nat)
    requires |image| == IMAGE_LEN && i < |ps| <= CAPACITY
    requires LiesAt(image, 16, body) && LiesAt(body, 48, ProfilesBytes(ps))
    ensures ProfileSlice(image, i) == ProfileBytes(ps[i])
  {
    var records := ProfileRecords(ps);
    RecordLiesAt(records, PROFILE_LEN, i);
    ProfileRow(i);
    InsideBody(image, body, 48, ProfilesBytes(ps), i * PROFILE_LEN, records[i]);
  }

  lemma HostSliceOf(image: seq<Byte>, body: seq<Byte>, hs: seq<StoredHost>, i: nat)
    requires |image| == IMAGE_LEN && i < |hs| <= HOSTS_MAX && forall k :: 0 <= k < |hs| ==> ShapedHost(hs[k])
    requires LiesAt(image, 16, body) && LiesAt(body, 352, HostsBytes(hs))
    ensures HostSlice(image, i) == HostBytes(hs[i])
  {
    var records := HostRecords(hs);
    RecordLiesAt(records, HOST_LEN, i);
    HostRow(i);
    InsideBody(image, body, 352, HostsBytes(hs), i * HOST_LEN, records[i]);
  }

  /** Every profile lies in its 36-byte row and every host in its 88-byte row; the
      rows are disjoint, one after the other. */
  lemma RecordsAreLaid(s: StorageState)
    requires Shaped(s) && |s.profiles.profiles| <= CAPACITY
    ensures forall i :: 0 <= i < |s.profiles.profiles| ==> ProfileSlice(Image(s), i) == ProfileBytes(s.profiles.profiles[i])
    ensures forall i :: 0 <= i < |s.hosts| ==> HostSlice(Image(s), i) == HostBytes(s.hosts[i])
  {
    ImageIsLaid(s);
    BodyFields(s);
    forall i | 0 <= i < |s.profiles.profiles| ensures ProfileSlice(Image(s), i) == ProfileBytes(s.profiles.profiles[i]) {
      ProfileSliceOf(Image(s), BodyBytes(s), s.profiles.profiles, i);
    }
    forall i | 0 <= i < |s.hosts| ensures HostSlice(Image(s), i) == HostBytes(s.hosts[i]) {
      HostSliceOf(Image(s), BodyBytes(s), s.hosts, i);
    }
  }

  // ------------------------------------------------------- decoding back

  lemma HeadScalars(image: seq<Byte>, head: seq<Byte>, len: U16, generation: U32)
    requires |image| == IMAGE_LEN && LiesAt(image, 0, head)
    requires LiesAt(head, 0, MAGIC) && LiesAt(head, 4, U16Bytes(SCHEMA_VERSION))
    requires LiesAt(head, 6, U16Bytes(len)) && LiesAt(head, 8, U32Bytes(generation))
    ensures image[..4] == MAGIC && image[4..6] == U16Bytes(SCHEMA_VERSION)
    ensures image[6..8] == U16Bytes(len) && image[8..12] == U32Bytes(generation)
  {
    LiesInside(image, 0, head, 0, MAGIC);
    LiesInside(image, 0, head, 4, U16Bytes(SCHEMA_VERSION));
    LiesInside(image, 0, head, 6, U16Bytes(len));
    LiesInside(image, 0, head, 8, U32Bytes(generation));
  }

  lemma HeaderSlices(image: seq<Byte>, s: StorageState)
    requires Shaped(s) && |s.profiles.profiles| <= CAPACITY && Laid(image, s)
    ensures image[..4] == MAGIC && image[4..6] == U16Bytes(SCHEMA_VERSION)
    ensures image[6..8] == U16Bytes(BodyLen(|s.hosts|)) && image[8..12] == U32Bytes(s.generation)
  {
    HeadFields(s);
    HeadScalars(image, HeadBytes(s), BodyLen(|s.hosts|), s.generation);
  }

  lemma BodyScalars(image: seq<Byte>, body: seq<Byte>, n: Byte, active: Byte, g: GlobalSettings, count: Byte)
    requires |image| == IMAGE_LEN && LiesAt(image, 16, body)
    requires LiesAt(body, 0, [n, active]) && LiesAt(body, 2, GlobalBytes(g)) && LiesAt(body, 14, [count])
    ensures image[16] == n && image[17] == active && image[18..30] == GlobalBytes(g) && image[30] == count
  {
    LiesInside(image, 16, body, 0, [n, active]);
    assert image[16] == image[16..18][0] && image[17] == image[16..18][1];
    LiesInside(image, 16, body, 2, GlobalBytes(g));
    LiesInside(image, 16, body, 14, [count]);
    assert image[30] == image[30..31][0];
  }

  lemma ScalarSlices(image: seq<Byte>, s: StorageState)
    requires Shaped(s) && |s.profiles.profiles| <= CAPACITY && Laid(image, s)
    ensures image[16] == |s.hosts| && image[17] == (if s.lastActive.Some? then s.lastActive.value else NO_HOST)
    ensures image[18..30] == GlobalBytes(s.settings) && image[30] == |s.profiles.profiles|
  {
    BodyFields(s);
    BodyScalars(image, BodyBytes(s), |s.hosts|, if s.lastActive.Some? then s.lastActive.value else NO_HOST,
                s.settings, |s.profiles.profiles|);
  }

  lemma AllProfilesRead(image: seq<Byte>, body: seq<Byte>, r: Registry)
    requires |image| == IMAGE_LEN && WellFormed(r)
    requires LiesAt(image, 16, body) && LiesAt(body, 48, ProfilesBytes(r.profiles))
    ensures ProfilesRead(ProfileResults(image, |r.profiles|), r.profiles)
  {
    var ps := r.profiles;
    forall i | 0 <= i < |ps|
      ensures ProfileResults(image, |ps|)[i] == if ProfileInRange(ps[i]) then Success(DurableProfile(ps[i])) else Failure(InvalidLength)
    {
      ProfileSliceOf(image, body, ps, i);
      ProfileRoundTrip(ps[i]);
    }
  }

  lemma AllHostsRead(image: seq<Byte>, body: seq<Byte>, hs: seq<StoredHost>)
    requires |image| == IMAGE_LEN && |hs| <= HOSTS_MAX && forall k :: 0 <= k < |hs| ==> ShapedHost(hs[k])
    requires LiesAt(image, 16, body) && LiesAt(body, 352, HostsBytes(hs))
    ensures forall i :: 0 <= i < |hs| ==> HostResults(image, |hs|)[i] == Success(hs[i])
  {
    forall i | 0 <= i < |hs| ensures HostResults(image, |hs|)[i] == Success(hs[i]) {
      HostSliceOf(image, body, hs, i);
      HostRoundTrip(hs[i]);
    }
  }

  lemma CoveredIsHeadAndBody(image: seq<Byte>, head: seq<Byte>, body: seq<Byte>)
    requires |head| == 12 && LiesAt(image, 0, head) && LiesAt(image, 16, body)
    ensures CoveredBytes(image, |body|) == head + body
  {
  }

  lemma HeaderDecodes(image: seq<Byte>, s: StorageState)
    requires Shaped(s) && |s.profiles.profiles| <= CAPACITY && Laid(image, s)
    ensures DecodeHeader(image) == Success(|s.hosts|)
  {
    HeaderSlices(image, s);
    ScalarSlices(image, s);
    CoveredIsHeadAndBody(image, HeadBytes(s), BodyBytes(s));
    ChecksumSlice(image, Crc32Ieee(HeadBytes(s) + BodyBytes(s)));
    HeaderAccepted(image, |s.hosts|);
  }

  lemma ChecksumSlice(image: seq<Byte>, crc: U32)
    requires LiesAt(image, 12, U32Bytes(crc))
    ensures ReadU32(image[12..16]) == crc
  {
    U32RoundTrip(crc, image[12..16]);
  }

  lemma HeaderAccepted(image: seq<Byte>, n: nat)
    requires |image| == IMAGE_LEN && n <= HOSTS_MAX
    requires image[..4] == MAGIC && image[4..6] == U16Bytes(SCHEMA_VERSION) && image[6..8] == U16Bytes(BodyLen(n))
    requires ReadU32(image[12..16]) == Crc32Ieee(CoveredBytes(image, BodyLen(n))) && image[16] == n
    ensures DecodeHeader(image) == Success(n)
  {
    U16RoundTrip(BodyLen(n), image[6..8]);
    U16RoundTrip(SCHEMA_VERSION, image[4..6]);
  }

  ghost predicate FirstInRange(ps: seq<InputProfile>, n: nat)
    requires n <= |ps|
  {
    forall i :: 0 <= i < n ==> ProfileInRange(ps[i])
  }

  /** How each profile of the table decodes. */
  ghost predicate ProfilesRead(results: seq<Result<InputProfile>>, ps: seq<InputProfile>) {
    && |results| == |ps|
    && forall i :: 0 <= i < |ps| ==>
      results[i] == if ProfileInRange(ps[i]) then Success(DurableProfile(ps[i])) else Failure(InvalidLength)
  }

  lemma RestoreStep(results: seq<Result<InputProfile>>, n: nat)
    requires n < |results|
    ensures RestoreAll(results[..n + 1]) == AddProfile(RestoreAll(results[..n]), results[n])
  {
    assert results[..n + 1][..n] == results[..n];
  }

  /** One more profile: it decodes and fits, or everything fails. */
  lemma ProfileRestores(results: seq<Result<InputProfile>>, r: Registry, n: nat)
    requires ProfilesRead(results, r.profiles) && WellFormed(r) && n < |r.profiles|
    ensures AddProfile(Success(DurableRegistry(r.profiles[..n])), results[n]) ==
      if ProfileInRange(r.profiles[n]) then Success(DurableRegistry(r.profiles[..n + 1])) else Failure(InvalidLength)
  {
    NoDuplicate(r, n);
  }

  lemma {:induction false} ProfilesRestore(results: seq<Result<InputProfile>>, r: Registry, n: nat)
    requires ProfilesRead(results, r.profiles) && WellFormed(r) && n <= |r.profiles|
    ensures RestoreAll(results[..n]) ==
      if FirstInRange(r.profiles, n) then Success(DurableRegistry(r.profiles[..n])) else Failure(InvalidLength)
  {
    if n > 0 {
      ProfilesRestore(results, r, n - 1);
      RestoreStep(results, n - 1);
      ProfileRestores(results, r, n - 1);
      OneMoreInRange(r.profiles, n - 1);
    }
  }

  lemma OneMoreInRange(ps: seq<InputProfile>, n: nat)
    requires n < |ps|
    ensures FirstInRange(ps, n + 1) <==> FirstInRange(ps, n) && ProfileInRange(ps[n])
  {
  }

  lemma NoDuplicate(r: Registry, n: nat)
    requires WellFormed(r) && n < |r.profiles|
    ensures RestoreInto(DurableRegistry(r.profiles[..n]), DurableProfile(r.profiles[n]))
         == Ok(DurableRegistry(r.profiles[..n + 1]))
  {
    assert r.profiles[..n + 1][..n] == r.profiles[..n];
    assert r.profiles[..n + 1][n] == r.profiles[n];
  }

  lemma {:induction false} HostsCollect(results: seq<Result<StoredHost>>, hs: seq<StoredHost>, n: nat)
    requires |results| == |hs| && (forall i :: 0 <= i < |hs| ==> results[i] == Success(hs[i])) && n <= |hs|
    ensures CollectAll(results[..n]) == Success(hs[..n])
  {
    if n > 0 {
      HostsCollect(results, hs, n - 1);
      assert results[..n][..n - 1] == results[..n - 1];
      assert hs[..n] == hs[..n - 1] + [hs[n - 1]];
    }
  }

  lemma ScalarsDecode(image: seq<Byte>, s: StorageState)
    requires Encodable(s) && Laid(image, s)
    ensures ReadU32(image[8..12]) == s.generation
    ensures image[17] == (if s.lastActive.Some? then s.lastActive.value else NO_HOST)
    ensures DecodeGlobal(image[18..30]) == (if GlobalInRange(s.settings) then Success(s.settings) else Failure(InvalidLength))
    ensures image[30] == |s.profiles.profiles|
  {
    HeaderSlices(image, s);
    U32RoundTrip(s.generation, image[8..12]);
    ScalarSlices(image, s);
    GlobalRoundTrip(s.settings);
  }

  lemma AllProfilesDecode(image: seq<Byte>, body: seq<Byte>, r: Registry)
    requires |image| == IMAGE_LEN && WellFormed(r)
    requires LiesAt(image, 16, body) && LiesAt(body, 48, ProfilesBytes(r.profiles))
    ensures RestoreAll(ProfileResults(image, |r.profiles|)) ==
      (if FirstInRange(r.profiles, |r.profiles|) then Success(DurableRegistry(r.profiles)) else Failure(InvalidLength))
  {
    AllProfilesRead(image, body, r);
    ProfilesRestoreAll(ProfileResults(image, |r.profiles|), r);
  }

  lemma ProfilesRestoreAll(results: seq<Result<InputProfile>>, r: Registry)
    requires ProfilesRead(results, r.profiles) && WellFormed(r)
    ensures RestoreAll(results) ==
      if FirstInRange(r.profiles, |r.profiles|) then Success(DurableRegistry(r.profiles)) else Failure(InvalidLength)
  {
    ProfilesRestore(results, r, |r.profiles|);
    Whole(results);
    Whole(r.profiles);
  }

  lemma Whole<T>(s: seq<T>)
    ensures s[..|s|] == s
  {
  }

  lemma AllHostsDecode(image: seq<Byte>, body: seq<Byte>, hs: seq<StoredHost>)
    requires |image| == IMAGE_LEN && |hs| <= HOSTS_MAX && forall k :: 0 <= k < |hs| ==> ShapedHost(hs[k])
    requires LiesAt(image, 16, body) && LiesAt(body, 352, HostsBytes(hs))
    ensures CollectAll(HostResults(image, |hs|)) == Success(hs)
  {
    var n, results := |hs|, HostResults(image, |hs|);
    AllHostsRead(image, body, hs);
    HostsCollect(results, hs, n);
    assert hs[..n] == hs && results[..n] == results;
  }

  lemma BodyDecodes(image: seq<Byte>, s: StorageState)
    requires Encodable(s) && Laid(image, s)
    ensures DecodeBody(image, |s.hosts|) == if InRange(s) then Success(Durable(s)) else Failure(InvalidLength)
  {
    ScalarsDecode(image, s);
    BodyFields(s);
    AllProfilesDecode(image, BodyBytes(s), s.profiles);
    AllHostsDecode(image, BodyBytes(s), s.hosts);
    DurableIsValid(s);
    BodyAccepted(image, s);
  }

  lemma BodyAccepted(image: seq<Byte>, s: StorageState)
    requires |image| == IMAGE_LEN && ValidState(s) && ValidState(Durable(s)) && |s.hosts| <= HOSTS_MAX
    requires ReadU32(image[8..12]) == s.generation
    requires image[17] == (if s.lastActive.Some? then s.lastActive.value else NO_HOST)
    requires DecodeGlobal(image[18..30]) == (if GlobalInRange(s.settings) then Success(s.settings) else Failure(InvalidLength))
    requires image[30] == |s.profiles.profiles| <= CAPACITY
    requires RestoreAll(ProfileResults(image, image[30])) ==
      (if FirstInRange(s.profiles.profiles, |s.profiles.profiles|)
       then Success(DurableRegistry(s.profiles.profiles)) else Failure(InvalidLength))
    requires CollectAll(HostResults(image, |s.hosts|)) == Success(s.hosts)
    ensures DecodeBody(image, |s.hosts|) ==
      if GlobalInRange(s.settings) && FirstInRange(s.profiles.profiles, |s.profiles.profiles|)
      then Success(Durable(s)) else Failure(InvalidLength)
  {
  }

  lemma DurableIsValid(s: StorageState)
    requires ValidState(s)
    ensures ValidState(Durable(s))
  {
  }

  /** Decoding an encoded state succeeds exactly when its settings are in range,
      and then gives its durable part. */
  lemma DecodeOfEncode(s: StorageState)
    requires Encodable(s)
    ensures DecodeImage(Image(s)).Success? <==> InRange(s)
    ensures InRange(s) ==> DecodeImage(Image(s)) == Success(Durable(s))
  {
    ImageIsLaid(s);
    HeaderDecodes(Image(s), s);
    BodyDecodes(Image(s), s);
  }

  /** The restored counter lies above every restored use counter exactly when
      none of them is the largest 64-bit number. */
  lemma {:induction false} NextAboveAllSeen(ps: seq<InputProfile>)
    ensures var r := DurableRegistry(ps);
      (forall i :: 0 <= i < |ps| ==> ps[i].lastSeen < r.nextSequence)
      <==> (forall i :: 0 <= i < |ps| ==> ps[i].lastSeen != 0xffff_ffff_ffff_ffff)
    decreases |ps|
  {
    if ps != [] {
      var n := |ps| - 1;
      NextAboveAllSeen(ps[..n]);
      var before, r := DurableRegistry(ps[..n]), DurableRegistry(ps);
      assert forall i :: 0 <= i < n ==> ps[..n][i] == ps[i];
      assert ps[n].lastSeen < r.nextSequence || ps[n].lastSeen == 0xffff_ffff_ffff_ffff;
    }
  }

  /** A profile with the largest use number wraps the counter to zero, below it. */
  lemma CounterCanWrap(p: InputProfile)
    requires p.lastSeen == 0xffff_ffff_ffff_ffff
    ensures DurableRegistry([p]).nextSequence < p.lastSeen
  {
    assert [p][..0] == [];
    assert DurableRegistry([p][..0]) == DurableRegistry([]);
  }
}
