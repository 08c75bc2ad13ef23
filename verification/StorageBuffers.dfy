/** The codec as the firmware runs it: a zeroed buffer filled in place, and
    loops over the stored records. */
module StorageBuffers {
  import opened Options
  import opened Bits
  import opened ByteBuffers
  import opened Checksum
  import opened InputProfiles
  import opened StorageImage
  import opened StorageCodec

  /** `content` holds `done` and nothing after it. */
  ghost predicate Filled(content: seq<Byte>, done: seq<Byte>) {
    |done| <= |content| && content == done + Nulls(|content| - |done|)
  }

  lemma FilledSkips(content: seq<Byte>, done: seq<Byte>, n: nat)
    requires Filled(content, done) && |done| + n <= |content|
    ensures Filled(content, done + Nulls(n))
  {
  }

  /** Writes the next field. */
  method Append(buffer: array<Byte>, ghost done: seq<Byte>, at: nat, bytes: seq<Byte>)
    requires Filled(buffer[..], done) && at == |done| && at + |bytes| <= buffer.Length
    modifies buffer
    ensures Filled(buffer[..], done + bytes)
  {
    CopyInto(buffer, at, bytes);
    AppendFills(old(buffer[..]), done, bytes);
  }

  lemma AppendFills(content: seq<Byte>, done: seq<Byte>, bytes: seq<Byte>)
    requires Filled(content, done) && |done| + |bytes| <= |content|
    ensures Filled(content[..|done|] + bytes + content[|done| + |bytes|..], done + bytes)
  {
    assert content[..|done|] == done;
    assert content[|done| + |bytes|..] == Nulls(|content| - |done| - |bytes|);
  }

  method EncodeBond(buffer: array<Byte>, ghost done: seq<Byte>, at: nat, bond: Option<StoredBond>)
    requires Filled(buffer[..], done) && at == |done| && at + BOND_LEN <= buffer.Length
    requires bond.Some? ==> ShapedBond(bond.value)
    modifies buffer
    ensures Filled(buffer[..], done + BondBytes(bond))
  {
    if bond.None? {
      FilledSkips(buffer[..], done, BOND_LEN);
      return;
    }
    var b := bond.value;
    Append(buffer, done, at, [1] + b.peerAddress + [BoolByte(b.peerIrk.Some?)]);
    ghost var d1 := done + ([1] + b.peerAddress + [BoolByte(b.peerIrk.Some?)]);
    if b.peerIrk.Some? {
      Append(buffer, d1, at + 8, b.peerIrk.value);
    } else {
      FilledSkips(buffer[..], d1, 16);
    }
    ghost var irk := if b.peerIrk.Some? then b.peerIrk.value else Nulls(16);
    ghost var d2 := d1 + irk;
    Append(buffer, d2, at + 24, b.ltk);
    ghost var d3 := d2 + b.ltk;
    var tail := [BoolByte(b.isBonded), LevelByte(b.level), KindByte(b.kind)];
    Append(buffer, d3, at + 40, tail);
    FilledSkips(buffer[..], d3 + tail, 5);
    assert done + BondBytes(bond) == d3 + tail + Nulls(5);
  }

  /** Writes the next two fields. */
  method AppendTwo(buffer: array<Byte>, ghost done: seq<Byte>, at: nat, a: seq<Byte>, b: seq<Byte>)
    requires Filled(buffer[..], done) && at == |done| && at + |a| + |b| <= buffer.Length
    modifies buffer
    ensures Filled(buffer[..], done + (a + b))
  {
    Append(buffer, done, at, a);
    Append(buffer, done + a, at + |a|, b);
    Regroup(done, a, b);
  }

  lemma Regroup(a: seq<Byte>, b: seq<Byte>, c: seq<Byte>)
    ensures (a + b) + c == a + (b + c)
  {
  }

  method EncodeHostRecord(buffer: array<Byte>, ghost done: seq<Byte>, at: nat, h: StoredHost)
    requires Filled(buffer[..], done) && at == |done| && at + HOST_LEN <= buffer.Length && ShapedHost(h)
    modifies buffer
    ensures Filled(buffer[..], done + HostBytes(h))
  {
    var flags := [h.hostId, BoolByte(h.bonded), BoolByte(h.keyboardCccd), BoolByte(h.mouseCccd),
                  BoolByte(h.consumerCccd), BoolByte(h.keyboardOutputCccd), h.name.len, 0];
    AppendTwo(buffer, done, at, flags, h.name.bytes);
    EncodeBond(buffer, done + (flags + h.name.bytes), at + 40, h.bond);
    Regroup(done, flags + h.name.bytes, BondBytes(h.bond));
  }

  method EncodeInputProfile(buffer: array<Byte>, ghost done: seq<Byte>, at: nat, p: InputProfile)
    requires Filled(buffer[..], done) && at == |done| && at + PROFILE_LEN <= buffer.Length
    modifies buffer
    ensures Filled(buffer[..], done + ProfileBytes(p))
  {
    var ids := [p.id, 0] + U16Bytes(p.identity.vendorId) + U16Bytes(p.identity.productId);
    var hash, seen := U64Bytes(p.identity.instanceHash), U64Bytes(p.lastSeen);
    var chord := [p.settings.shortcut.key, p.settings.shortcut.modifiers];
    var settings := SettingsBytes(p.settings);
    AppendFields(buffer, done, at, ids, hash, seen, chord, settings);
  }

  method AppendFields(buffer: array<Byte>, ghost done: seq<Byte>, at: nat,
                      a: seq<Byte>, b: seq<Byte>, c: seq<Byte>, d: seq<Byte>, e: seq<Byte>)
    requires Filled(buffer[..], done) && at == |done| && at + |a| + |b| + |c| + |d| + |e| <= buffer.Length
    modifies buffer
    ensures Filled(buffer[..], done + (a + b + c + d + e))
  {
    AppendTwo(buffer, done, at, a, b);
    AppendTwo(buffer, done + (a + b), at + |a| + |b|, c, d);
    Append(buffer, done + (a + b) + (c + d), at + |a| + |b| + |c| + |d|, e);
    FiveFields(done, a, b, c, d, e);
  }

  lemma FiveFields(done: seq<Byte>, a: seq<Byte>, b: seq<Byte>, c: seq<Byte>, d: seq<Byte>, e: seq<Byte>)
    ensures done + (a + b) + (c + d) + e == done + (a + b + c + d + e)
  {
  }

  method EncodeProfiles(buffer: array<Byte>, ghost done: seq<Byte>, ps: seq<InputProfile>)
    requires Filled(buffer[..], done) && |done| == PROFILES_AT && |ps| <= CAPACITY && buffer.Length == IMAGE_LEN
    modifies buffer
    ensures Filled(buffer[..], done + ProfilesBytes(ps))
  {
    var i := 0;
    assert done + ProfilesBytes(ps[..0]) == done;
    while i < |ps|
      invariant 0 <= i <= |ps|
      invariant Filled(buffer[..], done + ProfilesBytes(ps[..i]))
    {
      EncodeInputProfile(buffer, done + ProfilesBytes(ps[..i]), PROFILES_AT + i * PROFILE_LEN, ps[i]);
      OneMoreProfile(done, ps, i);
      i := i + 1;
    }
    assert ps[..i] == ps;
  }

  lemma OneMoreRecord(done: seq<Byte>, before: seq<seq<Byte>>, after: seq<seq<Byte>>, len: nat)
    requires |after| == |before| + 1 && after[..|before|] == before
    requires forall i :: 0 <= i < |after| ==> |after[i]| == len
    ensures forall i :: 0 <= i < |before| ==> |before[i]| == len
    ensures done + Flat(before, len) + after[|before|] == done + Flat(after, len)
  {
    assert forall i :: 0 <= i < |before| ==> before[i] == after[i];
  }

  lemma OneMoreProfile(done: seq<Byte>, ps: seq<InputProfile>, i: nat)
    requires i < |ps|
    ensures done + ProfilesBytes(ps[..i]) + ProfileBytes(ps[i]) == done + ProfilesBytes(ps[..i + 1])
  {
    assert ProfileRecords(ps[..i + 1])[..i] == ProfileRecords(ps[..i]);
    OneMoreRecord(done, ProfileRecords(ps[..i]), ProfileRecords(ps[..i + 1]), PROFILE_LEN);
  }

  method EncodeHosts(buffer: array<Byte>, ghost done: seq<Byte>, hs: seq<StoredHost>)
    requires Filled(buffer[..], done) && |done| == HOSTS_AT && |hs| <= HOSTS_MAX && buffer.Length == IMAGE_LEN
    requires forall i :: 0 <= i < |hs| ==> ShapedHost(hs[i])
    modifies buffer
    ensures Filled(buffer[..], done + HostsBytes(hs))
  {
    var i := 0;
    assert done + HostsBytes(hs[..0]) == done;
    while i < |hs|
      invariant 0 <= i <= |hs|
      invariant Filled(buffer[..], done + HostsBytes(hs[..i]))
    {
      EncodeHostRecord(buffer, done + HostsBytes(hs[..i]), HOSTS_AT + i * HOST_LEN, hs[i]);
      OneMoreHost(done, hs, i);
      i := i + 1;
    }
    assert hs[..i] == hs;
  }

  lemma OneMoreHost(done: seq<Byte>, hs: seq<StoredHost>, i: nat)
    requires i < |hs| && forall k :: 0 <= k < |hs| ==> ShapedHost(hs[k])
    ensures done + HostsBytes(hs[..i]) + HostBytes(hs[i]) == done + HostsBytes(hs[..i + 1])
  {
    assert HostRecords(hs[..i + 1])[..i] == HostRecords(hs[..i]);
    OneMoreRecord(done, HostRecords(hs[..i]), HostRecords(hs[..i + 1]), HOST_LEN);
  }

  /** Header and fixed prefix, up to the profiles. */
  method EncodeHead(buffer: array<Byte>, s: StorageState) returns (ghost done: seq<Byte>)
    requires Filled(buffer[..], []) && buffer.Length == IMAGE_LEN
    requires |s.hosts| <= HOSTS_MAX && |s.profiles.profiles| <= CAPACITY
    modifies buffer
    ensures Filled(buffer[..], done)
    ensures done == HeadBytes(s) + Nulls(4)
      + ([|s.hosts|, if s.lastActive.Some? then s.lastActive.value else NO_HOST] + GlobalBytes(s.settings)
         + [|s.profiles.profiles|] + Nulls(33))
  {
    Append(buffer, [], 0, HeadBytes(s));
    assert [] + HeadBytes(s) == HeadBytes(s);
    FilledSkips(buffer[..], HeadBytes(s), 4);
    ghost var d := HeadBytes(s) + Nulls(4);
    var ids := [|s.hosts|, if s.lastActive.Some? then s.lastActive.value else NO_HOST];
    Append(buffer, d, 16, ids);
    Append(buffer, d + ids, 18, GlobalBytes(s.settings));
    Append(buffer, d + ids + GlobalBytes(s.settings), 30, [|s.profiles.profiles|]);
    FilledSkips(buffer[..], d + ids + GlobalBytes(s.settings) + [|s.profiles.profiles|], 33);
    done := d + ids + GlobalBytes(s.settings) + [|s.profiles.profiles|] + Nulls(33);
    assert done == d + (ids + GlobalBytes(s.settings) + [|s.profiles.profiles|] + Nulls(33));
  }

  /** Everything but the checksum. */
  method EncodeBody(buffer: array<Byte>, s: StorageState)
    requires Filled(buffer[..], []) && buffer.Length == IMAGE_LEN
    requires Shaped(s) && |s.profiles.profiles| <= CAPACITY
    modifies buffer
    ensures Filled(buffer[..], HeadBytes(s) + Nulls(4) + PrefixBytes(s) + HostsBytes(s.hosts))
  {
    ghost var done := EncodeHead(buffer, s);
    EncodeProfiles(buffer, done, s.profiles.profiles);
    FilledSkips(buffer[..], done + ProfilesBytes(s.profiles.profiles),
                PROFILE_LEN * (CAPACITY - |s.profiles.profiles|) + 16);
    PrefixAssembled(s, done);
    EncodeHosts(buffer, HeadBytes(s) + Nulls(4) + PrefixBytes(s), s.hosts);
  }

  method WriteChecksum(buffer: array<Byte>, s: StorageState)
    requires Shaped(s) && |s.profiles.profiles| <= CAPACITY && buffer.Length == IMAGE_LEN
    requires Filled(buffer[..], HeadBytes(s) + Nulls(4) + PrefixBytes(s) + HostsBytes(s.hosts))
    modifies buffer
    ensures buffer[..] == Image(s)
  {
    var end := HEADER_LEN + BodyLen(|s.hosts|);
    BeforeChecksum(buffer[..], s);
    SealBuffer(buffer, end, HeadBytes(s), BodyBytes(s), Nulls(IMAGE_LEN - end));
  }

  /** Puts the checksum of head and body between them. */
  method SealBuffer(buffer: array<Byte>, end: nat, ghost head: seq<Byte>, ghost body: seq<Byte>, ghost rest: seq<Byte>)
    requires |head| == 12 && end == 16 + |body| && end <= buffer.Length
    requires buffer[..][..12] == head && buffer[..][16..] == body + rest
    modifies buffer
    ensures buffer[..] == head + U32Bytes(Crc32Ieee(head + body)) + (body + rest)
  {
    Covered(buffer[..], end, head, body, rest);
    var crc := Crc32WithoutHeader(buffer[..][..end]);
    CopyInto(buffer, 12, U32Bytes(crc));
  }

  lemma Covered(content: seq<Byte>, end: nat, head: seq<Byte>, body: seq<Byte>, rest: seq<Byte>)
    requires |head| == 12 && end == 16 + |body| && end <= |content|
    requires content[..12] == head && content[16..] == body + rest
    ensures content[..end][..12] == head && content[..end][16..] == body
  {
    assert content[..end][16..] == content[16..][..|body|];
  }

  /** Encoding fails exactly on an invalid state; otherwise the buffer holds the
      image of the state. */
  method EncodeStorageImage(s: StorageState) returns (r: Result<()>, buffer: array<Byte>)
    requires Shaped(s) && |s.profiles.profiles| <= CAPACITY
    ensures r == Validate(s) && fresh(buffer)
    ensures r.Success? ==> buffer[..] == Image(s)
  {
    buffer := new Byte[IMAGE_LEN](_ => 0);
    r := ComputeValidate(s);
    if r.Success? {
      EncodeBody(buffer, s);
      WriteChecksum(buffer, s);
    }
  }

  lemma PrefixAssembled(s: StorageState, done: seq<Byte>)
    requires |s.hosts| <= HOSTS_MAX && |s.profiles.profiles| <= CAPACITY
    requires done == HeadBytes(s) + Nulls(4)
      + ([|s.hosts|, if s.lastActive.Some? then s.lastActive.value else NO_HOST] + GlobalBytes(s.settings)
         + [|s.profiles.profiles|] + Nulls(33))
    ensures done + ProfilesBytes(s.profiles.profiles) + Nulls(PROFILE_LEN * (CAPACITY - |s.profiles.profiles|) + 16)
         == HeadBytes(s) + Nulls(4) + PrefixBytes(s)
  {
  }

  lemma BeforeChecksum(content: seq<Byte>, s: StorageState)
    requires Shaped(s) && |s.profiles.profiles| <= CAPACITY && |content| == IMAGE_LEN
    requires Filled(content, HeadBytes(s) + Nulls(4) + PrefixBytes(s) + HostsBytes(s.hosts))
    ensures var end := HEADER_LEN + BodyLen(|s.hosts|);
      && content[..12] == HeadBytes(s) && content[16..end] == BodyBytes(s)
      && content[16..] == BodyBytes(s) + Nulls(IMAGE_LEN - end)
  {
    var end := HEADER_LEN + BodyLen(|s.hosts|);
    FourParts(content, HeadBytes(s), Nulls(4), PrefixBytes(s), HostsBytes(s.hosts), Nulls(IMAGE_LEN - end));
  }

  lemma FourParts(content: seq<Byte>, head: seq<Byte>, gap: seq<Byte>, prefix: seq<Byte>, hosts: seq<Byte>, rest: seq<Byte>)
    requires |head| == 12 && |gap| == 4
    requires content == head + gap + prefix + hosts + rest
    ensures content[..12] == head
    ensures content[16..16 + |prefix + hosts|] == prefix + hosts && content[16..] == prefix + hosts + rest
  {
    assert content == (head + gap) + (prefix + hosts + rest);
    assert content == (head + gap) + (prefix + hosts) + rest;
  }

  // ------------------------------------------------------------ decoding

  /** The decoder's loops compute the specification. */
  method DecodeStorageImage(image: seq<Byte>) returns (r: Result<StorageState>)
    ensures r == DecodeImage(image)
  {
    var header := DecodeHeader(image);
    if header.Failure? {
      return Failure(header.error);
    }
    var settings := DecodeGlobal(image[18..30]);
    if settings.Failure? {
      return Failure(settings.error);
    }
    if image[30] > CAPACITY {
      return Failure(InvalidLength);
    }
    var profiles := RestoreProfiles(image, image[30]);
    if profiles.Failure? {
      return Failure(profiles.error);
    }
    var hosts := ReadHosts(image, header.value);
    if hosts.Failure? {
      return Failure(hosts.error);
    }
    var s := StorageState(ReadU32(image[8..12]), if image[17] == NO_HOST then None else Some(image[17]),
                          settings.value, profiles.value, hosts.value);
    var valid := ComputeValidate(s);
    r := if valid.Failure? then Failure(valid.error) else Success(s);
  }

  method RestoreProfiles(image: seq<Byte>, n: nat) returns (r: Result<Registry>)
    requires |image| >= IMAGE_LEN && n <= CAPACITY
    ensures r == RestoreAll(ProfileResults(image, n))
  {
    var i := 0;
    r := Success(EMPTY);
    ghost var results := ProfileResults(image, n);
    while i < n && r.Success?
      invariant 0 <= i <= n && r == RestoreAll(results[..i])
    {
      r := AddProfile(r, DecodeProfile(ProfileSlice(image, i)));
      assert results[..i + 1][..i] == results[..i];
      i := i + 1;
    }
    RestoreFailOn(results, i);
    assert i == n ==> results[..i] == results;
  }

  lemma {:induction false} RestoreFailOn(results: seq<Result<InputProfile>>, i: nat)
    requires i <= |results|
    ensures RestoreAll(results[..i]).Failure? ==> RestoreAll(results) == RestoreAll(results[..i])
  {
    if i < |results| {
      var n := |results| - 1;
      RestoreFailOn(results[..n], i);
      assert results[..n][..i] == results[..i];
    } else {
      assert results[..i] == results;
    }
  }

  method ReadHosts(image: seq<Byte>, n: nat) returns (r: Result<seq<StoredHost>>)
    requires |image| >= IMAGE_LEN && n <= HOSTS_MAX
    ensures r == CollectAll(HostResults(image, n))
  {
    var i := 0;
    r := Success([]);
    ghost var results := HostResults(image, n);
    while i < n && r.Success?
      invariant 0 <= i <= n && r == CollectAll(results[..i])
    {
      r := AddHost(r, DecodeHost(HostSlice(image, i)));
      assert results[..i + 1][..i] == results[..i];
      i := i + 1;
    }
    CollectFailOn(results, i);
    assert i == n ==> results[..i] == results;
  }

  lemma {:induction false} CollectFailOn(results: seq<Result<StoredHost>>, i: nat)
    requires i <= |results|
    ensures CollectAll(results[..i]).Failure? ==> CollectAll(results) == CollectAll(results[..i])
  {
    if i < |results| {
      var n := |results| - 1;
      CollectFailOn(results[..n], i);
      assert results[..n][..i] == results[..i];
    } else {
      assert results[..i] == results;
    }
  }
}
