/** Encoding and decoding of the durable image, and what survives them. */
module StorageCodec {
  import opened Options
  import opened Bits
  import opened Checksum
  import opened InputProfiles
  import opened StorageImage

  // ------------------------------------------------------------ decoding

  function DecodeBond(r: seq<Byte>): (out: Result<Option<StoredBond>>)
    requires |r| == BOND_LEN
    ensures out.Success? && out.value.Some? ==> ShapedBond(out.value.value)
  {
    if r[0] == 0 then Success(None)
    else if r[41] > 2 then Failure(InvalidLength)
    else if r[42] > 1 then Failure(InvalidLength)
    else Success(Some(StoredBond(
      r[1..7],
      if r[42] == 0 then Public else Random,
      if r[7] == 0 then None else Some(r[8..24]),
      r[24..40],
      r[40] != 0,
      if r[41] == 0 then NoEncryption else if r[41] == 1 then Encrypted else EncryptedAuthenticated)))
  }

  function DecodeHost(r: seq<Byte>): (out: Result<StoredHost>)
    requires |r| == HOST_LEN
    ensures out.Success? ==> ShapedHost(out.value)
  {
    if r[6] > NAME_LEN then Failure(InvalidName)
    else
      var bond :- DecodeBond(r[40..88]);
      Success(StoredHost(r[0], r[1] != 0, r[2] != 0, r[3] != 0, r[4] != 0, r[5] != 0, FixedName(r[6], r[8..40]), bond))
  }

  predicate GlobalInRange(g: GlobalSettings) {
    g.bootTarget <= 4 && g.switchReleaseDelayMs <= 1000 && g.shortAction <= 3 && g.longAction <= 3
    && g.veryLongAction <= 3 && g.logLevel <= 4
  }

  function DecodeGlobal(r: seq<Byte>): Result<GlobalSettings>
    requires |r| == 12
  {
    var g := GlobalSettings(r[0], r[1] != 0, r[2] != 0, ReadU16(r[3..5]), r[5], r[6], r[7], r[8]);
    if GlobalInRange(g) then Success(g) else Failure(InvalidLength)
  }

  predicate SettingsInRange(s: InputSettings) {
    s.keyboardLayout <= 2 && 10 <= s.mousePercent <= 400 && 10 <= s.scrollPercent <= 400
    && s.consumerFrom <= 1023 && s.consumerTo <= 1023
  }

  function DecodeSettings(r: seq<Byte>): Result<InputSettings>
    requires |r| == 12
  {
    var s := InputSettings(r[0], r[1], r[2], ReadU16(r[4..6]), ReadU16(r[6..8]), ReadU16(r[8..10]), ReadU16(r[10..12]),
                           SHORTCUT_DISABLED);
    if SettingsInRange(s) then Success(s) else Failure(InvalidLength)
  }

  /** Modifier keys cannot be the key of a chord. */
  predicate KeyAllowed(key: Byte) {
    !(0xe0 <= key <= 0xe7)
  }

  function NormalShortcut(s: KeyboardShortcut): KeyboardShortcut {
    if s.key == 0 then SHORTCUT_DISABLED else s
  }

  function ShortcutFromPacked(key: Byte, modifiers: Byte): Option<KeyboardShortcut> {
    if key == 0 then Some(SHORTCUT_DISABLED)
    else if !KeyAllowed(key) then None
    else Some(KeyboardShortcut(modifiers, key))
  }

  function DecodeProfile(r: seq<Byte>): Result<InputProfile>
    requires |r| == PROFILE_LEN
  {
    if !(1 <= r[0] <= CAPACITY) then Failure(InvalidLength)
    else
      var settings :- DecodeSettings(r[24..36]);
      var shortcut := ShortcutFromPacked(r[22], r[23]);
      if shortcut.None? then Failure(InvalidLength)
      else Success(Restored(r[0], InputIdentity(ReadU16(r[2..4]), ReadU16(r[4..6]), ReadU64(r[6..14])),
                            ReadU64(r[14..22]), settings.(shortcut := shortcut.value)))
  }

  function ProfileSlice(image: seq<Byte>, i: nat): (r: seq<Byte>)
    requires |image| >= IMAGE_LEN && i < CAPACITY
    ensures |r| == PROFILE_LEN
  {
    image[PROFILES_AT + i * PROFILE_LEN..PROFILES_AT + i * PROFILE_LEN + PROFILE_LEN]
  }

  function HostSlice(image: seq<Byte>, i: nat): (r: seq<Byte>)
    requires |image| >= IMAGE_LEN && i < HOSTS_MAX
    ensures |r| == HOST_LEN
  {
    image[HOSTS_AT + i * HOST_LEN..HOSTS_AT + i * HOST_LEN + HOST_LEN]
  }

  function AddProfile(before: Result<Registry>, profile: Result<InputProfile>): Result<Registry> {
    if before.Failure? then before
    else if profile.Failure? then Failure(profile.error)
    else
      var after := RestoreInto(before.value, profile.value);
      if after.Ok? then Success(after.value) else Failure(InvalidLength)
  }

  /** Decoded profiles restored in order; the first failure wins. */
  function RestoreAll(profiles: seq<Result<InputProfile>>): Result<Registry> {
    if profiles == [] then Success(EMPTY)
    else AddProfile(RestoreAll(profiles[..|profiles| - 1]), profiles[|profiles| - 1])
  }

  function ProfileResults(image: seq<Byte>, n: nat): (r: seq<Result<InputProfile>>)
    requires |image| >= IMAGE_LEN && n <= CAPACITY
    ensures |r| == n && forall i :: 0 <= i < n ==> r[i] == DecodeProfile(ProfileSlice(image, i))
  {
    seq(n, i requires 0 <= i < n => DecodeProfile(ProfileSlice(image, i)))
  }

  function AddHost(before: Result<seq<StoredHost>>, host: Result<StoredHost>): Result<seq<StoredHost>> {
    if before.Failure? then before
    else if host.Failure? then Failure(host.error)
    else Success(before.value + [host.value])
  }

  function CollectAll(hosts: seq<Result<StoredHost>>): Result<seq<StoredHost>> {
    if hosts == [] then Success([])
    else AddHost(CollectAll(hosts[..|hosts| - 1]), hosts[|hosts| - 1])
  }

  function HostResults(image: seq<Byte>, n: nat): (r: seq<Result<StoredHost>>)
    requires |image| >= IMAGE_LEN && n <= HOSTS_MAX
    ensures |r| == n && forall i :: 0 <= i < n ==> r[i] == DecodeHost(HostSlice(image, i))
  {
    seq(n, i requires 0 <= i < n => DecodeHost(HostSlice(image, i)))
  }

  predicate BodyLenValid(n: nat) {
    BODY_PREFIX_LEN <= n <= BodyLen(HOSTS_MAX) && HEADER_LEN + n <= IMAGE_LEN
  }

  function CoveredBytes(image: seq<Byte>, bodyLen: nat): seq<Byte>
    requires |image| >= HEADER_LEN + bodyLen
  {
    image[..12] + image[16..HEADER_LEN + bodyLen]
  }

  /** Everything the decoder checks before it looks at the body; the answer is
      the number of hosts. */
  function DecodeHeader(image: seq<Byte>): (out: Result<nat>)
    ensures out.Success? ==> |image| >= IMAGE_LEN && out.value <= HOSTS_MAX
  {
    if |image| < IMAGE_LEN then Failure(ImageTooShort)
    else if image[..4] != MAGIC then Failure(InvalidMagic)
    else if ReadU16(image[4..6]) != SCHEMA_VERSION then Failure(UnsupportedVersion)
    else
      var bodyLen := ReadU16(image[6..8]);
      if !BodyLenValid(bodyLen) then Failure(InvalidLength)
      else if ReadU32(image[12..16]) != Crc32Ieee(CoveredBytes(image, bodyLen)) then Failure(CrcMismatch)
      else if image[16] > HOSTS_MAX then Failure(HostCountTooLarge)
      else if BodyLen(image[16]) != bodyLen then Failure(InvalidLength)
      else Success(image[16])
  }

  function DecodeBody(image: seq<Byte>, hostCount: nat): Result<StorageState>
    requires |image| >= IMAGE_LEN && hostCount <= HOSTS_MAX
  {
    var settings :- DecodeGlobal(image[18..30]);
    if image[30] > CAPACITY then Failure(InvalidLength)
    else
      var profiles :- RestoreAll(ProfileResults(image, image[30]));
      var hosts :- CollectAll(HostResults(image, hostCount));
      var s := StorageState(ReadU32(image[8..12]), if image[17] == NO_HOST then None else Some(image[17]),
                            settings, profiles, hosts);
      var _ :- Validate(s);
      Success(s)
  }

  function DecodeImage(image: seq<Byte>): Result<StorageState> {
    var hostCount :- DecodeHeader(image);
    DecodeBody(image, hostCount)
  }

  // ------------------------------------------------ records round trip

  lemma BondRoundTrip(bond: Option<StoredBond>)
    requires bond.Some? ==> ShapedBond(bond.value)
    ensures DecodeBond(BondBytes(bond)) == Success(bond)
  {
    if bond.Some? {
      var b := bond.value;
      BondParts(b.peerAddress, [BoolByte(b.peerIrk.Some?)], if b.peerIrk.Some? then b.peerIrk.value else Nulls(16),
                b.ltk, [BoolByte(b.isBonded), LevelByte(b.level), KindByte(b.kind)], Nulls(5), BondBytes(bond));
    }
  }

  lemma BondParts(address: seq<Byte>, flag: seq<Byte>, irk: seq<Byte>, ltk: seq<Byte>, flags: seq<Byte>, rest: seq<Byte>,
                  r: seq<Byte>)
    requires |address| == 6 && |flag| == 1 && |irk| == 16 && |ltk| == 16 && |flags| == 3 && |rest| == 5
    requires r == [1] + address + flag + irk + ltk + flags + rest
    ensures r[0] == 1 && r[1..7] == address && r[7] == flag[0] && r[8..24] == irk && r[24..40] == ltk
    ensures r[40] == flags[0] && r[41] == flags[1] && r[42] == flags[2]
  {
  }

  lemma HostRoundTrip(h: StoredHost)
    requires ShapedHost(h)
    ensures DecodeHost(HostBytes(h)) == Success(h)
  {
    var r := HostBytes(h);
    assert r[8..40] == h.name.bytes;
    assert r[40..88] == BondBytes(h.bond);
    BondRoundTrip(h.bond);
  }

  lemma GlobalRoundTrip(g: GlobalSettings)
    ensures DecodeGlobal(GlobalBytes(g)) == if GlobalInRange(g) then Success(g) else Failure(InvalidLength)
  {
    assert GlobalBytes(g)[3..5] == U16Bytes(g.switchReleaseDelayMs);
  }

  lemma SettingsRoundTrip(s: InputSettings)
    ensures DecodeSettings(SettingsBytes(s)) ==
      if SettingsInRange(s) then Success(s.(shortcut := SHORTCUT_DISABLED)) else Failure(InvalidLength)
  {
    var head := [s.keyboardLayout, s.remapFrom, s.remapTo, 0];
    FourWords(head, U16Bytes(s.mousePercent), U16Bytes(s.scrollPercent), U16Bytes(s.consumerFrom), U16Bytes(s.consumerTo),
              SettingsBytes(s));
    U16RoundTrip(s.mousePercent, U16Bytes(s.mousePercent));
    U16RoundTrip(s.scrollPercent, U16Bytes(s.scrollPercent));
    U16RoundTrip(s.consumerFrom, U16Bytes(s.consumerFrom));
    U16RoundTrip(s.consumerTo, U16Bytes(s.consumerTo));
  }

  lemma FourWords(head: seq<Byte>, a: seq<Byte>, b: seq<Byte>, c: seq<Byte>, d: seq<Byte>, r: seq<Byte>)
    requires |head| == 4 && |a| == 2 && |b| == 2 && |c| == 2 && |d| == 2 && r == head + a + b + c + d
    ensures r[0] == head[0] && r[1] == head[1] && r[2] == head[2]
    ensures r[4..6] == a && r[6..8] == b && r[8..10] == c && r[10..12] == d
  {
  }

  /** What storage keeps of a profile. */
  function DurableProfile(p: InputProfile): InputProfile {
    Restored(p.id, p.identity, p.lastSeen, p.settings.(shortcut := NormalShortcut(p.settings.shortcut)))
  }

  predicate ProfileInRange(p: InputProfile) {
    SettingsInRange(p.settings) && KeyAllowed(p.settings.shortcut.key)
  }

  lemma ProfileRoundTrip(p: InputProfile)
    requires 1 <= p.id <= CAPACITY
    ensures DecodeProfile(ProfileBytes(p)) ==
      if ProfileInRange(p) then Success(DurableProfile(p)) else Failure(InvalidLength)
  {
    var r := ProfileBytes(p);
    assert r[2..4] == U16Bytes(p.identity.vendorId);
    assert r[4..6] == U16Bytes(p.identity.productId);
    assert r[6..14] == U64Bytes(p.identity.instanceHash);
    assert r[14..22] == U64Bytes(p.lastSeen);
    assert r[22] == p.settings.shortcut.key && r[23] == p.settings.shortcut.modifiers;
    assert r[24..36] == SettingsBytes(p.settings);
    U64RoundTrip(p.identity.instanceHash, r[6..14]);
    U64RoundTrip(p.lastSeen, r[14..22]);
    SettingsRoundTrip(p.settings);
  }
}
