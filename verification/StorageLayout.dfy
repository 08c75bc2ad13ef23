/** Where each field lies in the image: the byte offsets that other versions of the
    firmware rely on. Numbers are little-endian. */
module StorageLayout {
  import opened Options
  import opened Bits
  import opened Checksum
  import opened InputProfiles
  import opened StorageImage
  import opened StorageCodec
  import opened StorageRoundTrip

  // ----------------------------------------------------------------- records

  lemma GlobalFields(g: GlobalSettings)
    ensures var r := GlobalBytes(g);
      && r[0] == g.bootTarget && (r[1] == if g.restoreLastTarget then 1 else 0) && (r[2] == if g.autoReconnect then 1 else 0)
      && Little(r[3..5]) == g.switchReleaseDelayMs
      && r[5] == g.shortAction && r[6] == g.longAction && r[7] == g.veryLongAction && r[8] == g.logLevel
  {
    Little16(g.switchReleaseDelayMs);
    assert GlobalBytes(g)[3..5] == U16Bytes(g.switchReleaseDelayMs);
  }

  lemma SettingsFields(s: InputSettings)
    ensures var r := SettingsBytes(s);
      && r[0] == s.keyboardLayout && r[1] == s.remapFrom && r[2] == s.remapTo
      && Little(r[4..6]) == s.mousePercent && Little(r[6..8]) == s.scrollPercent
      && Little(r[8..10]) == s.consumerFrom && Little(r[10..12]) == s.consumerTo
  {
    FourWords([s.keyboardLayout, s.remapFrom, s.remapTo, 0], U16Bytes(s.mousePercent), U16Bytes(s.scrollPercent),
              U16Bytes(s.consumerFrom), U16Bytes(s.consumerTo), SettingsBytes(s));
    Little16(s.mousePercent);
    Little16(s.scrollPercent);
    Little16(s.consumerFrom);
    Little16(s.consumerTo);
  }

  lemma ProfileFields(p: InputProfile)
    ensures var r := ProfileBytes(p);
      && r[0] == p.id && Little(r[2..4]) == p.identity.vendorId && Little(r[4..6]) == p.identity.productId
      && Little(r[6..14]) == p.identity.instanceHash && Little(r[14..22]) == p.lastSeen
      && r[22] == p.settings.shortcut.key && r[23] == p.settings.shortcut.modifiers
      && r[24..36] == SettingsBytes(p.settings)
  {
    ProfileParts([p.id, 0], U16Bytes(p.identity.vendorId), U16Bytes(p.identity.productId), U64Bytes(p.identity.instanceHash),
                 U64Bytes(p.lastSeen), [p.settings.shortcut.key, p.settings.shortcut.modifiers], SettingsBytes(p.settings),
                 ProfileBytes(p));
    Little16(p.identity.vendorId);
    Little16(p.identity.productId);
    Little64(p.identity.instanceHash);
    Little64(p.lastSeen);
  }

  lemma ProfileParts(id: seq<Byte>, vendor: seq<Byte>, product: seq<Byte>, hash: seq<Byte>, seen: seq<Byte>,
                     chord: seq<Byte>, settings: seq<Byte>, r: seq<Byte>)
    requires |id| == 2 && |vendor| == 2 && |product| == 2 && |hash| == 8 && |seen| == 8 && |chord| == 2 && |settings| == 12
    requires r == id + vendor + product + hash + seen + chord + settings
    ensures r[0] == id[0] && r[2..4] == vendor && r[4..6] == product && r[6..14] == hash && r[14..22] == seen
    ensures r[22] == chord[0] && r[23] == chord[1] && r[24..36] == settings
  {
  }

  lemma HostFields(h: StoredHost)
    requires ShapedHost(h)
    ensures var r := HostBytes(h);
      && r[0] == h.hostId && (r[1] == if h.bonded then 1 else 0)
      && (r[2] == if h.keyboardCccd then 1 else 0) && (r[3] == if h.mouseCccd then 1 else 0)
      && (r[4] == if h.consumerCccd then 1 else 0) && (r[5] == if h.keyboardOutputCccd then 1 else 0)
      && r[6] == h.name.len && r[8..40] == h.name.bytes && r[40..88] == BondBytes(h.bond)
  {
  }

  lemma BondFields(b: StoredBond)
    requires ShapedBond(b)
    ensures var r := BondBytes(Some(b));
      && r[0] == 1 && r[1..7] == b.peerAddress && (r[7] == if b.peerIrk.Some? then 1 else 0)
      && (b.peerIrk.Some? ==> r[8..24] == b.peerIrk.value) && r[24..40] == b.ltk
      && (r[40] == if b.isBonded then 1 else 0)
      && (r[41] == if b.level == NoEncryption then 0 else if b.level == Encrypted then 1 else 2)
      && (r[42] == if b.kind == Public then 0 else 1)
    ensures BondBytes(None)[0] == 0
  {
    BondParts(b.peerAddress, [BoolByte(b.peerIrk.Some?)], if b.peerIrk.Some? then b.peerIrk.value else Nulls(16),
              b.ltk, [BoolByte(b.isBonded), LevelByte(b.level), KindByte(b.kind)], Nulls(5), BondBytes(Some(b)));
  }

  // ------------------------------------------------------------------- image

  lemma HeadOfImage(s: StorageState)
    requires Shaped(s) && |s.profiles.profiles| <= CAPACITY
    ensures var image := Image(s);
      && image[0..4] == [0x45, 0x33, 0x32, 0x42] && Little(image[4..6]) == 1 && Little(image[6..8]) == 352 + 88 * |s.hosts|
      && Little(image[8..12]) == s.generation && Little(image[12..16]) == Crc32Ieee(HeadBytes(s) + BodyBytes(s))
  {
    ImageIsLaid(s);
    HeadFields(s);
    HeadScalars(Image(s), HeadBytes(s), BodyLen(|s.hosts|), s.generation);
    Little16(SCHEMA_VERSION);
    Little16(BodyLen(|s.hosts|));
    Little32(s.generation);
    Little32(Crc32Ieee(HeadBytes(s) + BodyBytes(s)));
  }

  lemma ScalarsOfImage(s: StorageState)
    requires Shaped(s) && |s.profiles.profiles| <= CAPACITY
    ensures var image := Image(s);
      && image[16] == |s.hosts| && (image[17] == if s.lastActive.Some? then s.lastActive.value else 0xff)
      && image[18..30] == GlobalBytes(s.settings) && image[30] == |s.profiles.profiles|
  {
    ImageIsLaid(s);
    BodyFields(s);
    BodyScalars(Image(s), BodyBytes(s), |s.hosts|, if s.lastActive.Some? then s.lastActive.value else NO_HOST,
                s.settings, |s.profiles.profiles|);
  }

  lemma ProfilesOfImage(s: StorageState, i: nat)
    requires Shaped(s) && |s.profiles.profiles| <= CAPACITY && i < |s.profiles.profiles|
    ensures Image(s)[64 + i * 36..100 + i * 36] == ProfileBytes(s.profiles.profiles[i])
  {
    RecordsAreLaid(s);
    assert ProfileSlice(Image(s), i) == ProfileBytes(s.profiles.profiles[i]);
  }

  lemma HostsOfImage(s: StorageState, i: nat)
    requires Shaped(s) && |s.profiles.profiles| <= CAPACITY && i < |s.hosts|
    ensures Image(s)[368 + i * 88..456 + i * 88] == HostBytes(s.hosts[i])
  {
    RecordsAreLaid(s);
    assert HostSlice(Image(s), i) == HostBytes(s.hosts[i]);
  }
}
