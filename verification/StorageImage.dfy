/** The durable image: a 1024-byte record with a 16-byte header, a fixed body
    prefix of 352 bytes and one 88-byte record per stored host. */
module StorageImage {
  import opened Options
  import opened Bits
  import opened Checksum
  import opened InputProfiles

  const IMAGE_LEN: nat := 1024
  const HEADER_LEN: nat := 16
  const BODY_PREFIX_LEN: nat := 352
  const HOSTS_AT: nat := 368
  const PROFILES_AT: nat := 64
  const PROFILE_LEN: nat := 36
  const HOST_LEN: nat := 88
  const BOND_LEN: nat := 48
  const NAME_LEN: nat := 32
  const HOSTS_MAX: nat := 4
  const NO_HOST: Byte := 0xff
  const MAGIC: seq<Byte> := [0x45, 0x33, 0x32, 0x42]
  const SCHEMA_VERSION: U16 := 1

  datatype StorageError =
    | InvalidHostId | DuplicateHostId | ActiveHostMissing | HostCapacity
    | ImageTooShort | InvalidMagic | UnsupportedVersion | InvalidLength | CrcMismatch
    | HostCountTooLarge | InvalidName

  datatype Result<+T> = Success(value: T) | Failure(error: StorageError) {
    predicate IsFailure() { Failure? }
    function PropagateFailure<U>(): Result<U>
      requires Failure?
    {
      Failure(error)
    }
    function Extract(): T
      requires Success?
    {
      value
    }
  }

  datatype AddressKind = Public | Random
  datatype SecurityLevel = NoEncryption | Encrypted | EncryptedAuthenticated

  datatype StoredBond = StoredBond(
    peerAddress: seq<Byte>,
    kind: AddressKind,
    peerIrk: Option<seq<Byte>>,
    ltk: seq<Byte>,
    isBonded: bool,
    level: SecurityLevel)

  datatype FixedName = FixedName(len: Byte, bytes: seq<Byte>)

  datatype StoredHost = StoredHost(
    hostId: Byte,
    bonded: bool,
    keyboardCccd: bool,
    mouseCccd: bool,
    consumerCccd: bool,
    keyboardOutputCccd: bool,
    name: FixedName,
    bond: Option<StoredBond>)

  datatype GlobalSettings = GlobalSettings(
    bootTarget: Byte,
    restoreLastTarget: bool,
    autoReconnect: bool,
    switchReleaseDelayMs: U16,
    shortAction: Byte,
    longAction: Byte,
    veryLongAction: Byte,
    logLevel: Byte)

  datatype StorageState = StorageState(
    generation: U32,
    lastActive: Option<Byte>,
    settings: GlobalSettings,
    profiles: Registry,
    hosts: seq<StoredHost>)

  // ------------------------------------------------------ shape and validity

  /** The sizes that the fixed-length arrays and bounded vectors guarantee. */
  predicate Shaped(s: StorageState) {
    && |s.hosts| <= HOSTS_MAX
    && forall i :: 0 <= i < |s.hosts| ==> ShapedHost(s.hosts[i])
  }

  predicate ShapedHost(h: StoredHost) {
    h.name.len <= NAME_LEN && |h.name.bytes| == NAME_LEN && (h.bond.Some? ==> ShapedBond(h.bond.value))
  }

  predicate ShapedBond(b: StoredBond) {
    |b.peerAddress| == 6 && |b.ltk| == 16 && (b.peerIrk.Some? ==> |b.peerIrk.value| == 16)
  }

  predicate ValidHosts(hosts: seq<StoredHost>) {
    && (forall i :: 0 <= i < |hosts| ==> 1 <= hosts[i].hostId <= HOSTS_MAX)
    && (forall i, j :: 0 <= i < j < |hosts| ==> hosts[i].hostId != hosts[j].hostId)
  }

  predicate ActivePresent(s: StorageState) {
    s.lastActive.Some? ==> exists i :: 0 <= i < |s.hosts| && s.hosts[i].hostId == s.lastActive.value
  }

  predicate ValidState(s: StorageState) {
    ValidHosts(s.hosts) && ActivePresent(s)
  }

  /** Host `i` has a number of its own in range. */
  predicate HostFits(hosts: seq<StoredHost>, i: nat)
    requires i < |hosts|
  {
    1 <= hosts[i].hostId <= HOSTS_MAX && forall j :: 0 <= j < i ==> hosts[j].hostId != hosts[i].hostId
  }

  /** The error of the first host from `i` on that does not fit. */
  function HostError(hosts: seq<StoredHost>, i: nat): (r: Option<StorageError>)
    requires i <= |hosts|
    ensures r.None? <==> forall k :: i <= k < |hosts| ==> HostFits(hosts, k)
    decreases |hosts| - i
  {
    assert i < |hosts| ==> (HostFits(hosts, i) || !HostFits(hosts, i));
    if i == |hosts| then None
    else if !(1 <= hosts[i].hostId <= HOSTS_MAX) then Some(InvalidHostId)
    else if exists j :: 0 <= j < i && hosts[j].hostId == hosts[i].hostId then Some(DuplicateHostId)
    else HostError(hosts, i + 1)
  }

  lemma FitIsValid(hosts: seq<StoredHost>)
    ensures ValidHosts(hosts) <==> forall k :: 0 <= k < |hosts| ==> HostFits(hosts, k)
  {
    if forall k :: 0 <= k < |hosts| ==> HostFits(hosts, k) {
      forall i, j | 0 <= i < j < |hosts| ensures hosts[i].hostId != hosts[j].hostId {
        assert HostFits(hosts, j);
      }
      forall k | 0 <= k < |hosts| ensures 1 <= hosts[k].hostId <= HOSTS_MAX {
        assert HostFits(hosts, k);
      }
    }
  }

  function Validate(s: StorageState): (r: Result<()>)
    ensures r.Success? <==> ValidState(s)
  {
    FitIsValid(s.hosts);
    var e := HostError(s.hosts, 0);
    if e.Some? then Failure(e.value)
    else if !ActivePresent(s) then Failure(ActiveHostMissing)
    else Success(())
  }

  /** Number `k + 1` is marked exactly if one of the first `i` hosts has it. */
  ghost predicate Marked(seen: seq<bool>, hosts: seq<StoredHost>, i: nat)
    requires i <= |hosts|
  {
    |seen| == HOSTS_MAX &&
    forall k :: 0 <= k < HOSTS_MAX ==> (seen[k] <==> exists j :: 0 <= j < i && hosts[j].hostId == k + 1)
  }

  lemma MarkOne(seen: seq<bool>, hosts: seq<StoredHost>, i: nat)
    requires i < |hosts| && Marked(seen, hosts, i) && 1 <= hosts[i].hostId <= HOSTS_MAX
    ensures Marked(seen[hosts[i].hostId - 1 := true], hosts, i + 1)
    ensures seen[hosts[i].hostId - 1] <==> exists j :: 0 <= j < i && hosts[j].hostId == hosts[i].hostId
  {
    var id := hosts[i].hostId;
    var after := seen[id - 1 := true];
    forall k | 0 <= k < HOSTS_MAX ensures after[k] <==> exists j :: 0 <= j < i + 1 && hosts[j].hostId == k + 1 {
      assert seen[k] <==> exists j :: 0 <= j < i && hosts[j].hostId == k + 1;
      assert k == id - 1 ==> hosts[i].hostId == k + 1;
    }
  }

  method ComputeValidate(s: StorageState) returns (r: Result<()>)
    ensures r == Validate(s)
  {
    var seen := new bool[HOSTS_MAX](_ => false);
    var i := 0;
    while i < |s.hosts|
      invariant 0 <= i <= |s.hosts| && HostError(s.hosts, i) == HostError(s.hosts, 0)
      invariant Marked(seen[..], s.hosts, i)
    {
      var id := s.hosts[i].hostId;
      if id == 0 || id > HOSTS_MAX {
        return Failure(InvalidHostId);
      }
      MarkOne(seen[..], s.hosts, i);
      if seen[id - 1] {
        return Failure(DuplicateHostId);
      }
      ghost var before := seen[..];
      seen[id - 1] := true;
      assert seen[..] == before[id - 1 := true];
      i := i + 1;
    }
    if s.lastActive.Some? && !(exists i :: 0 <= i < |s.hosts| && s.hosts[i].hostId == s.lastActive.value) {
      return Failure(ActiveHostMissing);
    }
    return Success(());
  }

  // ----------------------------------------------------------- the bytes

  function BoolByte(b: bool): Byte {
    if b then 1 else 0
  }

  function KindByte(k: AddressKind): Byte {
    if k == Public then 0 else 1
  }

  function LevelByte(l: SecurityLevel): Byte {
    match l
    case NoEncryption => 0
    case Encrypted => 1
    case EncryptedAuthenticated => 2
  }

  function BondBytes(bond: Option<StoredBond>): (r: seq<Byte>)
    requires bond.Some? ==> ShapedBond(bond.value)
    ensures |r| == BOND_LEN
  {
    match bond
    case None => Nulls(BOND_LEN)
    case Some(b) =>
      [1] + b.peerAddress + [BoolByte(b.peerIrk.Some?)]
      + (if b.peerIrk.Some? then b.peerIrk.value else Nulls(16))
      + b.ltk + [BoolByte(b.isBonded), LevelByte(b.level), KindByte(b.kind)] + Nulls(5)
  }

  function HostBytes(h: StoredHost): (r: seq<Byte>)
    requires ShapedHost(h)
    ensures |r| == HOST_LEN
  {
    [h.hostId, BoolByte(h.bonded), BoolByte(h.keyboardCccd), BoolByte(h.mouseCccd), BoolByte(h.consumerCccd),
     BoolByte(h.keyboardOutputCccd), h.name.len, 0] + h.name.bytes + BondBytes(h.bond)
  }

  function GlobalBytes(g: GlobalSettings): (r: seq<Byte>)
    ensures |r| == 12
  {
    [g.bootTarget, BoolByte(g.restoreLastTarget), BoolByte(g.autoReconnect)] + U16Bytes(g.switchReleaseDelayMs)
    + [g.shortAction, g.longAction, g.veryLongAction, g.logLevel, 0, 0, 0]
  }

  function SettingsBytes(s: InputSettings): (r: seq<Byte>)
    ensures |r| == 12
  {
    [s.keyboardLayout, s.remapFrom, s.remapTo, 0] + U16Bytes(s.mousePercent) + U16Bytes(s.scrollPercent)
    + U16Bytes(s.consumerFrom) + U16Bytes(s.consumerTo)
  }

  function ProfileBytes(p: InputProfile): (r: seq<Byte>)
    ensures |r| == PROFILE_LEN
  {
    [p.id, 0] + U16Bytes(p.identity.vendorId) + U16Bytes(p.identity.productId) + U64Bytes(p.identity.instanceHash)
    + U64Bytes(p.lastSeen) + [p.settings.shortcut.key, p.settings.shortcut.modifiers] + SettingsBytes(p.settings)
  }

  /** Where record `i` starts, for records of length `len`. */
  function Row(len: nat, i: nat): nat
    decreases i
  {
    if i == 0 then 0 else Row(len, i - 1) + len
  }

  /** Records one after the other. */
  function Flat(records: seq<seq<Byte>>, len: nat): (r: seq<Byte>)
    requires forall i :: 0 <= i < |records| ==> |records[i]| == len
    ensures |r| == Row(len, |records|)
  {
    if records == [] then [] else Flat(records[..|records| - 1], len) + records[|records| - 1]
  }

  function ProfileRecords(ps: seq<InputProfile>): (r: seq<seq<Byte>>)
    ensures |r| == |ps| && forall i :: 0 <= i < |ps| ==> |r[i]| == PROFILE_LEN && r[i] == ProfileBytes(ps[i])
  {
    seq(|ps|, i requires 0 <= i < |ps| => ProfileBytes(ps[i]))
  }

  function HostRecords(hs: seq<StoredHost>): (r: seq<seq<Byte>>)
    requires forall i :: 0 <= i < |hs| ==> ShapedHost(hs[i])
    ensures |r| == |hs| && forall i :: 0 <= i < |hs| ==> |r[i]| == HOST_LEN && r[i] == HostBytes(hs[i])
  {
    seq(|hs|, i requires 0 <= i < |hs| => HostBytes(hs[i]))
  }

  function ProfilesBytes(ps: seq<InputProfile>): (r: seq<Byte>)
    ensures |r| == PROFILE_LEN * |ps|
  {
    ProfileRow(|ps|);
    Flat(ProfileRecords(ps), PROFILE_LEN)
  }

  function HostsBytes(hs: seq<StoredHost>): (r: seq<Byte>)
    requires forall i :: 0 <= i < |hs| ==> ShapedHost(hs[i])
    ensures |r| == HOST_LEN * |hs|
  {
    HostRow(|hs|);
    Flat(HostRecords(hs), HOST_LEN)
  }

  lemma {:induction false} ProfileRow(i: nat)
    ensures Row(PROFILE_LEN, i) == PROFILE_LEN * i
  {
    if i > 0 {
      ProfileRow(i - 1);
    }
  }

  lemma {:induction false} HostRow(i: nat)
    ensures Row(HOST_LEN, i) == HOST_LEN * i
  {
    if i > 0 {
      HostRow(i - 1);
    }
  }

  function BodyLen(hosts: nat): nat {
    BODY_PREFIX_LEN + hosts * HOST_LEN
  }

  /** The first twelve bytes: everything of the header but the checksum. */
  function HeadBytes(s: StorageState): (r: seq<Byte>)
    requires |s.hosts| <= HOSTS_MAX
    ensures |r| == 12
  {
    MAGIC + U16Bytes(SCHEMA_VERSION) + U16Bytes(BodyLen(|s.hosts|)) + U32Bytes(s.generation)
  }

  function PrefixBytes(s: StorageState): (r: seq<Byte>)
    requires |s.hosts| <= HOSTS_MAX && |s.profiles.profiles| <= CAPACITY
    ensures |r| == BODY_PREFIX_LEN
  {
    [|s.hosts|, if s.lastActive.Some? then s.lastActive.value else NO_HOST] + GlobalBytes(s.settings)
    + [|s.profiles.profiles|] + Nulls(33)
    + (ProfilesBytes(s.profiles.profiles) + Nulls(PROFILE_LEN * (CAPACITY - |s.profiles.profiles|) + 16))
  }

  function BodyBytes(s: StorageState): (r: seq<Byte>)
    requires Shaped(s) && |s.profiles.profiles| <= CAPACITY
    ensures |r| == BodyLen(|s.hosts|)
  {
    PrefixBytes(s) + HostsBytes(s.hosts)
  }

  /** The image of a state. */
  function Image(s: StorageState): (r: seq<Byte>)
    requires Shaped(s) && |s.profiles.profiles| <= CAPACITY
    ensures |r| == IMAGE_LEN
  {
    HeadBytes(s) + U32Bytes(Crc32Ieee(HeadBytes(s) + BodyBytes(s)))
    + (BodyBytes(s) + Nulls(IMAGE_LEN - HEADER_LEN - BodyLen(|s.hosts|)))
  }
}
