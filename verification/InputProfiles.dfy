/** Device-owned input profiles and the bounded registry that remembers them.

  The registry keeps at most eight profiles. A device that is not known takes a
  free number, or the number of the disconnected profile used least recently.
  "Least recently" is decided by a 64-bit use counter; the lemmas below relate
  the counters to a plain recency list.
 */
module InputProfiles {
  import opened Bits

  const CAPACITY: nat := 8

  datatype InputIdentity = InputIdentity(vendorId: U16, productId: U16, instanceHash: U64)

  datatype KeyboardShortcut = KeyboardShortcut(modifiers: Byte, key: Byte)

  const SHORTCUT_DISABLED := KeyboardShortcut(0, 0)

  datatype InputSettings = InputSettings(
    keyboardLayout: Byte,
    remapFrom: Byte,
    remapTo: Byte,
    mousePercent: U16,
    scrollPercent: U16,
    consumerFrom: U16,
    consumerTo: U16,
    shortcut: KeyboardShortcut)

  const DEFAULT_SETTINGS := InputSettings(0, 0, 0, 100, 100, 0, 0, SHORTCUT_DISABLED)

  datatype Remainders = Remainders(x: int, y: int, wheel: int, pan: int)

  const NO_REMAINDERS := Remainders(0, 0, 0, 0)

  datatype InputProfile = InputProfile(
    id: Byte,
    identity: InputIdentity,
    connected: bool,
    lastSeen: U64,
    settings: InputSettings,
    remainders: Remainders,
    armed: bool)

  /** A profile as it comes back from storage: idle, with no transform state. */
  function Restored(id: Byte, identity: InputIdentity, lastSeen: U64, settings: InputSettings): InputProfile {
    InputProfile(id, identity, false, lastSeen, settings, NO_REMAINDERS, true)
  }

  datatype RegistryError = FullWithConnectedProfiles | UnknownProfile | DuplicateProfileId | DuplicateIdentity

  datatype Outcome<+T> = Ok(value: T) | Err(error: RegistryError)

  datatype Registry = Registry(profiles: seq<InputProfile>, nextSequence: U64)

  const EMPTY := Registry([], 1)

  function Next(s: U64): U64 {
    if s == 0xffff_ffff_ffff_ffff then 0 else s + 1
  }

  /** Numbers and identities are unique, and the table fits. */
  ghost predicate WellFormed(r: Registry) {
    && |r.profiles| <= CAPACITY
    && (forall i :: 0 <= i < |r.profiles| ==> 1 <= r.profiles[i].id <= CAPACITY)
    && (forall i, j :: 0 <= i < j < |r.profiles| ==> r.profiles[i].id != r.profiles[j].id)
    && (forall i, j :: 0 <= i < j < |r.profiles| ==> r.profiles[i].identity != r.profiles[j].identity)
  }

  ghost predicate Knows(r: Registry, identity: InputIdentity) {
    exists i :: 0 <= i < |r.profiles| && r.profiles[i].identity == identity
  }

  ghost predicate AllConnected(r: Registry) {
    forall i :: 0 <= i < |r.profiles| ==> r.profiles[i].connected
  }

  /** Slot `i` holds the disconnected profile whose use counter is smallest. */
  ghost predicate LeastRecent(r: Registry, i: int) {
    && 0 <= i < |r.profiles| && !r.profiles[i].connected
    && forall j :: 0 <= j < |r.profiles| && !r.profiles[j].connected ==> r.profiles[i].lastSeen <= r.profiles[j].lastSeen
  }

  ghost predicate FreeId(r: Registry, id: int) {
    1 <= id <= CAPACITY && forall i :: 0 <= i < |r.profiles| ==> r.profiles[i].id != id
  }

  function Fresh(r: Registry, id: Byte, identity: InputIdentity): InputProfile {
    Restored(id, identity, r.nextSequence, DEFAULT_SETTINGS).(connected := true)
  }

  /** What observing a device may do. */
  ghost predicate Observed(r: Registry, identity: InputIdentity, r': Registry, out: Outcome<Byte>) {
    && r'.nextSequence == Next(r.nextSequence)
    && if Knows(r, identity) then
         exists i :: 0 <= i < |r.profiles| && r.profiles[i].identity == identity
           && r'.profiles == r.profiles[i := r.profiles[i].(connected := true, lastSeen := r.nextSequence)]
           && out == Ok(r.profiles[i].id)
       else if |r.profiles| < CAPACITY then
         && out.Ok? && FreeId(r, out.value) && (forall id :: 1 <= id < out.value ==> !FreeId(r, id))
         && r'.profiles == r.profiles + [Fresh(r, out.value, identity)]
       else if AllConnected(r) then
         out == Err(FullWithConnectedProfiles) && r'.profiles == r.profiles
       else
         exists i :: LeastRecent(r, i)
           && r'.profiles == r.profiles[i := Fresh(r, r.profiles[i].id, identity)]
           && out == Ok(r.profiles[i].id)
  }

  function Disconnected(p: InputProfile, sequence: U64): InputProfile {
    p.(connected := false, lastSeen := sequence, remainders := NO_REMAINDERS, armed := true)
  }

  ghost predicate Dropped(r: Registry, id: Byte, r': Registry, out: Outcome<()>) {
    && r'.nextSequence == Next(r.nextSequence)
    && if exists i :: 0 <= i < |r.profiles| && r.profiles[i].id == id then
         exists i :: 0 <= i < |r.profiles| && r.profiles[i].id == id
           && r'.profiles == r.profiles[i := Disconnected(r.profiles[i], r.nextSequence)]
           && out == Ok(())
       else
         out == Err(UnknownProfile) && r'.profiles == r.profiles
  }

  function Max(a: U64, b: U64): U64 {
    if a < b then b else a
  }

  /** Adding a stored profile back. */
  function RestoreInto(r: Registry, p: InputProfile): Outcome<Registry> {
    if exists i :: 0 <= i < |r.profiles| && r.profiles[i].id == p.id then Err(DuplicateProfileId)
    else if exists i :: 0 <= i < |r.profiles| && r.profiles[i].identity == p.identity then Err(DuplicateIdentity)
    else if |r.profiles| >= CAPACITY then Err(FullWithConnectedProfiles)
    else Ok(Registry(r.profiles + [p], Max(r.nextSequence, Next(p.lastSeen))))
  }

  class InputProfileRegistry {
    var profiles: seq<InputProfile>
    var nextSequence: U64

    ghost function Value(): Registry
      reads this
    {
      Registry(profiles, nextSequence)
    }

    constructor ()
      ensures Value() == EMPTY
    {
      profiles := [];
      nextSequence := 1;
    }

    method TakeSequence() returns (sequence: U64)
      modifies this
      ensures sequence == old(nextSequence) && nextSequence == Next(old(nextSequence)) && profiles == old(profiles)
    {
      sequence := nextSequence;
      nextSequence := Next(nextSequence);
    }

    method Observe(identity: InputIdentity) returns (out: Outcome<Byte>)
      requires WellFormed(Value())
      modifies this
      ensures Observed(old(Value()), identity, Value(), out)
    {
      ghost var before := Value();
      var sequence := TakeSequence();
      var i := 0;
      while i < |profiles|
        invariant 0 <= i <= |profiles| && profiles == before.profiles && nextSequence == Next(before.nextSequence)
        invariant forall j :: 0 <= j < i ==> profiles[j].identity != identity
      {
        if profiles[i].identity == identity {
          out := Ok(profiles[i].id);
          profiles := profiles[i := profiles[i].(connected := true, lastSeen := sequence)];
          assert Knows(before, identity);
          return;
        }
        i := i + 1;
      }
      if |profiles| == CAPACITY {
        var removable := FindLeastRecent();
        if removable < 0 {
          return Err(FullWithConnectedProfiles);
        }
        var id := profiles[removable].id;
        profiles := profiles[removable := Restored(id, identity, sequence, DEFAULT_SETTINGS).(connected := true)];
        assert LeastRecent(before, removable);
        return Ok(id);
      }
      FreeIdExists(before);
      var id := 1;
      while !IsFree(id)
        invariant 1 <= id <= CAPACITY
        invariant exists free :: id <= free && FreeId(before, free)
        invariant forall k :: 1 <= k < id ==> !FreeId(before, k)
        decreases CAPACITY - id
      {
        id := id + 1;
      }
      profiles := profiles + [Restored(id, identity, sequence, DEFAULT_SETTINGS).(connected := true)];
      out := Ok(id);
    }

    predicate IsFree(id: int)
      reads this
    {
      forall i :: 0 <= i < |profiles| ==> profiles[i].id != id
    }

    method FindLeastRecent() returns (at: int)
      ensures at < 0 ==> AllConnected(Value())
      ensures at >= 0 ==> LeastRecent(Value(), at)
    {
      at := -1;
      var i := 0;
      while i < |profiles|
        invariant 0 <= i <= |profiles| && at < i
        invariant at < 0 ==> forall j :: 0 <= j < i ==> profiles[j].connected
        invariant at >= 0 ==> !profiles[at].connected
        invariant at >= 0 ==>
          forall j :: 0 <= j < i && !profiles[j].connected ==> profiles[at].lastSeen <= profiles[j].lastSeen
      {
        if !profiles[i].connected && (at < 0 || profiles[i].lastSeen < profiles[at].lastSeen) {
          at := i;
        }
        i := i + 1;
      }
    }

    method Disconnect(id: Byte) returns (out: Outcome<()>)
      modifies this
      ensures Dropped(old(Value()), id, Value(), out)
    {
      ghost var before := Value();
      var sequence := TakeSequence();
      var i := 0;
      while i < |profiles|
        invariant 0 <= i <= |profiles| && profiles == before.profiles && nextSequence == Next(before.nextSequence)
        invariant forall j :: 0 <= j < i ==> profiles[j].id != id
      {
        if profiles[i].id == id {
          assert before.profiles[i].id == id;
          profiles := profiles[i := Disconnected(profiles[i], sequence)];
          return Ok(());
        }
        i := i + 1;
      }
      out := Err(UnknownProfile);
    }

    method Restore(p: InputProfile) returns (out: Outcome<()>)
      modifies this
      ensures var r := RestoreInto(old(Value()), p);
        if r.Ok? then out == Ok(()) && Value() == r.value else out == Err(r.error)
      ensures out.Err? ==> profiles == old(profiles)
      ensures out == Err(FullWithConnectedProfiles) ==> nextSequence == Max(old(nextSequence), Next(p.lastSeen))
      ensures out.Err? && out != Err(FullWithConnectedProfiles) ==> nextSequence == old(nextSequence)
    {
      if exists i :: 0 <= i < |profiles| && profiles[i].id == p.id {
        return Err(DuplicateProfileId);
      }
      if exists i :: 0 <= i < |profiles| && profiles[i].identity == p.identity {
        return Err(DuplicateIdentity);
      }
      nextSequence := Max(nextSequence, Next(p.lastSeen));
      if |profiles| >= CAPACITY {
        return Err(FullWithConnectedProfiles);
      }
      profiles := profiles + [p];
      out := Ok(());
    }
  }

  // -------------------------------------------------------- pigeonhole

  function Ids(profiles: seq<InputProfile>): (s: set<int>)
    ensures |s| <= |profiles|
    ensures forall i :: 0 <= i < |profiles| ==> profiles[i].id in s
    ensures forall x :: x in s ==> exists i :: 0 <= i < |profiles| && profiles[i].id == x
  {
    if profiles == [] then {} else
      var rest := Ids(profiles[1..]);
      assert forall i :: 0 < i < |profiles| ==> profiles[i] == profiles[1..][i - 1];
      {profiles[0].id as int} + rest
  }

  lemma FreeIdExists(r: Registry)
    requires WellFormed(r) && |r.profiles| < CAPACITY
    ensures exists id :: FreeId(r, id)
  {
    var used := Ids(r.profiles);
    if forall id: int :: 1 <= id <= CAPACITY ==> id in used {
      EightNumbers(used);
    } else {
      var id: int :| 1 <= id <= CAPACITY && id !in used;
      assert FreeId(r, id);
    }
  }

  lemma EightNumbers(s: set<int>)
    requires forall id: int :: 1 <= id <= CAPACITY ==> id in s
    ensures |s| >= CAPACITY
  {
    var all := {1, 2, 3, 4, 5, 6, 7, 8};
    assert all <= s;
    assert s == all + (s - all);
  }
}
