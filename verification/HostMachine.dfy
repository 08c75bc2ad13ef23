/** The host table as an object that updates its slots in place, and the two
    searches that only read it. */
module HostMachine {
  import opened Options
  import opened StorageImage
  import opened HostState

  // ------------------------------------------------------------ next target

  datatype Wanted = AnyConnected | Able(kind: ReportKind)

  predicate Candidate(slots: seq<Option<Host>>, i: int, w: Wanted) {
    && 0 <= i < |slots| && slots[i].Some?
    && match w
       case AnyConnected => slots[i].value.connected
       case Able(k) => slots[i].value.connected && slots[i].value.encrypted && Get(slots[i].value.session, k)
  }

  /** The first candidate slot from `from` on, or -1. */
  function FirstCandidate(slots: seq<Option<Host>>, w: Wanted, from: nat): (i: int)
    requires from <= |slots|
    ensures i == -1 || (from <= i < |slots| && Candidate(slots, i, w))
    ensures forall j :: from <= j < (if i < 0 then |slots| else i) ==> !Candidate(slots, j, w)
    decreases |slots| - from
  {
    if from == |slots| then -1 else if Candidate(slots, from, w) then from else FirstCandidate(slots, w, from + 1)
  }

  /** The slot of `current` among the candidates, or -1. */
  function CurrentSlot(slots: seq<Option<Host>>, current: Option<int>, w: Wanted): (i: int)
    ensures -1 <= i < |slots|
    ensures i >= 0 ==> current.Some? && Holds(slots, i, current.value) && Candidate(slots, i, w)
  {
    if current.None? then -1
    else
      var i := Find(slots, current.value);
      if Candidate(slots, i, w) then i else -1
  }

  function NextSlot(slots: seq<Option<Host>>, current: Option<int>, w: Wanted): (i: int)
    ensures i == -1 || (0 <= i < |slots| && Candidate(slots, i, w))
  {
    var after := FirstCandidate(slots, w, CurrentSlot(slots, current, w) + 1);
    if after >= 0 then after else FirstCandidate(slots, w, 0)
  }

  function NextTarget(hs: Hosts, current: Option<int>, w: Wanted): (r: Option<int>) {
    var i := NextSlot(hs.slots, current, w);
    if i < 0 then None else Some(hs.slots[i].value.id)
  }

  /** How many steps round the table lead from slot `c` to slot `i`. */
  function StepsRound(c: int, i: int, n: nat): int {
    if i > c then i - c else i - c + n
  }

  /** The next target is the candidate met first when going round the table from
      the current one, or from the top when the current one is no candidate. */
  lemma NextIsNearest(slots: seq<Option<Host>>, current: Option<int>, w: Wanted)
    ensures NextSlot(slots, current, w) < 0 <==> forall i :: 0 <= i < |slots| ==> !Candidate(slots, i, w)
    ensures forall j :: 0 <= j < |slots| && Candidate(slots, j, w) ==>
      StepsRound(CurrentSlot(slots, current, w), NextSlot(slots, current, w), |slots|)
        <= StepsRound(CurrentSlot(slots, current, w), j, |slots|)
  {
    var c := CurrentSlot(slots, current, w);
    forall j | 0 <= j < |slots| && Candidate(slots, j, w)
      ensures StepsRound(c, NextSlot(slots, current, w), |slots|) <= StepsRound(c, j, |slots|)
    {
      if FirstCandidate(slots, w, c + 1) < 0 {
        assert j <= c;
      }
    }
  }

  // ------------------------------------------------------- pairing candidate

  predicate HasBond(hs: Hosts, id: int) {
    var h := Lookup(hs, id);
    h.Some? && (h.value.bonded || h.value.bond.Some?)
  }

  predicate PrefersActive(hs: Hosts) {
    hs.active.Some? && Lookup(hs, hs.active.value).Some? && !HasBond(hs, hs.active.value)
  }

  function LowestUnbonded(hs: Hosts, from: int): (r: Option<int>)
    requires 1 <= from <= SLOTS + 1
    ensures r.Some? ==> from <= r.value <= SLOTS && !HasBond(hs, r.value)
    ensures forall id :: from <= id <= (if r.Some? then r.value - 1 else SLOTS) ==> HasBond(hs, id)
    decreases SLOTS + 1 - from
  {
    if from > SLOTS then None else if HasBond(hs, from) then LowestUnbonded(hs, from + 1) else Some(from)
  }

  function PairingCandidate(hs: Hosts): (r: Option<int>)
    ensures r.Some? ==> !HasBond(hs, r.value)
    ensures r.None? ==> forall id :: 1 <= id <= SLOTS ==> HasBond(hs, id)
  {
    if PrefersActive(hs) then hs.active else LowestUnbonded(hs, 1)
  }

  /** The active computer if it is known and has no bond; otherwise the one with the
      lowest number that has none. */
  lemma PairingPrefersActive(hs: Hosts)
    ensures var r := PairingCandidate(hs);
      if hs.active.Some? && Lookup(hs, hs.active.value).Some? && !HasBond(hs, hs.active.value)
      then r == hs.active
      else
        && (r.Some? ==> 1 <= r.value <= 4 && !HasBond(hs, r.value))
        && forall id :: 1 <= id <= 4 && (r.None? || id < r.value) ==> HasBond(hs, id)
  {
  }

  // ----------------------------------------------------------- the machine

  class BleHostStateMachine {
    var active: Option<int>
    const hosts: array<Option<Host>>

    ghost predicate Valid()
      reads this, hosts
    {
      WellFormed(Value())
    }

    function Value(): Hosts
      reads this, hosts
    {
      Hosts(active, hosts[..])
    }

    constructor ()
      ensures Valid() && Value() == NoHosts() && fresh(hosts)
    {
      active := None;
      hosts := new Option<Host>[4](_ => None);
    }

    /** The slot of a host, found or newly made. */
    method UpsertHost(id: int) returns (r: Outcome<nat>)
      requires Valid()
      modifies hosts
      ensures Valid() && active == old(active)
      ensures r.Err? ==> Upsert(old(Value()), id) == Err(r.error) && Value() == old(Value())
      ensures r.Ok? ==> Upsert(old(Value()), id) == Ok(Value()) && r.value < SLOTS && Find(hosts[..], id) == r.value
    {
      if !ValidId(id) {
        return Err(BadHostId);
      }
      UpsertFits(Value(), id);
      var i := Find(hosts[..], id);
      if i < 0 {
        i := FirstFree(hosts[..]);
        if i < 0 {
          return Err(NoCapacity);
        }
        SlotChanged(Value(), i, Some(NewHost(id)));
        hosts[i] := Some(NewHost(id));
        assert hosts[..] == old(hosts[..])[i := Some(NewHost(id))];
      }
      r := Ok(i);
    }

    /** Connection, security, subscription, LED and name events. */
    method OnChange(id: int, c: HostChange) returns (r: Outcome<bool>)
      requires Valid()
      modifies hosts
      ensures Valid() && active == old(active)
      ensures r.Err? ==> Touch(old(Value()), id, c) == Err(r.error) && Value() == old(Value())
      ensures r.Ok? ==>
        Touch(old(Value()), id, c) == Ok(Value()) && r.value == Persists(HostOrNew(old(Value()), id), c)
    {
      TouchChanges(Value(), id, c);
      var i: nat := 0;
      if c.Disconnect? {
        var at := Find(hosts[..], id);
        if at < 0 {
          return Ok(false);
        }
        i := at;
      } else {
        if ValidId(id) {
          UpsertFits(Value(), id);
        }
        var u := UpsertHost(id);
        if u.Err? {
          return Err(u.error);
        }
        i := u.value;
      }
      ghost var found := Value();
      assert Holds(hosts[..], i, id);
      var host := hosts[i].value;
      PutChanges(found, Changed(host, c));
      hosts[i] := Some(Changed(host, c));
      assert hosts[..] == found.slots[i := Some(Changed(host, c))];
      r := Ok(Persists(host, c));
    }

    method SetActiveTarget(id: int) returns (r: Outcome<bool>)
      requires Valid()
      modifies this, hosts
      ensures Valid()
      ensures r.Err? ==> Activate(old(Value()), id) == Err(r.error) && Value() == old(Value())
      ensures r.Ok? ==> Activate(old(Value()), id) == Ok(Value()) && (r.value <==> old(active) != Some(id))
    {
      ActivateChanges(Value(), id);
      var u := UpsertHost(id);
      if u.Err? {
        return Err(u.error);
      }
      var changed := active != Some(id);
      active := Some(id);
      r := Ok(changed);
    }

    method ClearHost(id: int) returns (removed: bool)
      requires Valid()
      modifies this, hosts
      ensures Valid() && Value() == Remove(old(Value()), id)
      ensures removed <==> Lookup(old(Value()), id).Some?
    {
      RemoveChanges(Value(), id);
      var i := Find(hosts[..], id);
      if i < 0 {
        return false;
      }
      hosts[i] := None;
      assert hosts[..] == old(hosts[..])[i := None];
      if active == Some(id) {
        active := None;
      }
      removed := true;
    }

    method NextTargetAfter(current: Option<int>, w: Wanted) returns (r: Option<int>)
      requires Valid()
      ensures r == NextTarget(Value(), current, w)
    {
      var slots := hosts[..];
      var first: Option<int> := None;
      var returnNext := current.None?;
      var i := 0;
      ghost var c := CurrentSlot(slots, current, w);
      ghost var f := FirstCandidate(slots, w, 0);
      CurrentIsOnly(Value(), current, w);
      while i < |slots|
        invariant 0 <= i <= |slots|
        invariant first == if 0 <= f < i then Some(slots[f].value.id) else None
        invariant returnNext <==> current.None? || 0 <= c < i
        invariant returnNext ==> forall j :: c < j < i ==> !Candidate(slots, j, w)
      {
        if Candidate(slots, i, w) {
          var id := slots[i].value.id;
          if first.None? {
            first := Some(id);
          }
          if returnNext {
            return Some(id);
          }
          if current == Some(id) {
            returnNext := true;
          }
        }
        i := i + 1;
      }
      r := first;
    }

    method FindPairingCandidate() returns (r: Option<int>)
      requires Valid()
      ensures r == PairingCandidate(Value())
    {
      if active.Some? {
        var h := Lookup(Value(), active.value);
        if h.Some? && !(h.value.bonded || h.value.bond.Some?) {
          return active;
        }
      }
      var id := 1;
      while id <= 4
        invariant 1 <= id <= 5
        invariant !PrefersActive(Value())
        invariant LowestUnbonded(Value(), 1) == LowestUnbonded(Value(), id)
      {
        var h := Lookup(Value(), id);
        if !(h.Some? && (h.value.bonded || h.value.bond.Some?)) {
          return Some(id);
        }
        id := id + 1;
      }
      r := None;
    }

    /** Makes or overwrites the entry of one stored host. */
    method RestoreHost(h: StoredHost) returns (r: Outcome<()>)
      requires Valid()
      modifies hosts
      ensures Valid() && active == old(active)
      ensures r.Ok? <==> ValidId(h.hostId)
      ensures r.Ok? ==> forall rest :: RestoreHosts(Value(), rest) == RestoreHosts(old(Value()), [h] + rest)
      ensures r.Err? ==> Value() == old(Value()) && forall rest :: RestoreHosts(Value(), [h] + rest) == Value()
    {
      if ValidId(h.hostId) {
        UpsertFits(Value(), h.hostId);
      }
      var u := UpsertHost(h.hostId);
      if u.Err? {
        return Err(u.error);
      }
      ghost var found := Value();
      PutChanges(found, Revived(h));
      hosts[u.value] := Some(Revived(h));
      assert hosts[..] == found.slots[u.value := Some(Revived(h))];
      forall rest: seq<StoredHost> ensures RestoreHosts(Value(), rest) == RestoreHosts(old(Value()), [h] + rest) {
        assert ([h] + rest)[1..] == rest;
      }
      r := Ok(());
    }

    method RestoreAt(stored: seq<StoredHost>, i: nat) returns (r: Outcome<()>)
      requires Valid() && i < |stored|
      modifies hosts
      ensures Valid()
      ensures r.Ok? <==> ValidId(stored[i].hostId)
      ensures r.Ok? ==> RestoreHosts(Value(), stored[i + 1..]) == RestoreHosts(old(Value()), stored[i..])
      ensures r.Err? ==> RestoreHosts(old(Value()), stored[i..]) == Value()
    {
      assert stored[i..] == [stored[i]] + stored[i + 1..];
      r := RestoreHost(stored[i]);
    }

    method StartOver(lastActive: Option<int>)
      requires Valid()
      modifies this, hosts
      ensures Valid() && Value() == NoHosts().(active := lastActive)
    {
      active := lastActive;
      hosts[0], hosts[1], hosts[2], hosts[3] := None, None, None, None;
      assert hosts[..] == [None, None, None, None];
    }

    /** Restores from storage; stops at the first host number that is not valid. */
    method RestoreFrom(stored: seq<StoredHost>, lastActive: Option<int>) returns (r: Outcome<()>)
      requires Valid()
      modifies this, hosts
      ensures Valid() && Value() == Restore(stored, lastActive)
      ensures r.Ok? <==> forall i :: 0 <= i < |stored| ==> ValidId(stored[i].hostId)
    {
      StartOver(lastActive);
      assert stored[0..] == stored;
      var i := 0;
      while i < |stored|
        invariant 0 <= i <= |stored| && Valid()
        invariant RestoreHosts(Value(), stored[i..]) == Restore(stored, lastActive)
        invariant forall j :: 0 <= j < i ==> ValidId(stored[j].hostId)
      {
        var one := RestoreAt(stored, i);
        if one.Err? {
          return Err(one.error);
        }
        i := i + 1;
      }
      r := Ok(());
    }
  }

  lemma CurrentIsOnly(hs: Hosts, current: Option<int>, w: Wanted)
    requires WellFormed(hs)
    ensures forall i :: 0 <= i < SLOTS && Candidate(hs.slots, i, w) ==>
      (current == Some(hs.slots[i].value.id) <==> i == CurrentSlot(hs.slots, current, w))
  {
    if current.Some? {
      var f := Find(hs.slots, current.value);
      if f >= 0 {
        Only(hs, current.value, f);
      }
      forall i | 0 <= i < SLOTS && Candidate(hs.slots, i, w)
        ensures current.value == hs.slots[i].value.id <==> i == CurrentSlot(hs.slots, current, w)
      {
        assert Holds(hs.slots, i, current.value) <==> current.value == hs.slots[i].value.id;
      }
    }
  }
}
