/** The BLE host table: connection, encryption, bond and report readiness.

  A report kind is ready for a host in the current session (`session`) or was
  enabled by it before (`stored`). Only session readiness lets a report out.
 */
module HostState {
  import opened Options
  import opened Bits
  import opened StorageImage

  const SLOTS: nat := 4

  datatype ReportKind = KeyboardKind | MouseKind | ConsumerKind | KeyboardOutputKind

  datatype ReportReady = ReportReady(keyboard: bool, mouse: bool, consumer: bool, keyboardOutput: bool)

  const NOT_READY := ReportReady(false, false, false, false)

  function Get(r: ReportReady, k: ReportKind): bool {
    match k
    case KeyboardKind => r.keyboard
    case MouseKind => r.mouse
    case ConsumerKind => r.consumer
    case KeyboardOutputKind => r.keyboardOutput
  }

  function Set(r: ReportReady, k: ReportKind, enabled: bool): ReportReady {
    match k
    case KeyboardKind => r.(keyboard := enabled)
    case MouseKind => r.(mouse := enabled)
    case ConsumerKind => r.(consumer := enabled)
    case KeyboardOutputKind => r.(keyboardOutput := enabled)
  }

  datatype Host = Host(
    id: int,
    connected: bool,
    encrypted: bool,
    bonded: bool,
    stored: ReportReady,
    session: ReportReady,
    leds: Option<int>,
    name: FixedName,
    discovered: FixedName,
    bond: Option<StoredBond>)

  function EmptyName(): FixedName {
    FixedName(0, Nulls(NAME_LEN))
  }

  function NewHost(id: int): Host {
    Host(id, false, false, false, NOT_READY, NOT_READY, None, EmptyName(), EmptyName(), None)
  }

  datatype Hosts = Hosts(active: Option<int>, slots: seq<Option<Host>>)

  function NoHosts(): Hosts {
    Hosts(None, [None, None, None, None])
  }

  predicate ValidId(id: int) {
    1 <= id <= SLOTS
  }

  /** Four slots; every entry has a valid number of its own. */
  ghost predicate WellFormed(hs: Hosts) {
    && |hs.slots| == SLOTS
    && (forall i :: 0 <= i < SLOTS && hs.slots[i].Some? ==> ValidId(hs.slots[i].value.id))
    && (forall i, j :: 0 <= i < j < SLOTS && hs.slots[i].Some? && hs.slots[j].Some? ==>
          hs.slots[i].value.id != hs.slots[j].value.id)
  }

  datatype HostError = BadHostId | NoCapacity

  datatype Outcome<+T> = Ok(value: T) | Err(error: HostError)

  // ------------------------------------------------------------- look-up

  predicate Holds(slots: seq<Option<Host>>, i: int, id: int) {
    0 <= i < |slots| && slots[i].Some? && slots[i].value.id == id
  }

  /** The first slot that holds `id`, or -1. */
  function Find(slots: seq<Option<Host>>, id: int, from: nat := 0): (i: int)
    requires from <= |slots|
    ensures -1 <= i < |slots|
    ensures i >= 0 ==> from <= i && Holds(slots, i, id)
    ensures i < 0 ==> forall j :: from <= j < |slots| ==> !Holds(slots, j, id)
    decreases |slots| - from
  {
    if from == |slots| then -1
    else if slots[from].Some? && slots[from].value.id == id then from
    else Find(slots, id, from + 1)
  }

  function FirstFree(slots: seq<Option<Host>>, from: nat := 0): (i: int)
    requires from <= |slots|
    ensures -1 <= i < |slots|
    ensures i >= 0 ==> slots[i].None?
    ensures i < 0 ==> forall j :: from <= j < |slots| ==> slots[j].Some?
    decreases |slots| - from
  {
    if from == |slots| then -1 else if slots[from].None? then from else FirstFree(slots, from + 1)
  }

  function Lookup(hs: Hosts, id: int): (h: Option<Host>)
    ensures h.Some? ==> h.value.id == id
  {
    var i := Find(hs.slots, id);
    if i < 0 then None else hs.slots[i]
  }

  predicate CanSend(hs: Hosts, id: int, k: ReportKind) {
    var h := Lookup(hs, id);
    h.Some? && h.value.connected && h.value.encrypted && Get(h.value.session, k)
  }

  /** The table with an entry for `id`, which is new if there was none. */
  function Upsert(hs: Hosts, id: int): Outcome<Hosts> {
    if !ValidId(id) then Err(BadHostId)
    else if Find(hs.slots, id) >= 0 then Ok(hs)
    else
      var i := FirstFree(hs.slots);
      if i < 0 then Err(NoCapacity) else Ok(hs.(slots := hs.slots[i := Some(NewHost(id))]))
  }

  function Put(hs: Hosts, h: Host): Hosts
    requires Find(hs.slots, h.id) >= 0
  {
    hs.(slots := hs.slots[Find(hs.slots, h.id) := Some(h)])
  }

  function Remove(hs: Hosts, id: int): Hosts {
    var i := Find(hs.slots, id);
    if i < 0 then hs
    else Hosts(if hs.active == Some(id) then None else hs.active, hs.slots[i := None])
  }

  /** Four slots always have room for a valid number. */
  lemma UpsertFits(hs: Hosts, id: int)
    requires WellFormed(hs) && ValidId(id)
    ensures Upsert(hs, id).Ok?
    ensures var hs' := Upsert(hs, id).value;
      && WellFormed(hs') && hs'.active == hs.active && Find(hs'.slots, id) >= 0
      && Lookup(hs', id) == Some(if Lookup(hs, id).Some? then Lookup(hs, id).value else NewHost(id))
      && forall g :: g != id ==> Lookup(hs', g) == Lookup(hs, g)
  {
    if Find(hs.slots, id) < 0 {
      RoomLeft(hs, id);
      SlotChanged(hs, FirstFree(hs.slots), Some(NewHost(id)));
    }
  }

  lemma RoomLeft(hs: Hosts, id: int)
    requires WellFormed(hs) && ValidId(id) && Find(hs.slots, id) < 0
    ensures hs.slots[0].None? || hs.slots[1].None? || hs.slots[2].None? || hs.slots[3].None?
  {
    assert !Holds(hs.slots, 0, id) && !Holds(hs.slots, 1, id) && !Holds(hs.slots, 2, id) && !Holds(hs.slots, 3, id);
  }

  /** Changing one slot changes at most the entries it held and holds. */
  lemma SlotChanged(hs: Hosts, i: nat, x: Option<Host>)
    requires WellFormed(hs) && i < SLOTS
    requires x.Some? ==> ValidId(x.value.id) && (Find(hs.slots, x.value.id) < 0 || Find(hs.slots, x.value.id) == i)
    ensures var hs' := hs.(slots := hs.slots[i := x]);
      && WellFormed(hs')
      && (x.Some? ==> Find(hs'.slots, x.value.id) == i && Lookup(hs', x.value.id) == x)
      && (hs.slots[i].Some? && (x.None? || x.value.id != hs.slots[i].value.id) ==> Lookup(hs', hs.slots[i].value.id).None?)
      && forall g :: (x.Some? ==> g != x.value.id) && (hs.slots[i].Some? ==> g != hs.slots[i].value.id) ==>
           Lookup(hs', g) == Lookup(hs, g)
  {
    var hs' := hs.(slots := hs.slots[i := x]);
    if x.Some? {
      Only(hs, x.value.id, i);
      assert Holds(hs'.slots, i, x.value.id);
      forall j | 0 <= j < SLOTS && j != i ensures !Holds(hs'.slots, j, x.value.id) {
        assert !Holds(hs.slots, j, x.value.id);
      }
    }
    WellFormedUpdate(hs, i, x);
    forall g | (x.Some? ==> g != x.value.id) && (hs.slots[i].Some? ==> g != hs.slots[i].value.id)
      ensures Lookup(hs', g) == Lookup(hs, g)
    {
      assert forall j :: 0 <= j < SLOTS ==> (Holds(hs'.slots, j, g) <==> Holds(hs.slots, j, g));
      SameFind(hs.slots, hs'.slots, g, 0);
      assert Find(hs.slots, g) >= 0 ==> Holds(hs.slots, Find(hs.slots, g), g);
    }
  }

  lemma Only(hs: Hosts, id: int, i: nat)
    requires WellFormed(hs) && i < SLOTS && (Find(hs.slots, id) < 0 || Find(hs.slots, id) == i)
    ensures forall j :: 0 <= j < SLOTS && j != i ==> !Holds(hs.slots, j, id)
  {
    var f := Find(hs.slots, id);
    forall j | 0 <= j < SLOTS && j != i ensures !Holds(hs.slots, j, id) {
      assert f == i ==> Holds(hs.slots, i, id);
      if i < j {
        assert hs.slots[i].Some? && hs.slots[j].Some? ==> hs.slots[i].value.id != hs.slots[j].value.id;
      } else {
        assert hs.slots[j].Some? && hs.slots[i].Some? ==> hs.slots[j].value.id != hs.slots[i].value.id;
      }
    }
  }

  lemma WellFormedUpdate(hs: Hosts, i: nat, x: Option<Host>)
    requires WellFormed(hs) && i < SLOTS
    requires x.Some? ==> ValidId(x.value.id) && forall j :: 0 <= j < SLOTS && j != i ==> !Holds(hs.slots, j, x.value.id)
    ensures WellFormed(hs.(slots := hs.slots[i := x]))
  {
    if x.Some? {
      forall j | 0 <= j < SLOTS && j != i && hs.slots[j].Some? ensures hs.slots[j].value.id != x.value.id {
        assert !Holds(hs.slots, j, x.value.id);
      }
    }
  }

  lemma {:induction false} SameFind(a: seq<Option<Host>>, b: seq<Option<Host>>, id: int, from: nat)
    requires |a| == |b| && from <= |a|
    requires forall j :: from <= j < |a| ==> (Holds(a, j, id) <==> Holds(b, j, id))
    ensures Find(a, id, from) == Find(b, id, from)
    decreases |a| - from
  {
    if from < |a| {
      assert Holds(a, from, id) <==> Holds(b, from, id);
      SameFind(a, b, id, from + 1);
    }
  }

  lemma PutChanges(hs: Hosts, h: Host)
    requires WellFormed(hs) && Find(hs.slots, h.id) >= 0
    ensures WellFormed(Put(hs, h)) && Put(hs, h).active == hs.active && Lookup(Put(hs, h), h.id) == Some(h)
    ensures forall g :: g != h.id ==> Lookup(Put(hs, h), g) == Lookup(hs, g)
  {
    SlotChanged(hs, Find(hs.slots, h.id), Some(h));
  }

  lemma RemoveChanges(hs: Hosts, id: int)
    requires WellFormed(hs)
    ensures WellFormed(Remove(hs, id)) && Lookup(Remove(hs, id), id).None?
    ensures forall g :: g != id ==> Lookup(Remove(hs, id), g) == Lookup(hs, g)
  {
    var i := Find(hs.slots, id);
    if i >= 0 {
      SlotChanged(hs, i, None);
      assert Remove(hs, id).slots == hs.(slots := hs.slots[i := None]).slots;
    }
  }

  // ------------------------------------------------------------- changes

  datatype HostChange =
    | Connect
    | Disconnect
    | Secure(encrypted: bool, bonded: bool, bond: Option<StoredBond>)
    | Cccd(kind: ReportKind, enabled: bool)
    | Leds(leds: int)
    | Rename(name: FixedName)
    | Discover(discovered: FixedName)

  /** Whether a security event makes or keeps the host bonded. */
  predicate Bonds(h: Host, bonded: bool) {
    bonded || h.bond.Some?
  }

  function Secured(h: Host, encrypted: bool, bonded: bool, bond: Option<StoredBond>): Host {
    var h' := h.(encrypted := encrypted, bonded := Bonds(h, bonded), bond := if bond.Some? then bond else h.bond);
    if h'.connected && encrypted && h'.bonded then h'.(session := h'.stored)
    else if !encrypted then h'.(session := NOT_READY)
    else h'
  }

  function Changed(h: Host, c: HostChange): (h': Host)
    ensures h'.id == h.id
  {
    match c
    case Connect => h.(connected := true, encrypted := false, session := NOT_READY)
    case Disconnect => h.(connected := false, encrypted := false, session := NOT_READY)
    case Secure(encrypted, bonded, bond) => Secured(h, encrypted, bonded, bond)
    case Cccd(k, enabled) => h.(stored := Set(h.stored, k, enabled), session := Set(h.session, k, enabled))
    case Leds(leds) => h.(leds := Some(leds))
    case Rename(name) => h.(name := name)
    case Discover(name) => h.(discovered := name)
  }

  /** Whether the change alters something that is kept across a restart. */
  predicate Persists(h: Host, c: HostChange) {
    match c
    case Secure(_, bonded, bond) => h.bonded != Bonds(h, bonded) || (bond.Some? && h.bond != bond)
    case Cccd(k, enabled) => Get(h.stored, k) != enabled
    case Rename(name) => h.name != name
    case _ => false
  }

  function HostOrNew(hs: Hosts, id: int): (h: Host)
    ensures h.id == id
  {
    var h := Lookup(hs, id);
    if h.Some? then h.value else NewHost(id)
  }

  /** A change to a host's entry. Every change but a disconnect makes the entry
      when it is missing. */
  function Touch(hs: Hosts, id: int, c: HostChange): Outcome<Hosts> {
    if c.Disconnect? then
      var h := Lookup(hs, id);
      if h.None? then Ok(hs) else Ok(Put(hs, Changed(h.value, c)))
    else
      var u := Upsert(hs, id);
      if u.Err? then Err(u.error)
      else if Find(u.value.slots, id) < 0 then Err(NoCapacity)
      else Ok(Put(u.value, Changed(HostOrNew(u.value, id), c)))
  }

  /** A change succeeds for every valid number and touches that host only. */
  lemma TouchChanges(hs: Hosts, id: int, c: HostChange)
    requires WellFormed(hs)
    ensures Touch(hs, id, c).Err? <==> !ValidId(id) && !c.Disconnect?
    ensures Touch(hs, id, c).Err? ==> Touch(hs, id, c).error == BadHostId
    ensures Touch(hs, id, c).Ok? ==>
      var hs' := Touch(hs, id, c).value;
      && WellFormed(hs') && hs'.active == hs.active
      && (forall g :: g != id ==> Lookup(hs', g) == Lookup(hs, g))
      && Lookup(hs', id) ==
           if c.Disconnect? && Lookup(hs, id).None? then None else Some(Changed(HostOrNew(hs, id), c))
  {
    if c.Disconnect? {
      if Lookup(hs, id).Some? {
        PutChanges(hs, Changed(Lookup(hs, id).value, c));
      }
    } else if ValidId(id) {
      UpsertFits(hs, id);
      var u := Upsert(hs, id).value;
      PutChanges(u, Changed(HostOrNew(u, id), c));
    }
  }

  function Activate(hs: Hosts, id: int): Outcome<Hosts> {
    var u := Upsert(hs, id);
    if u.Err? then u else Ok(u.value.(active := Some(id)))
  }

  lemma ActivateChanges(hs: Hosts, id: int)
    requires WellFormed(hs)
    ensures Activate(hs, id).Ok? <==> ValidId(id)
    ensures Activate(hs, id).Ok? ==>
      var hs' := Activate(hs, id).value;
      && WellFormed(hs') && hs'.active == Some(id) && Lookup(hs', id) == Some(HostOrNew(hs, id))
      && forall g :: g != id ==> Lookup(hs', g) == Lookup(hs, g)
  {
    if ValidId(id) {
      UpsertFits(hs, id);
      var u := Upsert(hs, id).value;
      forall g ensures Lookup(u.(active := Some(id)), g) == Lookup(u, g) {}
    }
  }

  // ------------------------------------------------------------- storage

  function StoredOf(h: Host): StoredHost
    requires ValidId(h.id)
  {
    StoredHost(h.id, h.bonded, h.stored.keyboard, h.stored.mouse, h.stored.consumer, h.stored.keyboardOutput,
               h.name, h.bond)
  }

  /** A stored host as it comes back: known, not connected, not ready. */
  function Revived(s: StoredHost): Host {
    Host(s.hostId, false, false, s.bonded,
         ReportReady(s.keyboardCccd, s.mouseCccd, s.consumerCccd, s.keyboardOutputCccd), NOT_READY,
         None, s.name, EmptyName(), s.bond)
  }

  /** Restores hosts one by one; stops at the first number that is not valid. */
  function RestoreHosts(hs: Hosts, stored: seq<StoredHost>): Hosts
    decreases |stored|
  {
    if stored == [] then hs
    else
      var u := Upsert(hs, stored[0].hostId);
      if u.Err? || Find(u.value.slots, stored[0].hostId) < 0 then hs
      else RestoreHosts(Put(u.value, Revived(stored[0])), stored[1..])
  }

  function Restore(stored: seq<StoredHost>, lastActive: Option<int>): Hosts {
    RestoreHosts(NoHosts().(active := lastActive), stored)
  }

  function StoredHosts(slots: seq<Option<Host>>): (r: seq<StoredHost>)
    requires forall i :: 0 <= i < |slots| && slots[i].Some? ==> ValidId(slots[i].value.id)
    ensures |r| <= |slots|
  {
    if slots == [] then []
    else if slots[0].None? then StoredHosts(slots[1..])
    else [StoredOf(slots[0].value)] + StoredHosts(slots[1..])
  }

  function StoredActive(hs: Hosts): (r: Option<Byte>)
    requires WellFormed(hs)
  {
    if hs.active.Some? && Find(hs.slots, hs.active.value) >= 0
    then
      assert Holds(hs.slots, Find(hs.slots, hs.active.value), hs.active.value);
      Some(hs.active.value)
    else None
  }
}
