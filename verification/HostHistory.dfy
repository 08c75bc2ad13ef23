/** What the past of a run says about the host table.

  A report kind may be sent to a host exactly when something enabled it and
  nothing revoked it since; and a restart keeps what is meant to be kept.
 */
module HostHistory {
  import opened Options
  import opened Bits
  import opened StorageImage
  import opened StorageCodec
  import RoundTrip = StorageRoundTrip
  import opened HostState

  datatype HostEvent =
    | Change(id: int, change: HostChange)
    | Select(id: int)
    | Deselect
    | Forget(id: int)
    | Reload(stored: seq<StoredHost>, lastActive: Option<int>)

  /** One event; an event that fails leaves the table as it was. */
  function Step(hs: Hosts, e: HostEvent): Hosts {
    match e
    case Change(id, c) => var r := Touch(hs, id, c); if r.Ok? then r.value else hs
    case Select(id) => var r := Activate(hs, id); if r.Ok? then r.value else hs
    case Deselect => hs.(active := None)
    case Forget(id) => Remove(hs, id)
    case Reload(stored, lastActive) => Restore(stored, lastActive)
  }

  function Run(es: seq<HostEvent>): Hosts {
    if es == [] then NoHosts() else Step(Run(es[..|es| - 1]), es[|es| - 1])
  }

  predicate Ready(hs: Hosts, id: int, k: ReportKind) {
    var h := Lookup(hs, id);
    h.Some? && Get(h.value.session, k)
  }

  predicate Within(a: ReportReady, b: ReportReady) {
    && (a.keyboard ==> b.keyboard) && (a.mouse ==> b.mouse)
    && (a.consumer ==> b.consumer) && (a.keyboardOutput ==> b.keyboardOutput)
  }

  ghost predicate SessionWithinStored(hs: Hosts) {
    forall id :: Lookup(hs, id).Some? ==> Within(Lookup(hs, id).value.session, Lookup(hs, id).value.stored)
  }

  // ------------------------------------------------------- causes and ends

  /** The change turns the kind on for this session: the host subscribes, or an
      encrypted link to a bonded, connected host brings its stored choice back. */
  predicate Enabling(h: Host, c: HostChange, k: ReportKind) {
    match c
    case Cccd(kind, enabled) => kind == k && enabled
    case Secure(encrypted, bonded, _) => encrypted && h.connected && Bonds(h, bonded) && Get(h.stored, k)
    case _ => false
  }

  /** A new link, the loss of a link or of its encryption, or an unsubscription. */
  predicate Revoking(c: HostChange, k: ReportKind) {
    match c
    case Connect => true
    case Disconnect => true
    case Secure(encrypted, _, _) => !encrypted
    case Cccd(kind, enabled) => kind == k && !enabled
    case _ => false
  }

  predicate Enables(hs: Hosts, e: HostEvent, id: int, k: ReportKind) {
    e.Change? && e.id == id && ValidId(id) && Enabling(HostOrNew(hs, id), e.change, k)
  }

  predicate Revokes(e: HostEvent, id: int, k: ReportKind) {
    match e
    case Change(g, c) => g == id && Revoking(c, k)
    case Select(_) => false
    case Deselect => false
    case Forget(g) => g == id
    case Reload(_, _) => true
  }

  /** Some event enabled the kind and no later one revoked it. */
  ghost predicate EnabledSince(es: seq<HostEvent>, id: int, k: ReportKind) {
    exists n :: 0 <= n < |es| && EnabledAt(es, n, id, k)
  }

  ghost predicate EnabledAt(es: seq<HostEvent>, n: nat, id: int, k: ReportKind)
    requires n < |es|
  {
    Enables(Run(es[..n]), es[n], id, k) && forall m :: n < m < |es| ==> !Revokes(es[m], id, k)
  }

  // ---------------------------------------------------------------- steps

  lemma {:induction false} RestoreIsDormant(hs: Hosts, stored: seq<StoredHost>)
    requires WellFormed(hs) && forall id, k :: !Ready(hs, id, k)
    ensures WellFormed(RestoreHosts(hs, stored)) && forall id, k :: !Ready(RestoreHosts(hs, stored), id, k)
    decreases |stored|
  {
    if stored != [] && ValidId(stored[0].hostId) {
      var id := stored[0].hostId;
      UpsertFits(hs, id);
      var u := Upsert(hs, id).value;
      PutChanges(u, Revived(stored[0]));
      var next := Put(u, Revived(stored[0]));
      forall g, k ensures !Ready(next, g, k) {
        assert !Ready(hs, g, k);
        assert g != id ==> Lookup(next, g) == Lookup(hs, g);
      }
      RestoreIsDormant(next, stored[1..]);
    }
  }

  lemma NothingAtFirst(active: Option<int>)
    ensures WellFormed(NoHosts().(active := active))
    ensures forall id :: Lookup(NoHosts().(active := active), id).None?
  {
  }

  lemma StepKeepsShape(hs: Hosts, e: HostEvent)
    requires WellFormed(hs)
    ensures WellFormed(Step(hs, e))
  {
    match e
    case Change(id, c) => TouchChanges(hs, id, c);
    case Select(id) => ActivateChanges(hs, id);
    case Deselect =>
    case Forget(id) => RemoveChanges(hs, id);
    case Reload(stored, lastActive) =>
      NothingAtFirst(lastActive);
      RestoreIsDormant(NoHosts().(active := lastActive), stored);
  }

  lemma WithinMeans(a: ReportReady, b: ReportReady, k: ReportKind)
    requires Within(a, b)
    ensures Get(a, k) ==> Get(b, k)
  {
  }

  lemma SetMeans(r: ReportReady, k: ReportKind, enabled: bool, j: ReportKind)
    ensures Get(Set(r, k, enabled), j) == if j == k then enabled else Get(r, j)
  {
  }

  lemma SetBoth(a: ReportReady, b: ReportReady, k: ReportKind, enabled: bool)
    requires Within(a, b)
    ensures Within(Set(a, k, enabled), Set(b, k, enabled))
  {
  }

  lemma SecuredSession(h: Host, encrypted: bool, bonded: bool, bond: Option<StoredBond>)
    ensures var h' := Secured(h, encrypted, bonded, bond);
      && h'.stored == h.stored
      && h'.session == if h.connected && encrypted && Bonds(h, bonded) then h.stored
                       else if !encrypted then NOT_READY else h.session
  {
  }

  lemma NothingIsReady(k: ReportKind)
    ensures !Get(NOT_READY, k)
  {
  }

  /** What a change makes of the session of one host, kind by kind. */
  predicate Effect(h: Host, c: HostChange, k: ReportKind) {
    && (Get(Changed(h, c).session, k) <==> Enabling(h, c, k) || (Get(h.session, k) && !Revoking(c, k)))
    && Within(Changed(h, c).session, Changed(h, c).stored)
  }

  lemma SecureEffect(h: Host, encrypted: bool, bonded: bool, bond: Option<StoredBond>, k: ReportKind)
    requires Within(h.session, h.stored)
    ensures Effect(h, Secure(encrypted, bonded, bond), k)
  {
    WithinMeans(h.session, h.stored, k);
    NothingIsReady(k);
    SecuredSession(h, encrypted, bonded, bond);
  }

  lemma CccdEffect(h: Host, kind: ReportKind, enabled: bool, k: ReportKind)
    requires Within(h.session, h.stored)
    ensures Effect(h, Cccd(kind, enabled), k)
  {
    SetMeans(h.session, kind, enabled, k);
    SetBoth(h.session, h.stored, kind, enabled);
  }

  lemma LinkEffect(h: Host, c: HostChange, k: ReportKind)
    requires c.Connect? || c.Disconnect?
    ensures Effect(h, c, k)
  {
    NothingIsReady(k);
  }

  lemma ChangeEffect(h: Host, c: HostChange, k: ReportKind)
    requires Within(h.session, h.stored)
    ensures Effect(h, c, k)
  {
    match c
    case Connect => LinkEffect(h, c, k);
    case Disconnect => LinkEffect(h, c, k);
    case Secure(encrypted, bonded, bond) => SecureEffect(h, encrypted, bonded, bond, k);
    case Cccd(kind, enabled) => CccdEffect(h, kind, enabled, k);
    case Leds(_) =>
    case Rename(_) =>
    case Discover(_) =>
  }

  lemma EveryHostIsValid(hs: Hosts, id: int)
    requires WellFormed(hs) && Lookup(hs, id).Some?
    ensures ValidId(id)
  {
    assert Holds(hs.slots, Find(hs.slots, id), id);
  }

  lemma ReadyChange(hs: Hosts, g: int, c: HostChange, id: int, k: ReportKind)
    requires WellFormed(hs) && SessionWithinStored(hs)
    ensures var e := Change(g, c);
      Ready(Step(hs, e), id, k) <==> Enables(hs, e, id, k) || (Ready(hs, id, k) && !Revokes(e, id, k))
  {
    TouchChanges(hs, g, c);
    if g == id {
      ChangeEffect(HostOrNew(hs, id), c, k);
      if Lookup(hs, id).Some? {
        EveryHostIsValid(hs, id);
      }
    }
  }

  /** What one event does to one kind of one host. */
  lemma ReadyStep(hs: Hosts, e: HostEvent, id: int, k: ReportKind)
    requires WellFormed(hs) && SessionWithinStored(hs)
    ensures Ready(Step(hs, e), id, k) <==> Enables(hs, e, id, k) || (Ready(hs, id, k) && !Revokes(e, id, k))
  {
    match e
    case Change(g, c) => ReadyChange(hs, g, c, id, k);
    case Select(g) => ActivateChanges(hs, g);
    case Deselect => assert Lookup(hs.(active := None), id) == Lookup(hs, id);
    case Forget(g) => RemoveChanges(hs, g);
    case Reload(stored, lastActive) =>
      NothingAtFirst(lastActive);
      RestoreIsDormant(NoHosts().(active := lastActive), stored);
  }

  lemma StepKeepsSessionWithinStored(hs: Hosts, e: HostEvent)
    requires WellFormed(hs) && SessionWithinStored(hs)
    ensures SessionWithinStored(Step(hs, e))
  {
    forall id | Lookup(Step(hs, e), id).Some?
      ensures Within(Lookup(Step(hs, e), id).value.session, Lookup(Step(hs, e), id).value.stored)
    {
      match e
      case Change(g, c) =>
        TouchChanges(hs, g, c);
        ChangeEffect(HostOrNew(hs, g), c, KeyboardKind);
      case Select(g) => ActivateChanges(hs, g);
      case Deselect => assert Lookup(hs.(active := None), id) == Lookup(hs, id);
      case Forget(g) => RemoveChanges(hs, g);
      case Reload(stored, lastActive) =>
        NothingAtFirst(lastActive);
        RestoreIsDormant(NoHosts().(active := lastActive), stored);
        assert forall k :: !Ready(Step(hs, e), id, k);
        assert !Ready(Step(hs, e), id, KeyboardKind) && !Ready(Step(hs, e), id, MouseKind);
        assert !Ready(Step(hs, e), id, ConsumerKind) && !Ready(Step(hs, e), id, KeyboardOutputKind);
    }
  }

  // ----------------------------------------------------------------- runs

  /** In every run, what is ready in the session was also stored. */
  lemma {:induction false} SessionIsStored(es: seq<HostEvent>)
    ensures WellFormed(Run(es)) && SessionWithinStored(Run(es))
    decreases |es|
  {
    NothingAtFirst(None);
    if es != [] {
      var before := es[..|es| - 1];
      SessionIsStored(before);
      StepKeepsShape(Run(before), es[|es| - 1]);
      StepKeepsSessionWithinStored(Run(before), es[|es| - 1]);
    }
  }

  /** One more event keeps a cause exactly when it does not revoke it. */
  lemma CauseExtends(es: seq<HostEvent>, e: HostEvent, id: int, k: ReportKind)
    ensures EnabledSince(es + [e], id, k) <==>
      Enables(Run(es), e, id, k) || (EnabledSince(es, id, k) && !Revokes(e, id, k))
  {
    var all := es + [e];
    assert all[..|es|] == es;
    forall n | 0 <= n < |es|
      ensures EnabledAt(all, n, id, k) <==> EnabledAt(es, n, id, k) && !Revokes(e, id, k)
    {
      assert all[..n] == es[..n] && all[n] == es[n];
      assert all[|es|] == e;
      assert forall m :: n < m < |es| ==> all[m] == es[m];
    }
    assert EnabledAt(all, |es|, id, k) <==> Enables(Run(es), e, id, k);
    if EnabledSince(es, id, k) && !Revokes(e, id, k) {
      var n :| 0 <= n < |es| && EnabledAt(es, n, id, k);
      assert EnabledAt(all, n, id, k);
    }
  }

  /** A kind is ready exactly when the history enabled it and did not revoke it. */
  lemma {:induction false} ReadyIsHistory(es: seq<HostEvent>, id: int, k: ReportKind)
    ensures Ready(Run(es), id, k) <==> EnabledSince(es, id, k)
    decreases |es|
  {
    NothingAtFirst(None);
    if es != [] {
      var before, e := es[..|es| - 1], es[|es| - 1];
      assert es == before + [e];
      SessionIsStored(before);
      ReadyIsHistory(before, id, k);
      ReadyStep(Run(before), e, id, k);
      CauseExtends(before, e, id, k);
    }
  }

  /** Readiness history: a host is sent a kind exactly while it is connected and
      encrypted and the kind was enabled and not revoked since. */
  lemma SendIsHistory(es: seq<HostEvent>, id: int, k: ReportKind)
    ensures CanSend(Run(es), id, k) <==>
      && Lookup(Run(es), id).Some? && Lookup(Run(es), id).value.connected && Lookup(Run(es), id).value.encrypted
      && EnabledSince(es, id, k)
  {
    ReadyIsHistory(es, id, k);
  }

  // ------------------------------------------------------------- restarts

  /** A host after a restart: what the link and the session knew is gone. */
  function Dormant(h: Host): Host {
    h.(connected := false, encrypted := false, session := NOT_READY, leds := None, discovered := EmptyName())
  }

  lemma RevivedIsDormant(h: Host)
    requires ValidId(h.id)
    ensures Revived(StoredOf(h)) == Dormant(h)
  {
  }

  /** Restoring the hosts of slots `n..` leaves the others as they were. */
  lemma {:induction false} RestoreSlots(hs: Hosts, slots: seq<Option<Host>>)
    requires WellFormed(hs) && |slots| <= SLOTS
    requires forall i :: 0 <= i < |slots| && slots[i].Some? ==> ValidId(slots[i].value.id)
    requires forall i, j :: 0 <= i < j < |slots| && slots[i].Some? && slots[j].Some? ==>
      slots[i].value.id != slots[j].value.id
    ensures var r := RestoreHosts(hs, StoredHosts(slots));
      && WellFormed(r) && r.active == hs.active
      && (forall i :: 0 <= i < |slots| && slots[i].Some? ==> Lookup(r, slots[i].value.id) == Some(Dormant(slots[i].value)))
      && (forall id :: (forall i :: 0 <= i < |slots| ==> !Holds(slots, i, id)) ==> Lookup(r, id) == Lookup(hs, id))
    decreases |slots|
  {
    if slots != [] {
      var rest := slots[1..];
      assert forall i :: 0 <= i < |rest| ==> rest[i] == slots[i + 1];
      var next := hs;
      if slots[0].Some? {
        var h := slots[0].value;
        RevivedIsDormant(h);
        UpsertFits(hs, h.id);
        PutChanges(Upsert(hs, h.id).value, Dormant(h));
        next := Put(Upsert(hs, h.id).value, Dormant(h));
        assert StoredHosts(slots) == [StoredOf(h)] + StoredHosts(rest);
        assert StoredHosts(slots)[1..] == StoredHosts(rest);
        assert RestoreHosts(hs, StoredHosts(slots)) == RestoreHosts(next, StoredHosts(rest));
        assert forall i :: 0 <= i < |rest| ==> !Holds(rest, i, h.id);
      }
      RestoreSlots(next, rest);
      var r := RestoreHosts(next, StoredHosts(rest));
      forall id | forall i :: 0 <= i < |slots| ==> !Holds(slots, i, id)
        ensures Lookup(r, id) == Lookup(hs, id)
      {
        assert !Holds(slots, 0, id);
        forall i | 0 <= i < |rest| ensures !Holds(rest, i, id) {
          assert !Holds(slots, i + 1, id);
        }
      }
    }
  }

  /** What a restart keeps of the table: every host's bond, stored choices and
      name, and the active target if its host is known. */
  ghost predicate KeptBy(hs: Hosts, r: Hosts) {
    && (forall id :: Lookup(r, id) == if Lookup(hs, id).Some? then Some(Dormant(Lookup(hs, id).value)) else None)
    && r.active == if hs.active.Some? && Lookup(hs, hs.active.value).Some? then hs.active else None
  }

  lemma RestoreKeeps(hs: Hosts)
    requires WellFormed(hs)
    ensures KeptBy(hs, Restore(StoredHosts(hs.slots), StoredActive(hs)))
  {
    var empty := NoHosts().(active := StoredActive(hs));
    NothingAtFirst(StoredActive(hs));
    RestoreSlots(empty, hs.slots);
    var r := RestoreHosts(empty, StoredHosts(hs.slots));
    forall id
      ensures Lookup(r, id) == if Lookup(hs, id).Some? then Some(Dormant(Lookup(hs, id).value)) else None
    {
      if Lookup(hs, id).Some? {
        assert Holds(hs.slots, Find(hs.slots, id), id);
      }
    }
  }

  /** Through the flash image and back: decoding the image of a state that holds
      the table's hosts restores the table, up to link and session. */
  lemma HostsSurviveRestart(hs: Hosts, s: StorageState)
    requires WellFormed(hs) && RoundTrip.Encodable(s) && RoundTrip.InRange(s)
    requires s.hosts == StoredHosts(hs.slots) && s.lastActive == StoredActive(hs)
    ensures var d := DecodeImage(Image(s));
      d.Success? && KeptBy(hs, Restore(d.value.hosts, d.value.lastActive))
  {
    RoundTrip.DecodeOfEncode(s);
    RestoreKeeps(hs);
  }
}
