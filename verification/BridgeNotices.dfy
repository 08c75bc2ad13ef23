/** What the bridge tells the rest of the device: every status shows the state after
    the event, every new target is announced, and nothing that outlives a restart
    changes without being persisted. */
module BridgeNotices {
  import opened Options
  import opened StorageImage
  import opened HostState
  import opened HostMachine
  import opened Bridge
  import opened BridgeInput

  // ---------------------------------------------------------------- statuses

  /** Every status among the actions is about `s`. */
  predicate Truthful(actions: seq<Action>, s: State) {
    forall i :: 0 <= i < |actions| && actions[i].StatusChanged? ==>
      actions[i].active == s.hosts.active && actions[i].pairable == s.pairable
  }

  ghost predicate TellsStatus(actions: seq<Action>) {
    exists i :: 0 <= i < |actions| && actions[i].StatusChanged?
  }

  lemma StatusTells(e: Effect)
    requires Truthful(e.actions, e.state)
    ensures Truthful(WithStatus(e).actions, e.state) && TellsStatus(WithStatus(e).actions)
  {
    assert WithStatus(e).actions[|e.actions|].StatusChanged?;
  }

  lemma TransitionIsTruthful(s: State, target: int, release: Option<Reason>)
    requires TransitionWithStatus(s, target, release).Done?
    ensures var e := TransitionWithStatus(s, target, release).effect; Truthful(e.actions, e.state) && TellsStatus(e.actions)
  {
    TransitionIsMute(s, target, release);
    StatusTells(Transition(s, target, release).effect);
  }

  lemma TransitionIsMute(s: State, target: int, release: Option<Reason>)
    requires Transition(s, target, release).Done?
    ensures var actions := Transition(s, target, release).effect.actions;
      forall i :: 0 <= i < |actions| ==> !actions[i].StatusChanged?
  {
    var e := Transition(s, target, release).effect;
    var rest := [ActivateInput(target)] + ActiveLeds(e.state) + [PersistProfiles];
    assert forall i :: 0 <= i < |rest| ==> !rest[i].StatusChanged?;
  }

  lemma LastIsStatus(front: seq<Action>, s: State)
    requires forall i :: 0 <= i < |front| ==> !front[i].StatusChanged?
    ensures Truthful(front + [Status(s)], s) && TellsStatus(front + [Status(s)])
  {
    assert (front + [Status(s)])[|front|].StatusChanged?;
  }

  lemma ClearIsTruthful(s: State, h: int)
    ensures var e := Cleared(s, h);
      && Truthful(e.actions, e.state)
      && (Lookup(s.hosts, h).Some? ==> TellsStatus(e.actions))
      && (Lookup(s.hosts, h).None? ==> e.state.hosts.active == s.hosts.active)
  {
    var e := Cleared(s, h);
    if Lookup(s.hosts, h).Some? {
      ClearEndsWithStatus(s, h);
      LastIsStatus(e.actions[..|e.actions| - 1], e.state);
      assert e.actions == e.actions[..|e.actions| - 1] + [Status(e.state)];
    }
  }

  lemma ClearActionsEnd(s: State, h: int)
    requires Lookup(s.hosts, h).Some?
    ensures EndsWithStatus(ClearActions(s, h), Cleared(s, h).state)
  {
    var leds := if s.hosts.active == Some(h) then LedActions(s.sinks, 0) else [];
    assert ClearActions(s, h) ==
      [ClearBond(h, Lookup(s.hosts, h).value.bond), PersistProfiles] + leds + [Status(Cleared(s, h).state)];
  }

  /** The last action is the status of `s`, and no other is one. */
  ghost predicate EndsWithStatus(actions: seq<Action>, s: State) {
    var n := |actions| - 1;
    n >= 0 && actions[n] == Status(s) && forall i :: 0 <= i < n ==> !actions[i].StatusChanged?
  }

  lemma EndsAfter(front: seq<Action>, rest: seq<Action>, s: State)
    requires EndsWithStatus(rest, s) && forall i :: 0 <= i < |front| ==> !front[i].StatusChanged?
    ensures EndsWithStatus(front + rest, s)
  {
  }

  lemma ClearEndsWithStatus(s: State, h: int)
    requires Lookup(s.hosts, h).Some?
    ensures EndsWithStatus(Cleared(s, h).actions, Cleared(s, h).state)
  {
    var releases := if s.hosts.active == Some(h) then ReleaseReports(s.hosts, h, SafetyRelease) else [];
    var ends: seq<Action> := if s.pairable == Some(h) then [RejectPairing(h)] else [];
    ClearActionsEnd(s, h);
    EndsAfter(ends, ClearActions(s, h), Cleared(s, h).state);
    EndsAfter(releases, ends + ClearActions(s, h), Cleared(s, h).state);
  }

  lemma SecuredIsTruthful(s: State, h: int, encrypted: bool, bonded: bool, bond: Option<StoredBond>)
    ensures var r := Bridge.Secured(s, h, encrypted, bonded, bond);
      r.Done? ==> Truthful(r.effect.actions, r.effect.state) && TellsStatus(r.effect.actions)
  {
    var r := Bridge.Secured(s, h, encrypted, bonded, bond);
    if r.Done? {
      assert r.effect.actions[|r.effect.actions| - 1].StatusChanged?;
    }
  }

  lemma ChangingIsTruthful(s: State, h: int, c: HostChange)
    ensures var r := Changing(s, h, c);
      r.Done? ==> Truthful(r.effect.actions, r.effect.state) && TellsStatus(r.effect.actions)
  {
    var r := Changing(s, h, c);
    if r.Done? {
      assert r.effect.actions[|r.effect.actions| - 1].StatusChanged?;
    }
  }

  lemma DisconnectIsTruthful(s: State, h: int)
    ensures var r := Disconnected(s, h);
      r.Done? ==> Truthful(r.effect.actions, r.effect.state) && TellsStatus(r.effect.actions)
  {
    if Disconnected(s, h).Done? {
      if Fallback(s, h).Some? {
        TransitionIsTruthful(Unlinked(s, h), Fallback(s, h).value, None);
      } else {
        StatusTells(Effect(Unlinked(s, h), []));
      }
    }
  }

  lemma PairingIsTruthful(s: State, h: int)
    ensures var e := EnterPairing(s, h); Truthful(e.actions, e.state) && TellsStatus(e.actions)
    ensures var e := ExpirePairing(s, h); Truthful(e.actions, e.state) && (e.state != s ==> TellsStatus(e.actions))
  {
    var ends := if s.pairable.Some? && s.pairable.value != h then [RejectPairing(s.pairable.value)] else [];
    StatusTells(Effect(s.(pairable := Some(h)), ends + [AllowPairing(h)]));
    StatusTells(Effect(s.(pairable := None), [RejectPairing(h)]));
  }

  /** The event's statuses are true, and it tells one if it changes what they show. */
  ghost predicate TellsTruth(s: State, e: Event, r: Effect) {
    && Truthful(r.actions, r.state)
    && (r.state.hosts.active != s.hosts.active ==> TellsStatus(r.actions))
    && (r.state.pairable != s.pairable ==>
          TellsStatus(r.actions) || (e.ClearHost? && Lookup(s.hosts, e.host).None?))
  }

  lemma HostEventIsTrue(s: State, e: Event)
    requires e.HostConnected? || e.CccdChanged? || e.SetHostName? || e.HostDisconnected? || e.HostSecurityChanged?
    ensures TellsTruth(s, e, Step(s, e))
  {
    match e
    case HostConnected(h) => ChangingIsTruthful(s, h, Connect);
    case CccdChanged(h, k, enabled) => ChangingIsTruthful(s, h, Cccd(k, enabled));
    case SetHostName(h, name) => ChangingIsTruthful(s, h, Rename(name));
    case HostDisconnected(h) => DisconnectIsTruthful(s, h);
    case HostSecurityChanged(h, encrypted, bonded, bond) => SecuredIsTruthful(s, h, encrypted, bonded, bond);
  }

  lemma DetachIsTrue(s: State, e: Event)
    requires e.InterfaceRemoved? || e.DeviceReset?
    ensures TellsTruth(s, e, Step(s, e))
  {
    if e.InterfaceRemoved? {
      StatusTells(Detached(s.(sinks := Unregistered(s.sinks, e.interface)), e.aggregate));
    }
  }

  lemma LedsAreTrue(s: State, e: Event)
    requires Sound(s) && (e.HostLedsChanged? || e.InterfaceConnected?)
    ensures TellsTruth(s, e, Step(s, e))
  {
    if e.HostLedsChanged? {
      TouchChanges(s.hosts, e.host, Leds(e.leds));
    }
  }

  /** No status is out of date, and a new target or a new pairable host is always
      told; but forgetting a host without an entry ends its pairing silently. */
  lemma StatusIsTrue(s: State, e: Event)
    requires Sound(s)
    ensures TellsTruth(s, e, Step(s, e))
  {
    match e
    case EnterPairingMode(h) => PairingIsTruthful(s, h);
    case PairingModeExpired(h) => PairingIsTruthful(s, h);
    case ClearHost(h) => ClearIsTruthful(s, h);
    case SwitchTarget(h) =>
      if Transition(s, h, Some(SwitchRelease)).Done? { TransitionIsTruthful(s, h, Some(SwitchRelease)); }
    case InputFrame(keyboard, mouse, consumer) => FrameOnlyNotifies(s, keyboard, mouse, consumer);
    case InterfaceRemoved(_, _) => DetachIsTrue(s, e);
    case DeviceReset(_) => DetachIsTrue(s, e);
    case InterfaceConnected(_, _, _) => LedsAreTrue(s, e);
    case HostLedsChanged(_, _) => LedsAreTrue(s, e);
    case VendorFrame =>
    case _ => HostEventIsTrue(s, e);
  }

  // -------------------------------------------------------------- persistence

  /** What storage keeps of a host; a host without an entry counts as new. */
  function Durable(hs: Hosts, id: int): StoredHost
    requires ValidId(id)
  {
    StoredOf(HostOrNew(hs, id))
  }

  /** Something that outlives a restart is different. */
  ghost predicate Differs(a: Hosts, b: Hosts) {
    a.active != b.active || exists id :: ValidId(id) && Durable(a, id) != Durable(b, id)
  }

  ghost predicate Asks(actions: seq<Action>) {
    exists i :: 0 <= i < |actions| && actions[i].PersistProfiles?
  }

  lemma AsksJoin(a: seq<Action>, b: seq<Action>)
    ensures Asks(a + b) <==> Asks(a) || Asks(b)
  {
    assert forall i :: 0 <= i < |b| ==> (a + b)[|a| + i] == b[i];
    if Asks(a) {
      var i :| 0 <= i < |a| && a[i].PersistProfiles?;
      assert (a + b)[i] == a[i];
    }
  }

  /** A change asks for persistence exactly when it alters something durable. */
  lemma ChangePersistsIff(h: Host, c: HostChange)
    requires ValidId(h.id)
    ensures Persists(h, c) <==> StoredOf(Changed(h, c)) != StoredOf(h)
  {
    match c
    case Cccd(k, enabled) => assert Set(h.stored, k, enabled) == h.stored <==> Get(h.stored, k) == enabled;
    case _ =>
  }

  lemma TouchDiffers(hs: Hosts, id: int, c: HostChange)
    requires WellFormed(hs) && Touch(hs, id, c).Ok? && ValidId(id)
    ensures Differs(hs, Touch(hs, id, c).value) <==> Persists(HostOrNew(hs, id), c)
  {
    TouchChanges(hs, id, c);
    ChangePersistsIff(HostOrNew(hs, id), c);
    var hs' := Touch(hs, id, c).value;
    assert HostOrNew(hs', id) == Changed(HostOrNew(hs, id), c) || (c.Disconnect? && Lookup(hs, id).None?);
    forall g | g != id && ValidId(g) ensures Durable(hs', g) == Durable(hs, g) {
      assert Lookup(hs', g) == Lookup(hs, g);
    }
    if Persists(HostOrNew(hs, id), c) {
      assert Durable(hs, id) != Durable(hs', id);
    }
  }

  // -------------------------------------------------------- persisting events

  /** Durable changes ask for persistence; only forgetting an entry may ask without. */
  ghost predicate Persisted(s: State, e: Event, r: Effect) {
    && (Differs(s.hosts, r.state.hosts) ==> Asks(r.actions))
    && (Asks(r.actions) ==> Differs(s.hosts, r.state.hosts) || (e.ClearHost? && Lookup(s.hosts, e.host).Some?))
  }

  lemma ChangingPersists(s: State, h: int, c: HostChange)
    requires Sound(s) && Changing(s, h, c).Done? && !c.Disconnect?
    ensures var r := Changing(s, h, c).effect; Differs(s.hosts, r.state.hosts) <==> Asks(r.actions)
  {
    TouchChanges(s.hosts, h, c);
    TouchDiffers(s.hosts, h, c);
    var persist: seq<Action> := if Persists(HostOrNew(s.hosts, h), c) then [PersistProfiles] else [];
    assert Asks(persist) <==> persist != [] by { assert persist != [] ==> persist[0].PersistProfiles?; }
    var s' := Changing(s, h, c).effect.state;
    AsksJoin(persist, [Status(s')]);
    assert !Asks([Status(s')]);
  }

  lemma SecuredPersists(s: State, h: int, encrypted: bool, bonded: bool, bond: Option<StoredBond>)
    requires Sound(s) && Bridge.Secured(s, h, encrypted, bonded, bond).Done?
    ensures var r := Bridge.Secured(s, h, encrypted, bonded, bond).effect; Differs(s.hosts, r.state.hosts) <==> Asks(r.actions)
  {
    var c := Secure(encrypted, bonded, bond);
    TouchChanges(s.hosts, h, c);
    TouchDiffers(s.hosts, h, c);
    var r := Bridge.Secured(s, h, encrypted, bonded, bond).effect;
    var persist: seq<Action> := if Persists(HostOrNew(s.hosts, h), c) then [PersistProfiles] else [];
    var ends: seq<Action> := if bonded && s.pairable == Some(h) then [RejectPairing(h)] else [];
    assert Asks(persist) <==> persist != [] by { assert persist != [] ==> persist[0].PersistProfiles?; }
    AsksJoin(persist + ends, [Status(r.state)]);
    AsksJoin(persist, ends);
    assert !Asks(ends) && !Asks([Status(r.state)]);
  }

  lemma TransitionPersists(s: State, target: int, release: Option<Reason>)
    requires Sound(s) && TransitionWithStatus(s, target, release).Done?
    ensures var r := TransitionWithStatus(s, target, release).effect;
      && (Differs(s.hosts, r.state.hosts) <==> Asks(r.actions))
      && (Asks(r.actions) <==> s.hosts.active != Some(target))
  {
    ActivateChanges(s.hosts, target);
    var e := Transition(s, target, release).effect;
    AsksJoin(e.actions, [Status(e.state)]);
    assert !Asks([Status(e.state)]);
    if s.hosts.active != Some(target) {
      assert e.actions[|e.actions| - 1].PersistProfiles?;
    }
  }

  lemma UnlinkedKeepsDurable(s: State, h: int)
    requires Sound(s)
    ensures !Differs(s.hosts, Unlinked(s, h).hosts) && Sound(Unlinked(s, h))
  {
    TouchChanges(s.hosts, h, Disconnect);
    var hs' := Unlinked(s, h).hosts;
    forall g | ValidId(g) ensures Durable(hs', g) == Durable(s.hosts, g) {
      assert g != h ==> Lookup(hs', g) == Lookup(s.hosts, g);
    }
  }

  lemma DisconnectPersists(s: State, h: int)
    requires Sound(s) && Disconnected(s, h).Done?
    ensures var r := Disconnected(s, h).effect; Differs(s.hosts, r.state.hosts) <==> Asks(r.actions)
  {
    UnlinkedKeepsDurable(s, h);
    var s' := Unlinked(s, h);
    if Fallback(s, h).Some? {
      TransitionPersists(s', Fallback(s, h).value, None);
      SameDurable(s.hosts, s'.hosts, Disconnected(s, h).effect.state.hosts);
    } else {
      assert !Asks([] + [Status(s')]);
    }
  }

  /** What does not differ can stand for the other. */
  lemma SameDurable(a: Hosts, b: Hosts, c: Hosts)
    requires !Differs(a, b)
    ensures Differs(a, c) <==> Differs(b, c)
  {
    assert forall id :: ValidId(id) ==> Durable(a, id) == Durable(b, id);
  }

  lemma ClearPersists(s: State, h: int)
    requires Sound(s)
    ensures Persisted(s, ClearHost(h), Cleared(s, h))
  {
    RemoveChanges(s.hosts, h);
    var e := Cleared(s, h);
    var releases := if s.hosts.active == Some(h) then ReleaseReports(s.hosts, h, SafetyRelease) else [];
    var ends: seq<Action> := if s.pairable == Some(h) then [RejectPairing(h)] else [];
    AsksJoin(releases, ends + ClearActions(s, h));
    AsksJoin(ends, ClearActions(s, h));
    assert !Asks(releases) && !Asks(ends);
    if Lookup(s.hosts, h).Some? {
      assert ClearActions(s, h)[1].PersistProfiles?;
    } else {
      assert e.state.hosts == s.hosts;
    }
  }

  /** Events that leave the host table as it is durably, and ask for nothing. */
  lemma OthersPersistNothing(s: State, e: Event)
    requires Sound(s)
    requires e.InputFrame? || e.VendorFrame? || e.InterfaceConnected? || e.HostLedsChanged?
    ensures !Differs(s.hosts, Step(s, e).state.hosts) && !Asks(Step(s, e).actions)
  {
    match e
    case InputFrame(keyboard, mouse, consumer) => FrameOnlyNotifies(s, keyboard, mouse, consumer);
    case HostLedsChanged(h, leds) =>
      if ValidId(h) {
        TouchChanges(s.hosts, h, Leds(leds));
        TouchDiffers(s.hosts, h, Leds(leds));
      }
    case _ =>
  }

  lemma DetachPersistsNothing(s: State, now: Input)
    ensures !Asks(Detached(s, now).actions) && !Asks(WithStatus(Detached(s, now)).actions)
  {
  }

  lemma InputPersistsNothing(s: State, e: Event)
    requires e.EnterPairingMode? || e.PairingModeExpired? || e.InterfaceRemoved? || e.DeviceReset?
    ensures !Differs(s.hosts, Step(s, e).state.hosts) && !Asks(Step(s, e).actions)
  {
    match e
    case InterfaceRemoved(i, aggregate) => DetachPersistsNothing(s.(sinks := Unregistered(s.sinks, i)), aggregate);
    case DeviceReset(aggregate) => if aggregate.Some? { DetachPersistsNothing(s, aggregate.value); }
    case _ =>
  }

  /** Nothing durable changes unpersisted, and nothing is written for nothing but when
      an entry is forgotten. */
  lemma StepPersists(s: State, e: Event)
    requires Sound(s)
    ensures Persisted(s, e, Step(s, e))
  {
    if Handle(s, e).Done? {
      match e
      case HostConnected(h) => ChangingPersists(s, h, Connect);
      case CccdChanged(h, k, enabled) => ChangingPersists(s, h, Cccd(k, enabled));
      case SetHostName(h, name) => ChangingPersists(s, h, Rename(name));
      case HostSecurityChanged(h, encrypted, bonded, bond) => SecuredPersists(s, h, encrypted, bonded, bond);
      case HostDisconnected(h) => DisconnectPersists(s, h);
      case SwitchTarget(h) => TransitionPersists(s, h, Some(SwitchRelease));
      case ClearHost(h) => ClearPersists(s, h);
      case EnterPairingMode(_) => InputPersistsNothing(s, e);
      case PairingModeExpired(_) => InputPersistsNothing(s, e);
      case InterfaceRemoved(_, _) => InputPersistsNothing(s, e);
      case DeviceReset(_) => InputPersistsNothing(s, e);
      case _ => OthersPersistNothing(s, e);
    }
  }

  // ------------------------------------------------- new targets, lost bonds

  /** Input is announced for a target exactly when it becomes the active one. */
  ghost predicate Announced(s: State, r: Effect) {
    forall h :: (exists i :: 0 <= i < |r.actions| && r.actions[i] == ActivateInput(h))
                <==> s.hosts.active != Some(h) && r.state.hosts.active == Some(h)
  }

  predicate AnnouncesNothing(actions: seq<Action>) {
    forall i :: 0 <= i < |actions| ==> !actions[i].ActivateInput?
  }

  lemma QuietIsAnnounced(s: State, r: Effect)
    requires AnnouncesNothing(r.actions) && (r.state.hosts.active.Some? ==> r.state.hosts.active == s.hosts.active)
    ensures Announced(s, r)
  {
  }

  function AfterAnnouncement(s: State): (r: seq<Action>)
    ensures AnnouncesNothing(r) && ErasesNothing(r)
  {
    ActiveLeds(s) + [PersistProfiles] + [Status(s)]
  }

  lemma TransitionAnnounces(s: State, target: int, release: Option<Reason>)
    requires TransitionWithStatus(s, target, release).Done? && s.hosts.active != Some(target)
    ensures var r := TransitionWithStatus(s, target, release).effect;
      r.actions == ReleasesFor(s, release) + [ActivateInput(target)] + AfterAnnouncement(r.state)
  {
    var r := TransitionWithStatus(s, target, release).effect;
    Regrouped(ReleasesFor(s, release), [ActivateInput(target)], ActiveLeds(r.state), [PersistProfiles], [Status(r.state)]);
  }

  lemma Regrouped(a: seq<Action>, b: seq<Action>, c: seq<Action>, d: seq<Action>, e: seq<Action>)
    ensures a + (b + c + d) + e == a + b + (c + d + e)
  {
  }

  lemma ReleasesAnnounceNothing(s: State, release: Option<Reason>)
    ensures AnnouncesNothing(ReleasesFor(s, release)) && ErasesNothing(ReleasesFor(s, release))
  {
  }

  lemma TransitionIsAnnounced(s: State, target: int, release: Option<Reason>)
    requires Sound(s) && TransitionWithStatus(s, target, release).Done?
    ensures Announced(s, TransitionWithStatus(s, target, release).effect)
  {
    ActivateChanges(s.hosts, target);
    var r := TransitionWithStatus(s, target, release).effect;
    if s.hosts.active == Some(target) {
      QuietIsAnnounced(s, r);
    } else {
      TransitionAnnounces(s, target, release);
      ReleasesAnnounceNothing(s, release);
      OneAnnouncement(ReleasesFor(s, release), target, AfterAnnouncement(r.state));
    }
  }

  lemma OneAnnouncement(front: seq<Action>, target: int, rest: seq<Action>)
    requires AnnouncesNothing(front) && AnnouncesNothing(rest)
    ensures var all := front + [ActivateInput(target)] + rest;
      forall h :: (exists i :: 0 <= i < |all| && all[i] == ActivateInput(h)) <==> h == target
  {
    var all := front + [ActivateInput(target)] + rest;
    assert all[|front|] == ActivateInput(target);
    forall i | 0 <= i < |all| && i != |front| ensures !all[i].ActivateInput? {
      assert all[i] == if i < |front| then front[i] else rest[i - |front| - 1];
    }
  }

  lemma ClearAnnouncesNothing(s: State, h: int)
    ensures AnnouncesNothing(Cleared(s, h).actions)
  {
    var releases := if s.hosts.active == Some(h) then ReleaseReports(s.hosts, h, SafetyRelease) else [];
    var ends: seq<Action> := if s.pairable == Some(h) then [RejectPairing(h)] else [];
    assert AnnouncesNothing(releases) && AnnouncesNothing(ends) && AnnouncesNothing(ClearActions(s, h));
    assert AnnouncesNothing(ends + ClearActions(s, h));
  }

  lemma DetachIsQuiet(s: State, now: Input)
    ensures AnnouncesNothing(Detached(s, now).actions) && AnnouncesNothing(WithStatus(Detached(s, now)).actions)
    ensures Detached(s, now).state.hosts == s.hosts
  {
  }

  lemma DetachAnnouncesNothing(s: State, e: Event)
    requires e.InterfaceRemoved? || e.DeviceReset? || e.InputFrame?
    ensures AnnouncesNothing(Step(s, e).actions) && Step(s, e).state.hosts == s.hosts
  {
    match e
    case InputFrame(keyboard, mouse, consumer) => FrameOnlyNotifies(s, keyboard, mouse, consumer);
    case InterfaceRemoved(i, aggregate) => DetachIsQuiet(s.(sinks := Unregistered(s.sinks, i)), aggregate);
    case DeviceReset(aggregate) => if aggregate.Some? { DetachIsQuiet(s, aggregate.value); }
  }

  lemma HarmlessAnnouncesNothing(s: State, e: Event)
    requires Sound(s) && Harmless(e)
    ensures AnnouncesNothing(Step(s, e).actions) && Step(s, e).state.hosts.active == s.hosts.active
  {
    HarmlessStep(s, e, 0);
  }

  lemma TargetIsAnnounced(s: State, e: Event)
    requires Sound(s)
    ensures Announced(s, Step(s, e))
  {
    if Handle(s, e).Failed? {
      QuietIsAnnounced(s, Step(s, e));
    } else if Harmless(e) {
      HarmlessAnnouncesNothing(s, e);
      QuietIsAnnounced(s, Step(s, e));
    } else {
      match e
      case SwitchTarget(h) => TransitionIsAnnounced(s, h, Some(SwitchRelease));
      case HostDisconnected(h) => DisconnectIsAnnounced(s, h);
      case ClearHost(h) =>
        ClearAnnouncesNothing(s, h);
        QuietIsAnnounced(s, Step(s, e));
      case _ =>
        DetachAnnouncesNothing(s, e);
        QuietIsAnnounced(s, Step(s, e));
    }
  }

  lemma DisconnectIsAnnounced(s: State, h: int)
    requires Sound(s) && Disconnected(s, h).Done?
    ensures Announced(s, Disconnected(s, h).effect)
  {
    UnlinkedKeepsDurable(s, h);
    var s' := Unlinked(s, h);
    if Fallback(s, h).Some? {
      TransitionIsAnnounced(s', Fallback(s, h).value, None);
    } else {
      QuietIsAnnounced(s, Effect(s', [] + [Status(s')]));
    }
  }

  ghost predicate Erases(actions: seq<Action>, h: int, bond: Option<StoredBond>) {
    exists i :: 0 <= i < |actions| && actions[i] == ClearBond(h, bond)
  }

  predicate ErasesNothing(actions: seq<Action>) {
    forall i :: 0 <= i < |actions| ==> !actions[i].ClearBond?
  }

  lemma TransitionErasesNothing(s: State, target: int, release: Option<Reason>)
    requires TransitionWithStatus(s, target, release).Done?
    ensures ErasesNothing(TransitionWithStatus(s, target, release).effect.actions)
  {
    if s.hosts.active != Some(target) {
      var r := TransitionWithStatus(s, target, release).effect;
      TransitionAnnounces(s, target, release);
      ReleasesAnnounceNothing(s, release);
      EraseJoin(ReleasesFor(s, release), [ActivateInput(target)], AfterAnnouncement(r.state));
    }
  }

  lemma EraseJoin(a: seq<Action>, b: seq<Action>, c: seq<Action>)
    requires ErasesNothing(a) && ErasesNothing(b) && ErasesNothing(c)
    ensures ErasesNothing(a + b + c)
  {
  }

  lemma DisconnectErasesNothing(s: State, h: int)
    requires Disconnected(s, h).Done?
    ensures ErasesNothing(Disconnected(s, h).effect.actions)
  {
    if Fallback(s, h).Some? {
      TransitionErasesNothing(Unlinked(s, h), Fallback(s, h).value, None);
    }
  }

  lemma HarmlessErasesNothing(s: State, e: Event)
    requires Harmless(e)
    ensures ErasesNothing(Step(s, e).actions)
  {
  }

  lemma DetachErasesNothing(s: State, now: Input)
    ensures ErasesNothing(Detached(s, now).actions) && ErasesNothing(WithStatus(Detached(s, now)).actions)
  {
  }

  lemma OthersEraseNothing(s: State, e: Event)
    requires !e.ClearHost? && Handle(s, e).Done?
    ensures ErasesNothing(Step(s, e).actions)
  {
    match e
    case InputFrame(keyboard, mouse, consumer) => FrameOnlyNotifies(s, keyboard, mouse, consumer);
    case SwitchTarget(h) => TransitionErasesNothing(s, h, Some(SwitchRelease));
    case HostDisconnected(h) => DisconnectErasesNothing(s, h);
    case InterfaceRemoved(i, aggregate) => DetachErasesNothing(s.(sinks := Unregistered(s.sinks, i)), aggregate);
    case DeviceReset(aggregate) => if aggregate.Some? { DetachErasesNothing(s, aggregate.value); }
    case _ => HarmlessErasesNothing(s, e);
  }

  lemma ClearErases(s: State, host: int, h: int, bond: Option<StoredBond>)
    ensures Erases(Cleared(s, host).actions, h, bond)
            <==> host == h && Lookup(s.hosts, h).Some? && Lookup(s.hosts, h).value.bond == bond
  {
    var releases := if s.hosts.active == Some(host) then ReleaseReports(s.hosts, host, SafetyRelease) else [];
    var ends: seq<Action> := if s.pairable == Some(host) then [RejectPairing(host)] else [];
    assert ErasesNothing(releases) && ErasesNothing(ends);
    ErasesFrom(ends, ClearActions(s, host), h, bond);
    ErasesFrom(releases, ends + ClearActions(s, host), h, bond);
    if Lookup(s.hosts, host).Some? {
      ClearActionsErase(s, host, h, bond);
    }
  }

  lemma ErasesFrom(front: seq<Action>, rest: seq<Action>, h: int, bond: Option<StoredBond>)
    requires ErasesNothing(front)
    ensures Erases(front + rest, h, bond) <==> Erases(rest, h, bond)
  {
    assert forall i :: 0 <= i < |rest| ==> (front + rest)[|front| + i] == rest[i];
    if Erases(front + rest, h, bond) {
      var i :| 0 <= i < |front + rest| && (front + rest)[i] == ClearBond(h, bond);
      assert i >= |front| && rest[i - |front|] == ClearBond(h, bond);
    }
  }

  lemma ClearActionsErase(s: State, host: int, h: int, bond: Option<StoredBond>)
    requires Lookup(s.hosts, host).Some?
    ensures Erases(ClearActions(s, host), h, bond) <==> host == h && Lookup(s.hosts, h).value.bond == bond
  {
    assert ClearActions(s, host)[0] == ClearBond(host, Lookup(s.hosts, host).value.bond);
  }

  /** Forgetting an entry hands its bond over to be erased, and nothing else does. */
  lemma BondIsErased(s: State, e: Event, h: int, bond: Option<StoredBond>)
    ensures Erases(Step(s, e).actions, h, bond)
            <==> e == ClearHost(h) && Lookup(s.hosts, h).Some? && Lookup(s.hosts, h).value.bond == bond
  {
    if e.ClearHost? {
      ClearErases(s, e.host, h, bond);
    } else if Handle(s, e).Done? {
      OthersEraseNothing(s, e);
    }
  }

  // -------------------------------------------------------------------- runs

  /** The host table as it was last persisted or restored. */
  function LastPersisted(hs: seq<Happening>): Hosts {
    if hs == [] then NoHosts()
    else
      var before, h := hs[..|hs| - 1], hs[|hs| - 1];
      var r := Next(Run(Initial(), before), h);
      if h.StorageRestored? || (exists i :: 0 <= i < |r.actions| && r.actions[i].PersistProfiles?) then r.state.hosts
      else LastPersisted(before)
  }

  /** Over every run, what was last persisted agrees with the present in everything
      that outlives a restart. */
  lemma {:induction false} NothingIsForgotten(hs: seq<Happening>)
    ensures !Differs(LastPersisted(hs), Run(Initial(), hs).hosts)
    decreases |hs|
  {
    if hs != [] {
      var before, h := hs[..|hs| - 1], hs[|hs| - 1];
      var s, r := Run(Initial(), before), Next(Run(Initial(), before), h);
      NothingIsForgotten(before);
      NoStuckInput(before, 0);
      if !h.StorageRestored? && !Asks(r.actions) {
        NextKeepsDurable(s, h);
        SameDurable(LastPersisted(before), s.hosts, r.state.hosts);
      }
    }
  }

  lemma NextKeepsDurable(s: State, h: Happening)
    requires Sound(s) && !h.StorageRestored? && !Asks(Next(s, h).actions)
    ensures !Differs(s.hosts, Next(s, h).state.hosts)
  {
    match h
    case On(e) => StepPersists(s, e);
    case PrepareForQuiesce =>
    case LinkDropped(host) => UnlinkedKeepsDurable(s, host);
    case NameDiscovered(host, name) =>
      TouchChanges(s.hosts, host, Discover(name));
      if ValidId(host) {
        TouchDiffers(s.hosts, host, Discover(name));
      }
  }
}
