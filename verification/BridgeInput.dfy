/** No stuck input: what every computer was last told, over all runs.

  `View` follows one computer: the keys, buttons and usage of the last reports
  sent to it. A computer that stops taking a kind of report forgets that kind.
 */
module BridgeInput {
  import opened Options
  import opened StorageImage
  import opened Keyboard
  import opened HostState
  import opened HostMachine
  import HostHistory
  import opened Bridge

  /** Everything that can happen to the bridge. */
  datatype Happening =
    | On(event: Event)
    | PrepareForQuiesce
    | LinkDropped(host: int)
    | NameDiscovered(host: int, name: FixedName)
    | StorageRestored(stored: seq<StoredHost>, lastActive: Option<int>)

  function Next(s: State, h: Happening): Effect {
    match h
    case On(e) => Step(s, e)
    case PrepareForQuiesce => Effect(QuiescePrepared(s), [])
    case LinkDropped(host) => Effect(Unlinked(s, host), [])
    case NameDiscovered(host, name) =>
      var t := Touch(s.hosts, host, Discover(name));
      Effect(if t.Ok? then s.(hosts := t.value) else s, [])
    case StorageRestored(stored, lastActive) => Effect(Restored(s, stored, lastActive), [])
  }

  // ------------------------------------------------------------------ views

  /** What host `g` knows after one more action. */
  function Told(v: Input, a: Action, g: int): Input {
    if !a.Notify? || a.target != g then v
    else
      match a.report
      case KeyboardReport(keys) => v.(keyboard := keys)
      case MouseReport(buttons, _) => v.(buttons := buttons)
      case ConsumerReport(usage) => v.(consumer := usage)
  }

  function Deliver(v: Input, actions: seq<Action>, g: int): Input
    decreases |actions|
  {
    if actions == [] then v else Deliver(Told(v, actions[0], g), actions[1..], g)
  }

  /** A kind that cannot be sent is forgotten. */
  function Forget(v: Input, hosts: Hosts, g: int): Input {
    Input(if CanSend(hosts, g, KeyboardKind) then v.keyboard else NO_KEYS,
          if CanSend(hosts, g, MouseKind) then v.buttons else {},
          if CanSend(hosts, g, ConsumerKind) then v.consumer else None)
  }

  function ViewAfter(v: Input, e: Effect, g: int): Input {
    Forget(Deliver(v, e.actions, g), e.state.hosts, g)
  }

  function Run(from: State, hs: seq<Happening>): State {
    if hs == [] then from else Next(Run(from, hs[..|hs| - 1]), hs[|hs| - 1]).state
  }

  function View(from: State, hs: seq<Happening>, g: int): Input {
    if hs == [] then NEUTRAL
    else ViewAfter(View(from, hs[..|hs| - 1], g), Next(Run(from, hs[..|hs| - 1]), hs[|hs| - 1]), g)
  }

  // ------------------------------------------------------------ the property

  /** The view shows nothing that is not held. */
  predicate Within(v: Input, held: Input) {
    && v.keyboard.modifiers <= held.keyboard.modifiers
    && (forall k :: k in v.keyboard.keys ==> k in held.keyboard.keys)
    && v.buttons <= held.buttons
    && (v.consumer.None? || v.consumer == held.consumer)
  }

  predicate ForgetsUnready(v: Input, hosts: Hosts, g: int) {
    v == Forget(v, hosts, g)
  }

  predicate Clean(s: State, v: Input, g: int) {
    && ForgetsUnready(v, s.hosts, g)
    && (s.hosts.active != Some(g) ==> v == NEUTRAL)
    && Within(v, s.input)
  }

  // ------------------------------------------------------------ view algebra

  lemma {:induction false} DeliverAppend(v: Input, a: seq<Action>, b: seq<Action>, g: int)
    ensures Deliver(v, a + b, g) == Deliver(Deliver(v, a, g), b, g)
    decreases |a|
  {
    if a == [] {
      assert a + b == b;
    } else {
      assert (a + b)[1..] == a[1..] + b;
      DeliverAppend(Told(v, a[0], g), a[1..], b, g);
    }
  }

  /** Actions that are not reports to `g`. */
  ghost predicate Silent(actions: seq<Action>, g: int) {
    forall i :: 0 <= i < |actions| ==> !actions[i].Notify? || actions[i].target != g
  }

  lemma {:induction false} DeliverSilent(v: Input, actions: seq<Action>, g: int)
    requires Silent(actions, g)
    ensures Deliver(v, actions, g) == v
    decreases |actions|
  {
    if actions != [] {
      DeliverSilent(v, actions[1..], g);
    }
  }

  lemma DeliverOne(v: Input, a: Action, g: int)
    ensures Deliver(v, [a], g) == Told(v, a, g)
  {
  }

  lemma SilentAfter(v: Input, a: seq<Action>, b: seq<Action>, g: int)
    requires Silent(b, g)
    ensures Deliver(v, a + b, g) == Deliver(v, a, g)
  {
    DeliverAppend(v, a, b, g);
    DeliverSilent(Deliver(v, a, g), b, g);
  }

  /** Release reports leave nothing of what could be sent. */
  lemma ReleasesNeutralize(v: Input, hosts: Hosts, g: int, reason: Reason)
    requires ForgetsUnready(v, hosts, g)
    ensures Deliver(v, ReleaseReports(hosts, g, reason), g) == NEUTRAL
  {
    var a := NotifyIfReady(hosts, g, KeyboardKind, KeyboardReport(NO_KEYS), reason);
    var b := NotifyIfReady(hosts, g, MouseKind, MouseReport({}, NO_MOVEMENT), reason);
    var c := NotifyIfReady(hosts, g, ConsumerKind, ConsumerReport(None), reason);
    DeliverAppend(v, a + b, c, g);
    DeliverAppend(v, a, b, g);
    NotifyDelivers(v, hosts, g, KeyboardKind, KeyboardReport(NO_KEYS), reason);
    NotifyDelivers(Deliver(v, a, g), hosts, g, MouseKind, MouseReport({}, NO_MOVEMENT), reason);
    NotifyDelivers(Deliver(Deliver(v, a, g), b, g), hosts, g, ConsumerKind, ConsumerReport(None), reason);
  }

  lemma NotifyDelivers(v: Input, hosts: Hosts, g: int, k: ReportKind, report: Report, reason: Reason)
    ensures Deliver(v, NotifyIfReady(hosts, g, k, report, reason), g) ==
      if CanSend(hosts, g, k) then Told(v, Notify(g, report, reason), g) else v
  {
    DeliverOne(v, Notify(g, report, reason), g);
  }

  lemma ReleasesSilent(hosts: Hosts, host: int, reason: Reason, g: int)
    requires g != host
    ensures Silent(ReleaseReports(hosts, host, reason), g)
  {
  }

  // ---------------------------------------------------------- single changes

  /** A change of the host table that keeps the active target cannot do harm. */
  lemma TableChange(s: State, s': State, actions: seq<Action>, v: Input, g: int)
    requires Clean(s, v, g) && s'.input == s.input && s'.hosts.active == s.hosts.active && Silent(actions, g)
    ensures Clean(s', ViewAfter(v, Effect(s', actions), g), g)
    ensures ViewAfter(v, Effect(s', actions), g) == Forget(v, s'.hosts, g)
  {
    DeliverSilent(v, actions, g);
  }

  /** A target change that leaves `g` released. */
  lemma Released(s: State, s': State, actions: seq<Action>, v: Input, g: int)
    requires s'.input == s.input && Deliver(v, actions, g) == NEUTRAL
    ensures Clean(s', ViewAfter(v, Effect(s', actions), g), g)
  {
  }

  lemma ReadyDelivers(v: Input, s: State, k: ReportKind, report: Report, reason: Reason, g: int)
    ensures Deliver(v, NotifyReady(s, k, report, reason), g) ==
      if s.hosts.active == Some(g) && CanSend(s.hosts, g, k) then Told(v, Notify(g, report, reason), g) else v
  {
    if ReadyTarget(s, k).Some? {
      DeliverOne(v, Notify(ReadyTarget(s, k).value, report, reason), g);
    }
  }

  lemma KeyboardPartClean(s: State, now: Keys, v: Input, g: int)
    requires Clean(s, v, g)
    ensures var e := KeyboardPart(s, now); e.state.hosts == s.hosts && Clean(e.state, Deliver(v, e.actions, g), g)
  {
    var down := Snapshot(s.input.keyboard, now);
    var hidden := HiddenKeys(s.hidden.keyboard, down);
    var reason := if KeyReleased(s.input.keyboard, down) then Release else Plain;
    ReadyDelivers(v, s, KeyboardKind, KeyboardReport(Shown(down, hidden)), reason, g);
  }

  lemma MousePartClean(s: State, mouse: MouseFrame, v: Input, g: int)
    requires Clean(s, v, g)
    ensures var e := MousePart(s, mouse); e.state.hosts == s.hosts && Clean(e.state, Deliver(v, e.actions, g), g)
  {
    var hidden := s.hidden.buttons * mouse.buttons;
    var reason := if s.input.buttons != mouse.buttons then Edge else Plain;
    ReadyDelivers(v, s, MouseKind, MouseReport(mouse.buttons - hidden, mouse.movement), reason, g);
  }

  lemma ConsumerPartClean(s: State, now: Option<int>, v: Input, g: int)
    requires Clean(s, v, g)
    ensures var e := ConsumerPart(s, now); e.state.hosts == s.hosts && Clean(e.state, Deliver(v, e.actions, g), g)
  {
    var hidden := StillHiddenUsage(s.hidden.consumer, now);
    var reason := if s.input.consumer.Some? && now.None? then Release else Plain;
    ReadyDelivers(v, s, ConsumerKind, ConsumerReport(VisibleUsage(now, hidden)), reason, g);
  }

  lemma FrameClean(s: State, keyboard: Option<Keys>, mouse: Option<MouseFrame>, consumer: Option<Option<int>>, v: Input, g: int)
    requires Clean(s, v, g)
    ensures var e := Frame(s, keyboard, mouse, consumer); Clean(e.state, ViewAfter(v, e, g), g)
  {
    var a := if keyboard.Some? then KeyboardPart(s, keyboard.value) else Effect(s, []);
    var b := if mouse.Some? then MousePart(a.state, mouse.value) else Effect(a.state, []);
    var c := if consumer.Some? then ConsumerPart(b.state, consumer.value) else Effect(b.state, []);
    var va := Deliver(v, a.actions, g);
    var vb := Deliver(va, b.actions, g);
    if keyboard.Some? { KeyboardPartClean(s, keyboard.value, v, g); }
    if mouse.Some? { MousePartClean(a.state, mouse.value, va, g); }
    if consumer.Some? { ConsumerPartClean(b.state, consumer.value, vb, g); }
    DeliverAppend(v, a.actions + b.actions, c.actions, g);
    DeliverAppend(v, a.actions, b.actions, g);
  }

  ghost predicate AllNotify(actions: seq<Action>) {
    forall i :: 0 <= i < |actions| ==> actions[i].Notify?
  }

  lemma AllNotifyJoin(a: seq<Action>, b: seq<Action>)
    requires AllNotify(a) && AllNotify(b)
    ensures AllNotify(a + b)
  {
  }

  /** A frame makes reports only, and leaves everything but input and hiding alone. */
  lemma FrameOnlyNotifies(s: State, keyboard: Option<Keys>, mouse: Option<MouseFrame>, consumer: Option<Option<int>>)
    ensures var e := Frame(s, keyboard, mouse, consumer);
      && AllNotify(e.actions) && e.state.hosts == s.hosts && e.state.sinks == s.sinks && e.state.pairable == s.pairable
  {
    var a := if keyboard.Some? then KeyboardPart(s, keyboard.value) else Effect(s, []);
    var b := if mouse.Some? then MousePart(a.state, mouse.value) else Effect(a.state, []);
    var c := if consumer.Some? then ConsumerPart(b.state, consumer.value) else Effect(b.state, []);
    AllNotifyJoin(a.actions, b.actions);
    AllNotifyJoin(a.actions + b.actions, c.actions);
  }

  // ------------------------------------------------------- larger transitions

  /** A real target change leaves every view neutral. */
  lemma TransitionDelivers(s: State, target: int, release: Option<Reason>, v: Input, g: int)
    requires Clean(s, v, g) && (release.None? ==> v == NEUTRAL)
    requires Transition(s, target, release).Done? && s.hosts.active != Some(target)
    ensures Deliver(v, Transition(s, target, release).effect.actions, g) == NEUTRAL
  {
    var e := Transition(s, target, release).effect;
    var tail := [ActivateInput(target)] + ActiveLeds(e.state) + [PersistProfiles];
    assert Silent(tail, g);
    SilentAfter(v, ReleasesFor(s, release), tail, g);
    ReleasesForDeliver(s, release, v, g);
  }

  lemma ReleasesForDeliver(s: State, release: Option<Reason>, v: Input, g: int)
    requires Clean(s, v, g) && (release.None? ==> v == NEUTRAL)
    ensures Deliver(v, ReleasesFor(s, release), g) == NEUTRAL
  {
    if s.hosts.active.Some? && release.Some? {
      if s.hosts.active == Some(g) {
        ReleasesNeutralize(v, s.hosts, g, release.value);
      } else {
        ReleasesSilent(s.hosts, s.hosts.active.value, release.value, g);
        DeliverSilent(v, ReleasesFor(s, release), g);
      }
    }
  }

  lemma TransitionClean(s: State, target: int, release: Option<Reason>, v: Input, g: int)
    requires Clean(s, v, g) && (release.None? ==> v == NEUTRAL)
    requires Transition(s, target, release).Done?
    ensures var e := Transition(s, target, release).effect;
      && Clean(e.state, ViewAfter(v, WithStatus(e), g), g)
      && ViewAfter(v, WithStatus(e), g) == if s.hosts.active == Some(target) then Forget(v, e.state.hosts, g) else NEUTRAL
  {
    var e := Transition(s, target, release).effect;
    SilentAfter(v, e.actions, [Status(e.state)], g);
    if s.hosts.active != Some(target) {
      TransitionDelivers(s, target, release, v, g);
      Released(s, e.state, e.actions + [Status(e.state)], v, g);
    }
  }

  lemma UnlinkedForgets(s: State, host: int, v: Input, g: int)
    requires Sound(s) && Clean(s, v, g)
    ensures var s' := Unlinked(s, host);
      && Clean(s', Forget(v, s'.hosts, g), g) && s'.hosts.active == s.hosts.active && s'.input == s.input
      && (host == g ==> Forget(v, s'.hosts, g) == NEUTRAL)
  {
    TouchChanges(s.hosts, host, Disconnect);
  }

  lemma DisconnectedClean(s: State, host: int, v: Input, g: int)
    requires Sound(s) && Clean(s, v, g) && Disconnected(s, host).Done?
    ensures var e := Disconnected(s, host).effect;
      && Clean(e.state, ViewAfter(v, e, g), g)
      && ViewAfter(v, e, g) == if Fallback(s, host).Some? then NEUTRAL else Forget(v, e.state.hosts, g)
  {
    var s' := Unlinked(s, host);
    UnlinkedForgets(s, host, v, g);
    var next := Fallback(s, host);
    if next.Some? {
      FallbackClean(s', next.value, v, g);
    } else {
      TableChange(s, s', [] + [Status(s')], v, g);
    }
  }

  /** A fallback in a state where nothing of the view is left. */
  lemma FallbackClean(s: State, target: int, v: Input, g: int)
    requires WellFormed(s.hosts) && Forget(v, s.hosts, g) == NEUTRAL && TransitionWithStatus(s, target, None).Done?
    ensures var e := TransitionWithStatus(s, target, None).effect;
      ViewAfter(v, e, g) == NEUTRAL && Clean(e.state, NEUTRAL, g)
  {
    FallbackSilent(s, target, v, v, g);
    ActivateChanges(s.hosts, target);
  }

  /** A fallback sends no reports, so only what was forgotten matters. */
  lemma FallbackSilent(s: State, target: int, v: Input, v': Input, g: int)
    requires TransitionWithStatus(s, target, None).Done?
    ensures var e := TransitionWithStatus(s, target, None).effect;
      Deliver(v, e.actions, g) == v && Deliver(v', e.actions, g) == v'
  {
    var e := TransitionWithStatus(s, target, None).effect;
    assert Silent(e.actions, g);
    DeliverSilent(v, e.actions, g);
    DeliverSilent(v', e.actions, g);
  }

  lemma ClearedClean(s: State, host: int, v: Input, g: int)
    requires Sound(s) && Clean(s, v, g)
    ensures var e := Cleared(s, host);
      && Clean(e.state, ViewAfter(v, e, g), g)
      && ViewAfter(v, e, g) == if s.hosts.active == Some(host) then NEUTRAL else Forget(v, e.state.hosts, g)
  {
    RemoveChanges(s.hosts, host);
    var e := Cleared(s, host);
    var releases := if s.hosts.active == Some(host) then ReleaseReports(s.hosts, host, SafetyRelease) else [];
    var ends := if s.pairable == Some(host) then [RejectPairing(host)] else [];
    SilentAfter(v, releases, ends + ClearActions(s, host), g);
    if g == host && s.hosts.active == Some(host) {
      ReleasesNeutralize(v, s.hosts, g, SafetyRelease);
      Released(s, e.state, e.actions, v, g);
    } else {
      if s.hosts.active == Some(host) {
        ReleasesSilent(s.hosts, host, SafetyRelease, g);
      }
      DeliverSilent(v, releases, g);
    }
  }

  /** What host `g` knows after the reports about a removal. */
  function DetachView(hosts: Hosts, before: Input, now: Input, hidden: Input, v: Input, g: int): Input {
    Input(if before.keyboard != now.keyboard && CanSend(hosts, g, KeyboardKind)
          then Shown(now.keyboard, hidden.keyboard) else v.keyboard,
          if before.buttons != now.buttons && CanSend(hosts, g, MouseKind) then now.buttons - hidden.buttons else v.buttons,
          if before.consumer != now.consumer && CanSend(hosts, g, ConsumerKind) then now.consumer else v.consumer)
  }

  lemma DetachDelivers(hosts: Hosts, before: Input, now: Input, hidden: Input, v: Input, g: int)
    ensures Deliver(v, DetachReports(hosts, g, before, now, hidden), g) == DetachView(hosts, before, now, hidden, v, g)
  {
    var a := if before.keyboard != now.keyboard
             then NotifyIfReady(hosts, g, KeyboardKind, KeyboardReport(Shown(now.keyboard, hidden.keyboard)), RemovalRelease)
             else [];
    var b := if before.buttons != now.buttons
             then NotifyIfReady(hosts, g, MouseKind, MouseReport(now.buttons - hidden.buttons, NO_MOVEMENT), RemovalRelease)
             else [];
    var c := if before.consumer != now.consumer
             then NotifyIfReady(hosts, g, ConsumerKind, ConsumerReport(now.consumer), RemovalRelease)
             else [];
    DeliverAppend(v, a + b, c, g);
    DeliverAppend(v, a, b, g);
    var va := Deliver(v, a, g);
    var vb := Deliver(va, b, g);
    NotifyDelivers(v, hosts, g, KeyboardKind, KeyboardReport(Shown(now.keyboard, hidden.keyboard)), RemovalRelease);
    NotifyDelivers(va, hosts, g, MouseKind, MouseReport(now.buttons - hidden.buttons, NO_MOVEMENT), RemovalRelease);
    NotifyDelivers(vb, hosts, g, ConsumerKind, ConsumerReport(now.consumer), RemovalRelease);
  }

  lemma DetachViewClean(hosts: Hosts, before: Input, now: Input, hidden: Input, v: Input, g: int)
    requires ForgetsUnready(v, hosts, g) && Within(v, before)
    ensures var v' := DetachView(hosts, before, now, hidden, v, g); ForgetsUnready(v', hosts, g) && Within(v', now)
  {
  }

  /** The view after a removal, with or without the status that follows. */
  lemma DetachedView(s: State, now: Input, v: Input, g: int)
    requires Clean(s, v, g)
    ensures var e := Detached(s, now);
      var v' := if s.hosts.active == Some(g) then DetachView(s.hosts, s.input, now, e.state.hidden, v, g) else v;
      ViewAfter(v, e, g) == v' && ViewAfter(v, WithStatus(e), g) == v'
  {
    var e := Detached(s, now);
    SilentAfter(v, e.actions, [Status(e.state)], g);
    if s.hosts.active == Some(g) {
      DetachDelivers(s.hosts, s.input, now, e.state.hidden, v, g);
      DetachViewClean(s.hosts, s.input, now, e.state.hidden, v, g);
    } else {
      assert Silent(e.actions, g);
      DeliverSilent(v, e.actions, g);
    }
  }

  lemma DetachedClean(s: State, now: Input, v: Input, g: int)
    requires Clean(s, v, g)
    ensures var e := Detached(s, now);
      Clean(e.state, ViewAfter(v, e, g), g) && Clean(e.state, ViewAfter(v, WithStatus(e), g), g)
  {
    DetachedView(s, now, v, g);
    if s.hosts.active == Some(g) {
      DetachViewClean(s.hosts, s.input, now, Detached(s, now).state.hidden, v, g);
    }
  }

  // --------------------------------------------------------------- all events

  lemma StepSound(s: State, e: Event)
    requires Sound(s)
    ensures Sound(Step(s, e).state)
  {
    match e
    case InputFrame(_, _, _) =>
    case VendorFrame =>
    case HostConnected(h) => TouchChanges(s.hosts, h, Connect);
    case HostDisconnected(h) =>
      TouchChanges(s.hosts, h, Disconnect);
      if Fallback(s, h).Some? {
        ActivateChanges(Unlinked(s, h).hosts, Fallback(s, h).value);
      }
    case HostSecurityChanged(h, encrypted, bonded, bond) => TouchChanges(s.hosts, h, Secure(encrypted, bonded, bond));
    case CccdChanged(h, k, enabled) => TouchChanges(s.hosts, h, Cccd(k, enabled));
    case InterfaceConnected(_, _, _) =>
    case HostLedsChanged(h, leds) => TouchChanges(s.hosts, h, Leds(leds));
    case SetHostName(h, name) => TouchChanges(s.hosts, h, Rename(name));
    case EnterPairingMode(_) =>
    case PairingModeExpired(_) =>
    case ClearHost(h) => RemoveChanges(s.hosts, h);
    case SwitchTarget(h) => ActivateChanges(s.hosts, h);
    case InterfaceRemoved(_, _) =>
    case DeviceReset(_) =>
  }

  /** Events that change no input and keep the target. */
  predicate Harmless(e: Event) {
    || e.VendorFrame? || e.HostConnected? || e.HostSecurityChanged? || e.CccdChanged? || e.InterfaceConnected?
    || e.HostLedsChanged? || e.SetHostName? || e.EnterPairingMode? || e.PairingModeExpired?
  }

  lemma HarmlessStep(s: State, e: Event, g: int)
    requires Sound(s) && Harmless(e)
    ensures var r := Step(s, e);
      && r.state.input == s.input && r.state.hidden == s.hidden && r.state.hosts.active == s.hosts.active
      && Silent(r.actions, g)
  {
    match e
    case HostConnected(h) => ChangingIsHarmless(s, h, Connect, g);
    case HostSecurityChanged(h, encrypted, bonded, bond) => SecuredIsHarmless(s, h, encrypted, bonded, bond, g);
    case CccdChanged(h, k, enabled) => ChangingIsHarmless(s, h, Cccd(k, enabled), g);
    case HostLedsChanged(h, leds) => TouchChanges(s.hosts, h, Leds(leds));
    case SetHostName(h, name) => ChangingIsHarmless(s, h, Rename(name), g);
    case _ =>
  }

  lemma ChangingIsHarmless(s: State, h: int, c: HostChange, g: int)
    requires Sound(s)
    ensures var r := Changing(s, h, c);
      r.Done? ==>
        && r.effect.state.input == s.input && r.effect.state.hidden == s.hidden
        && r.effect.state.hosts.active == s.hosts.active && Silent(r.effect.actions, g)
  {
    TouchChanges(s.hosts, h, c);
  }

  lemma SecuredIsHarmless(s: State, h: int, encrypted: bool, bonded: bool, bond: Option<StoredBond>, g: int)
    requires Sound(s)
    ensures var r := Bridge.Secured(s, h, encrypted, bonded, bond);
      r.Done? ==>
        && r.effect.state.input == s.input && r.effect.state.hidden == s.hidden
        && r.effect.state.hosts.active == s.hosts.active && Silent(r.effect.actions, g)
  {
    TouchChanges(s.hosts, h, Secure(encrypted, bonded, bond));
  }

  lemma StepClean(s: State, e: Event, v: Input, g: int)
    requires Sound(s) && Clean(s, v, g)
    ensures Clean(Step(s, e).state, ViewAfter(v, Step(s, e), g), g)
  {
    if Handle(s, e).Failed? || Harmless(e) {
      if Harmless(e) { HarmlessStep(s, e, g); }
      TableChange(s, Step(s, e).state, Step(s, e).actions, v, g);
    } else {
      match e
      case InputFrame(keyboard, mouse, consumer) => FrameClean(s, keyboard, mouse, consumer, v, g);
      case HostDisconnected(h) => DisconnectedClean(s, h, v, g);
      case ClearHost(h) => ClearedClean(s, h, v, g);
      case SwitchTarget(h) => TransitionClean(s, h, Some(SwitchRelease), v, g);
      case InterfaceRemoved(i, aggregate) => DetachedClean(s.(sinks := Unregistered(s.sinks, i)), aggregate, v, g);
      case DeviceReset(aggregate) =>
        if aggregate.Some? { DetachedClean(s, aggregate.value, v, g); }
    }
  }

  lemma RestoredIsDormant(s: State, stored: seq<StoredHost>, lastActive: Option<int>, v: Input, g: int)
    requires Sound(s)
    ensures var s' := Restored(s, stored, lastActive); Sound(s') && Forget(v, s'.hosts, g) == NEUTRAL
  {
    var s' := Restored(s, stored, lastActive);
    HostHistory.NothingAtFirst(lastActive);
    HostHistory.RestoreIsDormant(NoHosts().(active := lastActive), stored);
    assert forall k :: !HostHistory.Ready(s'.hosts, g, k);
    assert !HostHistory.Ready(s'.hosts, g, KeyboardKind) && !HostHistory.Ready(s'.hosts, g, MouseKind);
    assert !HostHistory.Ready(s'.hosts, g, ConsumerKind);
  }

  lemma NextClean(s: State, h: Happening, v: Input, g: int)
    requires Sound(s) && Clean(s, v, g)
    ensures Sound(Next(s, h).state) && Clean(Next(s, h).state, ViewAfter(v, Next(s, h), g), g)
  {
    match h
    case On(e) =>
      StepSound(s, e);
      StepClean(s, e, v, g);
    case PrepareForQuiesce =>
    case LinkDropped(host) =>
      TouchChanges(s.hosts, host, Disconnect);
      UnlinkedForgets(s, host, v, g);
    case NameDiscovered(host, name) =>
      TouchChanges(s.hosts, host, Discover(name));
      TableChange(s, Next(s, h).state, [], v, g);
    case StorageRestored(stored, lastActive) => RestoredIsDormant(s, stored, lastActive, v, g);
  }

  /** No stuck input: in every run, no computer but the active one believes that
      anything is held, and the active one believes only what is held. */
  lemma {:induction false} NoStuckInput(hs: seq<Happening>, g: int)
    ensures var s, v := Run(Initial(), hs), View(Initial(), hs, g);
      && Sound(s)
      && (s.hosts.active != Some(g) ==> v == NEUTRAL)
      && Within(v, s.input)
      && Clean(s, v, g)
    decreases |hs|
  {
    if hs != [] {
      var before := hs[..|hs| - 1];
      NoStuckInput(before, g);
      NextClean(Run(Initial(), before), hs[|hs| - 1], View(Initial(), before, g), g);
    } else {
      HostHistory.NothingAtFirst(None);
    }
  }
}
