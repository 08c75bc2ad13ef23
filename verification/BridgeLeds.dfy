/** Keyboard lights: over every run, each keyboard that shows lights shows those of
    the active computer, or none. */
module BridgeLeds {
  import opened Options
  import opened StorageImage
  import opened HostState
  import opened HostMachine
  import HostHistory
  import opened Bridge
  import opened BridgeInput
  import opened BridgeHiding

  // ------------------------------------------------------------------- views

  /** What keyboard `i` shows after the actions. */
  function Lit(v: int, actions: seq<Action>, i: int): int {
    if actions == [] then v
    else
      var last := actions[|actions| - 1];
      if last.SetLeds? && last.interface == i then last.leds else Lit(v, actions[..|actions| - 1], i)
  }

  predicate ShowsLeds(sinks: seq<Sink>, i: int) {
    exists k :: 0 <= k < |sinks| && sinks[k].interface == i && sinks[k].showsLeds
  }

  /** The lights of the active computer. */
  function Wanted(hs: Hosts): int {
    if hs.active.None? then 0
    else
      var h := Lookup(hs, hs.active.value);
      if h.Some? && h.value.leds.Some? then h.value.leds.value else 0
  }

  predicate Right(s: State, v: int, i: int) {
    ShowsLeds(s.sinks, i) ==> v == Wanted(s.hosts)
  }

  predicate Dark(actions: seq<Action>) {
    forall k :: 0 <= k < |actions| ==> !actions[k].SetLeds?
  }

  lemma {:induction false} LitAppend(v: int, a: seq<Action>, b: seq<Action>, i: int)
    ensures Lit(v, a + b, i) == Lit(Lit(v, a, i), b, i)
    decreases |b|
  {
    if b == [] {
      assert a + b == a;
    } else {
      assert (a + b)[..|a + b| - 1] == a + b[..|b| - 1];
      LitAppend(v, a, b[..|b| - 1], i);
    }
  }

  lemma {:induction false} DarkKeeps(v: int, actions: seq<Action>, i: int)
    requires Dark(actions)
    ensures Lit(v, actions, i) == v
    decreases |actions|
  {
    if actions != [] {
      DarkKeeps(v, actions[..|actions| - 1], i);
    }
  }

  lemma LitBetween(v: int, a: seq<Action>, b: seq<Action>, c: seq<Action>, i: int)
    requires Dark(a) && Dark(c)
    ensures Lit(v, a + b + c, i) == Lit(v, b, i)
  {
    LitAppend(v, a + b, c, i);
    LitAppend(v, a, b, i);
    DarkKeeps(v, a, i);
    DarkKeeps(Lit(v, b, i), c, i);
  }

  /** One action for each keyboard that shows lights: all of them then show it. */
  lemma {:induction false} LedActionsLight(v: int, sinks: seq<Sink>, leds: int, i: int)
    ensures Lit(v, LedActions(sinks, leds), i) == if ShowsLeds(sinks, i) then leds else v
    decreases |sinks|
  {
    if sinks != [] {
      var rest := sinks[1..];
      var first: seq<Action> := if sinks[0].showsLeds then [SetLeds(sinks[0].interface, sinks[0].device, leds)] else [];
      assert LedActions(sinks, leds) == first + LedActions(rest, leds);
      var v' := Lit(v, first, i);
      OneLight(v, sinks[0], leds, i);
      LitAppend(v, first, LedActions(rest, leds), i);
      LedActionsLight(v', rest, leds, i);
      FirstOrRest(sinks, i);
    }
  }

  lemma OneLight(v: int, sink: Sink, leds: int, i: int)
    ensures Lit(v, if sink.showsLeds then [SetLeds(sink.interface, sink.device, leds)] else [], i)
            == if sink.showsLeds && sink.interface == i then leds else v
  {
    if sink.showsLeds {
      assert [SetLeds(sink.interface, sink.device, leds)][..0] == [];
    }
  }

  lemma FirstOrRest(sinks: seq<Sink>, i: int)
    requires sinks != []
    ensures ShowsLeds(sinks, i) <==> (sinks[0].showsLeds && sinks[0].interface == i) || ShowsLeds(sinks[1..], i)
  {
    assert forall k :: 0 <= k < |sinks| - 1 ==> sinks[1..][k] == sinks[k + 1];
  }

  lemma ActiveLedsLight(v: int, s: State, i: int)
    ensures Lit(v, ActiveLeds(s), i) == if s.hosts.active.Some? && ShowsLeds(s.sinks, i) then Wanted(s.hosts) else v
  {
    if s.hosts.active.Some? {
      LedActionsLight(v, s.sinks, Wanted(s.hosts), i);
    }
  }

  // -------------------------------------------------------------- one event

  /** Nothing but a light event changes the lights a host asks for. */
  lemma ChangeKeepsWanted(hs: Hosts, id: int, c: HostChange)
    requires WellFormed(hs) && Touch(hs, id, c).Ok? && (c.Leds? ==> hs.active != Some(id))
    ensures Wanted(Touch(hs, id, c).value) == Wanted(hs)
  {
    TouchChanges(hs, id, c);
  }

  lemma TransitionParts(s: State, target: int, release: Option<Reason>)
    requires TransitionWithStatus(s, target, release).Done? && s.hosts.active != Some(target)
    ensures var e := TransitionWithStatus(s, target, release).effect;
      && e.actions == (ReleasesFor(s, release) + [ActivateInput(target)]) + ActiveLeds(e.state)
                      + [PersistProfiles, Status(e.state)]
      && Dark(ReleasesFor(s, release) + [ActivateInput(target)])
  {
  }

  lemma TransitionLights(s: State, target: int, release: Option<Reason>, v: int, i: int)
    requires Sound(s) && Right(s, v, i) && TransitionWithStatus(s, target, release).Done?
    ensures var e := TransitionWithStatus(s, target, release).effect; Right(e.state, Lit(v, e.actions, i), i)
  {
    var e := TransitionWithStatus(s, target, release).effect;
    if s.hosts.active == Some(target) {
      DarkKeeps(v, e.actions, i);
    } else {
      TransitionParts(s, target, release);
      LitBetween(v, ReleasesFor(s, release) + [ActivateInput(target)], ActiveLeds(e.state),
                 [PersistProfiles, Status(e.state)], i);
      ActiveLedsLight(v, e.state, i);
    }
  }

  lemma DisconnectLights(s: State, h: int, v: int, i: int)
    requires Sound(s) && Right(s, v, i) && Disconnected(s, h).Done?
    ensures var e := Disconnected(s, h).effect; Right(e.state, Lit(v, e.actions, i), i)
  {
    TouchChanges(s.hosts, h, Disconnect);
    ChangeKeepsWanted(s.hosts, h, Disconnect);
    var s' := Unlinked(s, h);
    if Fallback(s, h).Some? {
      TransitionLights(s', Fallback(s, h).value, None, v, i);
    } else {
      DarkKeeps(v, [] + [Status(s')], i);
    }
  }

  /** What forgetting an entry sends before the lights. */
  function ClearFront(s: State, h: int): (r: seq<Action>)
    requires Lookup(s.hosts, h).Some?
    ensures Dark(r)
  {
    (if s.hosts.active == Some(h) then ReleaseReports(s.hosts, h, SafetyRelease) else [])
    + (if s.pairable == Some(h) then [RejectPairing(h)] else [])
    + [ClearBond(h, Lookup(s.hosts, h).value.bond), PersistProfiles]
  }

  lemma ClearedParts(s: State, h: int)
    requires Lookup(s.hosts, h).Some?
    ensures var e := Cleared(s, h);
      e.actions == ClearFront(s, h) + (if s.hosts.active == Some(h) then LedActions(s.sinks, 0) else []) + [Status(e.state)]
  {
  }

  lemma ClearLights(s: State, h: int, v: int, i: int)
    requires Sound(s) && Right(s, v, i)
    ensures var e := Cleared(s, h); Right(e.state, Lit(v, e.actions, i), i)
  {
    RemoveChanges(s.hosts, h);
    var e := Cleared(s, h);
    if Lookup(s.hosts, h).None? {
      assert e.state.hosts == s.hosts && Dark(e.actions);
      DarkKeeps(v, e.actions, i);
    } else {
      var leds := if s.hosts.active == Some(h) then LedActions(s.sinks, 0) else [];
      ClearedParts(s, h);
      LitBetween(v, ClearFront(s, h), leds, [Status(e.state)], i);
      LedActionsLight(v, s.sinks, 0, i);
      ForgottenIsDark(s.hosts, h);
    }
  }

  lemma ForgottenIsDark(hs: Hosts, h: int)
    requires WellFormed(hs) && Lookup(hs, h).Some?
    ensures Wanted(Remove(hs, h)) == if hs.active == Some(h) then 0 else Wanted(hs)
  {
    RemoveChanges(hs, h);
  }

  lemma LedsChangedLights(s: State, h: int, leds: int, v: int, i: int)
    requires Sound(s) && Right(s, v, i) && LedsChanged(s, h, leds).Done?
    ensures var e := LedsChanged(s, h, leds).effect; Right(e.state, Lit(v, e.actions, i), i)
  {
    TouchChanges(s.hosts, h, Leds(leds));
    if s.hosts.active == Some(h) {
      LedActionsLight(v, s.sinks, leds, i);
    } else {
      ChangeKeepsWanted(s.hosts, h, Leds(leds));
    }
  }

  /** A keyboard that is plugged in starts dark. */
  lemma RegisterLights(s: State, sink: Sink, v: int, i: int)
    requires Right(s, v, i) && Registered(s, sink).Done?
    ensures var e := Registered(s, sink).effect; Right(e.state, Lit(if i == sink.interface then 0 else v, e.actions, i), i)
  {
    var s' := Registered(s, sink).effect.state;
    ActiveLedsLight(if i == sink.interface then 0 else v, s', i);
    var at := SinkIndex(s.sinks, sink.interface);
    SinkIndexFinds(s.sinks, sink.interface, 0);
    if i != sink.interface && ShowsLeds(s'.sinks, i) {
      var k :| 0 <= k < |s'.sinks| && s'.sinks[k].interface == i && s'.sinks[k].showsLeds;
      assert s.sinks[k] == s'.sinks[k];
    }
  }

  lemma {:induction false} SinkIndexFinds(sinks: seq<Sink>, interface: int, from: nat)
    requires from <= |sinks|
    ensures var at := SinkIndex(sinks, interface, from); at >= 0 ==> sinks[at].interface == interface
    decreases |sinks| - from
  {
    if from < |sinks| {
      SinkIndexFinds(sinks, interface, from + 1);
    }
  }

  lemma UnregisterLights(s: State, interface: int, now: Input, v: int, i: int)
    requires Right(s, v, i)
    ensures var e := WithStatus(Detached(s.(sinks := Unregistered(s.sinks, interface)), now));
      Right(e.state, Lit(v, e.actions, i), i)
  {
    var sinks := Unregistered(s.sinks, interface);
    var e := WithStatus(Detached(s.(sinks := sinks), now));
    DetachIsDark(s.(sinks := sinks), now);
    DarkKeeps(v, e.actions, i);
    if ShowsLeds(sinks, i) {
      var k :| 0 <= k < |sinks| && sinks[k].interface == i && sinks[k].showsLeds;
      assert sinks[k] in s.sinks;
      var j :| 0 <= j < |s.sinks| && s.sinks[j] == sinks[k];
    }
  }

  lemma DetachIsDark(s: State, now: Input)
    ensures Dark(Detached(s, now).actions) && Dark(WithStatus(Detached(s, now)).actions)
  {
  }

  /** The light that a keyboard shows when it is plugged in is off. */
  function Before(v: int, e: Event, i: int): int {
    if e.InterfaceConnected? && e.interface == i then 0 else v
  }

  lemma HostEventLights(s: State, e: Event, v: int, i: int)
    requires Sound(s) && Right(s, v, i) && Handle(s, e).Done?
    requires e.HostConnected? || e.CccdChanged? || e.SetHostName? || e.HostSecurityChanged?
    ensures var r := Step(s, e); Right(r.state, Lit(v, r.actions, i), i)
  {
    match e {
      case HostConnected(h) => ChangeKeepsWanted(s.hosts, h, Connect);
      case CccdChanged(h, k, enabled) => ChangeKeepsWanted(s.hosts, h, Cccd(k, enabled));
      case SetHostName(h, name) => ChangeKeepsWanted(s.hosts, h, Rename(name));
      case HostSecurityChanged(h, encrypted, bonded, bond) => ChangeKeepsWanted(s.hosts, h, Secure(encrypted, bonded, bond));
    }
    assert Dark(Step(s, e).actions);
    DarkKeeps(v, Step(s, e).actions, i);
  }

  lemma OtherEventLights(s: State, e: Event, v: int, i: int)
    requires Right(s, v, i)
    requires e.InputFrame? || e.VendorFrame? || e.EnterPairingMode? || e.PairingModeExpired? || e.DeviceReset?
    ensures var r := Step(s, e); Right(r.state, Lit(v, r.actions, i), i)
  {
    match e {
      case InputFrame(keyboard, mouse, consumer) => FrameOnlyNotifies(s, keyboard, mouse, consumer);
      case DeviceReset(aggregate) => if aggregate.Some? { DetachIsDark(s, aggregate.value); }
      case _ =>
    }
    assert Dark(Step(s, e).actions);
    DarkKeeps(v, Step(s, e).actions, i);
  }

  lemma TargetEventLights(s: State, e: Event, v: int, i: int)
    requires Sound(s) && Right(s, v, i) && Handle(s, e).Done?
    requires e.HostDisconnected? || e.HostLedsChanged? || e.ClearHost? || e.SwitchTarget?
    ensures var r := Handle(s, e).effect; Right(r.state, Lit(v, r.actions, i), i)
  {
    match e
    case HostDisconnected(h) => DisconnectLights(s, h, v, i);
    case HostLedsChanged(h, leds) => LedsChangedLights(s, h, leds, v, i);
    case ClearHost(h) => ClearLights(s, h, v, i);
    case SwitchTarget(h) => TransitionLights(s, h, Some(SwitchRelease), v, i);
  }

  lemma InterfaceEventLights(s: State, e: Event, v: int, i: int)
    requires Right(s, v, i) && Handle(s, e).Done? && (e.InterfaceConnected? || e.InterfaceRemoved?)
    ensures var r := Handle(s, e).effect; Right(r.state, Lit(Before(v, e, i), r.actions, i), i)
  {
    match e
    case InterfaceConnected(interface, device, shows) => RegisterLights(s, Sink(interface, device, shows), v, i);
    case InterfaceRemoved(interface, aggregate) => UnregisterLights(s, interface, aggregate, v, i);
  }

  /** Keyboards whose event is refused are not listed. */
  lemma RefusedLights(s: State, e: Event, v: int, i: int)
    requires Right(s, v, i) && Handle(s, e).Failed?
    ensures Right(s, Before(v, e, i), i)
  {
    if e.InterfaceConnected? {
      SinkIndexMisses(s.sinks, e.interface, 0);
    }
  }

  lemma StepLights(s: State, e: Event, v: int, i: int)
    requires Sound(s) && Right(s, v, i)
    ensures var r := Step(s, e); Right(r.state, Lit(Before(v, e, i), r.actions, i), i)
  {
    if Handle(s, e).Failed? {
      RefusedLights(s, e, v, i);
    } else if e.HostDisconnected? || e.HostLedsChanged? || e.ClearHost? || e.SwitchTarget? {
      TargetEventLights(s, e, v, i);
    } else if e.InterfaceConnected? || e.InterfaceRemoved? {
      InterfaceEventLights(s, e, v, i);
    } else if e.HostConnected? || e.CccdChanged? || e.SetHostName? || e.HostSecurityChanged? {
      HostEventLights(s, e, v, i);
    } else {
      OtherEventLights(s, e, v, i);
    }
  }

  lemma {:induction false} SinkIndexMisses(sinks: seq<Sink>, interface: int, from: nat)
    requires from <= |sinks|
    ensures SinkIndex(sinks, interface, from) < 0 ==> forall k :: from <= k < |sinks| ==> sinks[k].interface != interface
    decreases |sinks| - from
  {
    if from < |sinks| {
      SinkIndexMisses(sinks, interface, from + 1);
    }
  }

  // -------------------------------------------------------------------- runs

  function LitIn(from: State, hs: seq<Happening>, i: int): int {
    if hs == [] then 0
    else
      var before, h := hs[..|hs| - 1], hs[|hs| - 1];
      var v := LitIn(from, before, i);
      Lit(if h.On? then Before(v, h.event, i) else v, Next(Run(from, before), h).actions, i)
  }

  /** Over every run after boot, every keyboard that shows lights shows the lights of
      the active computer, and none while there is no active computer. */
  lemma {:induction false} LightsFollowTarget(stored: seq<StoredHost>, lastActive: Option<int>, hs: seq<Happening>, i: int)
    requires forall k :: 0 <= k < |hs| ==> !hs[k].StorageRestored?
    ensures var s := Run(Booted(stored, lastActive), hs);
      ShowsLeds(s.sinks, i) ==> LitIn(Booted(stored, lastActive), hs, i) == Wanted(s.hosts)
    decreases |hs|
  {
    if hs != [] {
      var boot := Booted(stored, lastActive);
      var before, h := hs[..|hs| - 1], hs[|hs| - 1];
      var s, v := Run(boot, before), LitIn(boot, before, i);
      LightsFollowTarget(stored, lastActive, before, i);
      HiddenIsHeld(stored, lastActive, before);
      match h
      case On(e) => StepLights(s, e, v, i);
      case PrepareForQuiesce =>
      case LinkDropped(host) => ChangeKeepsWanted(s.hosts, host, Disconnect);
      case NameDiscovered(host, name) =>
        if Touch(s.hosts, host, Discover(name)).Ok? { ChangeKeepsWanted(s.hosts, host, Discover(name)); }
    }
  }
}
