/** Pairing windows over whole runs of the runtime. */
module RuntimePairing {
  import opened Options
  import opened Clock
  import opened StorageImage
  import opened HostState
  import opened HostMachine
  import opened Bridge
  import opened BridgeInput
  import opened BridgeActions
  import opened Runtime

  // ------------------------------------------------------------ the bridge side

  function PairableAfter(s: State, e: Event): Option<int> {
    match e
    case EnterPairingMode(h) => Some(h)
    case PairingModeExpired(h) => if s.pairable == Some(h) then None else s.pairable
    case ClearHost(h) => if s.pairable == Some(h) then None else s.pairable
    case HostSecurityChanged(h, _, bonded, _) => if bonded && s.pairable == Some(h) then None else s.pairable
    case _ => s.pairable
  }

  lemma PairableMoves(s: State, e: Event)
    requires Handle(s, e).Done?
    ensures Handle(s, e).effect.state.pairable == PairableAfter(s, e)
  {
    if !(e.EnterPairingMode? || e.PairingModeExpired? || e.ClearHost? || e.HostSecurityChanged?) {
      NoPairingActions(s, e);
    }
  }

  /** Every status in the list shows this pairable host. */
  predicate Shows(actions: seq<Action>, pairable: Option<int>) {
    forall i :: 0 <= i < |actions| && actions[i].StatusChanged? ==> actions[i].pairable == pairable
  }

  lemma ShowsJoin(a: seq<Action>, b: seq<Action>, p: Option<int>)
    requires Shows(a, p) && Shows(b, p)
    ensures Shows(a + b, p)
  {
  }

  lemma WithStatusShows(e: Effect)
    requires Shows(e.actions, e.state.pairable)
    ensures Shows(WithStatus(e).actions, e.state.pairable)
  {
  }

  lemma FrameShowsNothing(s: State, e: Event, p: Option<int>)
    requires e.InputFrame?
    ensures Shows(Frame(s, e.keyboard, e.mouse, e.consumer).actions, p)
  {
    FrameOnlyNotifies(s, e.keyboard, e.mouse, e.consumer);
  }

  lemma ReleasesShowNothing(hosts: Hosts, host: int, reason: Reason, p: Option<int>)
    ensures Shows(ReleaseReports(hosts, host, reason), p)
  {
  }

  lemma TransitionShows(s: State, target: int, release: Option<Reason>)
    requires Transition(s, target, release).Done?
    ensures var e := Transition(s, target, release).effect; Shows(WithStatus(e).actions, e.state.pairable)
  {
    var e := Transition(s, target, release).effect;
    if s.hosts.active != Some(target) {
      if s.hosts.active.Some? && release.Some? {
        ReleasesShowNothing(s.hosts, s.hosts.active.value, release.value, s.pairable);
      }
      ShowsJoin(ReleasesFor(s, release), [ActivateInput(target)] + ActiveLeds(e.state) + [PersistProfiles], s.pairable);
    }
    WithStatusShows(e);
  }

  lemma DetachShows(s: State, now: Input)
    ensures var e := Detached(s, now); Shows(e.actions, s.pairable) && Shows(WithStatus(e).actions, s.pairable)
  {
  }

  lemma ClearShows(s: State, host: int)
    ensures var e := Cleared(s, host); Shows(e.actions, e.state.pairable)
  {
    var p := Cleared(s, host).state.pairable;
    ReleasesShowNothing(s.hosts, host, SafetyRelease, p);
    var releases := if s.hosts.active == Some(host) then ReleaseReports(s.hosts, host, SafetyRelease) else [];
    var ends := if s.pairable == Some(host) then [RejectPairing(host)] else [];
    assert Shows(ClearActions(s, host), p);
    ShowsJoin(ends, ClearActions(s, host), p);
    ShowsJoin(releases, ends + ClearActions(s, host), p);
  }

  /** A status always tells the pairable host of the state it follows. */
  lemma StatusTellsPairable(s: State, e: Event)
    requires Handle(s, e).Done?
    ensures Shows(Handle(s, e).effect.actions, Handle(s, e).effect.state.pairable)
  {
    match e
    case InputFrame(_, _, _) => FrameShowsNothing(s, e, Handle(s, e).effect.state.pairable);
    case HostDisconnected(h) =>
      if Fallback(s, h).Some? { TransitionShows(Unlinked(s, h), Fallback(s, h).value, None); }
    case ClearHost(h) => ClearShows(s, h);
    case SwitchTarget(h) => TransitionShows(s, h, Some(SwitchRelease));
    case InterfaceRemoved(i, aggregate) => DetachShows(s.(sinks := Unregistered(s.sinks, i)), aggregate);
    case DeviceReset(aggregate) => if aggregate.Some? { DetachShows(s, aggregate.value); }
    case _ => SimpleShows(s, e);
  }

  lemma SimpleShows(s: State, e: Event)
    requires Harmless(e) && Handle(s, e).Done?
    ensures Shows(Handle(s, e).effect.actions, Handle(s, e).effect.state.pairable)
  {
  }

  // ----------------------------------------------------------- the runtime side

  function WindowHost(w: Option<Window>): Option<int> {
    if w.Some? then Some(w.value.host) else None
  }

  /** The runtime's window is for the bridge's pairable host. */
  predicate Synced(r: Runtime) {
    WindowHost(r.window) == r.bridge.pairable
  }

  lemma OnBridgeSyncs(r: Runtime, e: Event)
    requires OnBridge(r, e).Going? && WindowHost(Observed(r, e).window) == PairableAfter(r.bridge, e)
    ensures Synced(OnBridge(r, e).runtime)
  {
    PairableMoves(r.bridge, e);
    StatusTellsPairable(r.bridge, e);
  }

  lemma EventSyncs(r: Runtime, e: Event)
    requires Synced(r) && OnBridge(r, e).Going?
    ensures Synced(OnBridge(r, e).runtime)
  {
    OnBridgeSyncs(r, e);
  }

  lemma RequestSyncs(r: Runtime, target: int, now: nat)
    requires Synced(r) && RequestSwitch(r, target, now).Going?
    ensures Synced(RequestSwitch(r, target, now).runtime)
  {
    if r.settings.delay == 0 {
      EventSyncs(r.(pending := None), SwitchTarget(target));
    }
  }

  lemma OpenSyncs(r: Runtime, host: int, now: nat)
    requires OpenWindow(r, host, now).Going?
    ensures Synced(OpenWindow(r, host, now).runtime)
  {
    OnBridgeSyncs(r.(window := Some(Window(host, Later(now, PAIRING_MODE_TIMEOUT)))), Event.EnterPairingMode(host));
  }

  lemma CloseSyncs(r: Runtime)
    requires Synced(r)
    ensures CloseWindow(r).Going? && Synced(CloseWindow(r).runtime) && CloseWindow(r).runtime.window.None?
  {
    if r.window.Some? {
      var h := r.window.value.host;
      var e := ExpirePairing(r.bridge, h);
      assert e.actions == [RejectPairing(h)] + [Bridge.Status(e.state)];
      assert EndsWindow(e.actions[1]);
      assert forall i :: 0 <= i < |e.actions| ==> Dispatchable(r, e.actions[i]);
      OnBridgeSyncs(r.(window := None), PairingModeExpired(h));
    }
  }

  lemma ButtonSyncs(r: Runtime, intent: Intent, now: nat)
    requires Synced(r) && OnButton(r, intent, now).Going?
    ensures Synced(OnButton(r, intent, now).runtime)
  {
    match ConfiguredIntent(r.settings, intent)
    case None =>
    case Some(NextConnected) =>
      if NextConnectedTarget(r).Some? { RequestSyncs(r, NextConnectedTarget(r).value, now); }
    case Some(EnterPairingMode) =>
      if PairingCandidate(r.bridge.hosts).Some? { OpenSyncs(r, PairingCandidate(r.bridge.hosts).value, now); }
    case Some(ClearActiveHost) =>
      if r.bridge.hosts.active.Some? {
        var h := r.bridge.hosts.active.value;
        OnBridgeSyncs(Unwindowed(r, h), ClearHost(h));
      }
  }

  lemma TickSyncs(r: Runtime, now: nat)
    requires Synced(r) && OnTick(r, now).Going?
    ensures Synced(OnTick(r, now).runtime) && !WindowDue(OnTick(r, now).runtime, now)
  {
    var a := FireSwitch(r.(now := now), now);
    if SwitchDue(r, now) {
      EventSyncs(r.(now := now, pending := None), SwitchTarget(r.pending.value.target));
    }
    CloseSyncs(a.runtime);
  }

  lemma CoreSyncs(r: Runtime, i: RuntimeInput)
    requires Synced(r) && Core(r, i).Going?
    ensures Synced(Core(r, i).runtime)
  {
    match i
    case OnEvent(e, shortcut) =>
      EventSyncs(r, e);
      var a := OnBridge(r, e).runtime;
      if e.InputFrame? && shortcut && NextConnectedTarget(a).Some? {
        RequestSyncs(a, NextConnectedTarget(a).value, a.now);
      }
    case Button(intent, now) => ButtonSyncs(r, intent, now);
    case Tick(now) => TickSyncs(r, now);
    case InterfaceUp(interface, device, hasLeds) =>
      var j := InterfaceIndex(r.interfaces, interface);
      var x := Interface(interface, device, hasLeds);
      var xs := if j >= 0 then r.interfaces[j := x] else r.interfaces + [x];
      EventSyncs(r.(interfaces := xs), InterfaceConnected(interface, device, hasLeds));
    case InterfaceDown(interface, aggregate, idle) =>
      var r' := Dropped(r, interface);
      EventSyncs(r', InterfaceRemoved(interface, aggregate));
    case SelectHost(h, now) =>
      if Managed(r, i) != Going(r, []) { RequestSyncs(r, h, now); }
    case StartPairing(h, now) =>
      if Managed(r, i) != Going(r, []) { OpenSyncs(r, h, now); }
    case CancelPairing => CloseSyncs(r);
    case ForgetHost(h) =>
      if Managed(r, i) != Going(r, []) { EventSyncs(r, ClearHost(h)); }
    case _ =>
  }

  function RunInputs(xs: seq<RuntimeInput>): Runtime {
    if xs == [] then Fresh() else Advance(RunInputs(xs[..|xs| - 1]), xs[|xs| - 1]).runtime
  }

  /** In every run, after every input, the runtime's pairing host is the bridge's. */
  lemma {:induction false} WindowFollowsBridge(xs: seq<RuntimeInput>)
    ensures Synced(RunInputs(xs))
    decreases |xs|
  {
    if xs != [] {
      var r, i := RunInputs(xs[..|xs| - 1]), xs[|xs| - 1];
      WindowFollowsBridge(xs[..|xs| - 1]);
      if Process(r, i).Going? {
        CoreSyncs(r, i);
      }
    }
  }
}
