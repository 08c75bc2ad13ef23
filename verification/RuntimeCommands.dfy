/** How many commands an input can need. */
module RuntimeCommands {
  import opened Options
  import opened Clock
  import opened StorageImage
  import opened Keyboard
  import opened HostState
  import opened HostMachine
  import HostHistory
  import opened Bridge
  import opened BridgeInput
  import opened BridgeActions
  import opened Runtime
  import opened RuntimePairing

  // ------------------------------------------------------------------ capacity

  lemma OnBridgeNeeds(r: Runtime, e: Event)
    requires Sound(r.bridge) && OnBridge(r, e).Going?
    ensures var p := OnBridge(r, e);
      && Sound(p.runtime.bridge) && p.runtime.interfaces == r.interfaces && p.runtime.power == r.power
      && p.runtime.now == r.now && |p.commands| <= Need(r.bridge, e)
  {
    ActionsNeeded(r.bridge, e);
    StepSound(r.bridge, e);
  }

  lemma RequestNeeds(r: Runtime, target: int, now: nat)
    requires Sound(r.bridge) && RequestSwitch(r, target, now).Going?
    ensures Sound(RequestSwitch(r, target, now).runtime.bridge) && |RequestSwitch(r, target, now).commands| <= 14
  {
    if r.settings.delay == 0 {
      OnBridgeNeeds(r.(pending := None), SwitchTarget(target));
    }
  }

  lemma CloseNeeds(r: Runtime)
    requires Sound(r.bridge) && CloseWindow(r).Going?
    ensures Sound(CloseWindow(r).runtime.bridge) && |CloseWindow(r).commands| <= 2
  {
    if r.window.Some? {
      StepSound(r.bridge, PairingModeExpired(r.window.value.host));
    }
  }

  lemma TickNeeds(r: Runtime, now: nat)
    requires Sound(r.bridge) && OnTick(r, now).Going?
    ensures Sound(OnTick(r, now).runtime.bridge) && |OnTick(r, now).commands| <= 16
  {
    var r' := r.(now := now);
    if SwitchDue(r, now) {
      OnBridgeNeeds(r'.(pending := None), SwitchTarget(r.pending.value.target));
    }
    CloseNeeds(FireSwitch(r', now).runtime);
  }

  lemma ButtonNeeds(r: Runtime, intent: Intent, now: nat)
    requires Sound(r.bridge) && OnButton(r, intent, now).Going?
    ensures Sound(OnButton(r, intent, now).runtime.bridge) && |OnButton(r, intent, now).commands| <= 15
  {
    match ConfiguredIntent(r.settings, intent)
    case None =>
    case Some(NextConnected) =>
      if NextConnectedTarget(r).Some? { RequestNeeds(r, NextConnectedTarget(r).value, now); }
    case Some(EnterPairingMode) =>
      if PairingCandidate(r.bridge.hosts).Some? {
        var h := PairingCandidate(r.bridge.hosts).value;
        OnBridgeNeeds(r.(window := Some(Window(h, Later(now, PAIRING_MODE_TIMEOUT)))), Event.EnterPairingMode(h));
      }
    case Some(ClearActiveHost) =>
      if r.bridge.hosts.active.Some? {
        var h := r.bridge.hosts.active.value;
        OnBridgeNeeds(Unwindowed(r, h), ClearHost(h));
      }
  }

  lemma ManagedNeeds(r: Runtime, i: RuntimeInput)
    requires Sound(r.bridge) && Managed(r, i).Going?
    ensures Sound(Managed(r, i).runtime.bridge) && |Managed(r, i).commands| <= 15
  {
    if Managed(r, i) != Going(r, []) {
      match i
      case SelectHost(h, now) => RequestNeeds(r, h, now);
      case StartPairing(h, now) =>
        OnBridgeNeeds(r.(window := Some(Window(h, Later(now, PAIRING_MODE_TIMEOUT)))), Event.EnterPairingMode(h));
      case CancelPairing => CloseNeeds(r);
      case ForgetHost(h) => OnBridgeNeeds(r, ClearHost(h));
    }
  }

  lemma EventNeeds(r: Runtime, e: Event, shortcut: bool)
    requires Sound(r.bridge) && OnEventInput(r, e, shortcut).Going?
    ensures Sound(OnEventInput(r, e, shortcut).runtime.bridge) && |OnEventInput(r, e, shortcut).commands| <= 15
  {
    OnBridgeNeeds(r, e);
    var a := OnBridge(r, e);
    if e.InputFrame? && shortcut && NextConnectedTarget(a.runtime).Some? {
      RequestNeeds(a.runtime, NextConnectedTarget(a.runtime).value, a.runtime.now);
    }
  }

  lemma RegisterNeeds(r: Runtime, x: Interface)
    requires Sound(r.bridge) && Register(r, x).Going?
    ensures Sound(Register(r, x).runtime.bridge) && |Register(r, x).commands| <= 8
  {
    var j := InterfaceIndex(r.interfaces, x.interface);
    var xs := if j >= 0 then r.interfaces[j := x] else r.interfaces + [x];
    OnBridgeNeeds(r.(interfaces := xs), InterfaceConnected(x.interface, x.device, x.hasLeds));
  }

  lemma UnregisterNeeds(r: Runtime, interface: int, aggregate: Input, idle: bool)
    requires Sound(r.bridge) && Unregister(r, interface, aggregate, idle).Going?
    ensures var p := Unregister(r, interface, aggregate, idle); Sound(p.runtime.bridge) && |p.commands| <= 5
  {
    var r' := Dropped(r, interface);
    OnBridgeNeeds(r', InterfaceRemoved(interface, aggregate));
  }

  lemma CoreNeeds(r: Runtime, i: RuntimeInput)
    requires Sound(r.bridge) && Core(r, i).Going?
    ensures Sound(Core(r, i).runtime.bridge) && |Core(r, i).commands| <= 16
  {
    match i
    case OnEvent(e, shortcut) => EventNeeds(r, e, shortcut);
    case Button(intent, now) => ButtonNeeds(r, intent, now);
    case Tick(now) => TickNeeds(r, now);
    case InterfaceUp(interface, device, hasLeds) => RegisterNeeds(r, Interface(interface, device, hasLeds));
    case InterfaceDown(interface, aggregate, idle) => UnregisterNeeds(r, interface, aggregate, idle);
    case Metadata(_) =>
    case NameFound(h, name) => TouchChanges(r.bridge.hosts, h, Discover(name));
    case HealthChanged(_) =>
    case RestoreStorage(stored, lastActive, settings) =>
      RestoredIsDormant(r.bridge, stored, BootTarget(settings, stored, lastActive), NEUTRAL, 0);
    case QuiescePrepare =>
    case QuiesceDrop(h) => TouchChanges(r.bridge.hosts, h, Disconnect);
    case _ => ManagedNeeds(r, i);
  }

  /** No input of any run overflows the command vector, or needs more than the
      bridge's action vector. */
  lemma {:induction false} CommandsFit(xs: seq<RuntimeInput>, i: RuntimeInput)
    ensures Sound(RunInputs(xs).bridge)
    ensures |Advance(RunInputs(xs), i).commands| <= COMMANDS_MAX
    decreases |xs|
  {
    if xs == [] {
      HostHistory.NothingAtFirst(None);
    } else {
      var before := xs[..|xs| - 1];
      CommandsFit(before, xs[|xs| - 1]);
      AdvanceNeeds(RunInputs(before), xs[|xs| - 1]);
    }
    AdvanceNeeds(RunInputs(xs), i);
  }

  lemma AdvanceNeeds(r: Runtime, i: RuntimeInput)
    requires Sound(r.bridge)
    ensures Sound(Advance(r, i).runtime.bridge) && |Advance(r, i).commands| <= COMMANDS_MAX
  {
    if Core(r, i).Going? {
      CoreNeeds(r, i);
    }
  }

  // -------------------------------------------------- a tick needs at most 16

  /** A suspended bus has a reason to be. */
  predicate HasReason(r: Runtime) {
    r.power.suspended ==> !BusShouldRun(r)
  }

  lemma ReconciledHasReason(p: Progress)
    requires p.Going?
    ensures HasReason(Reconciled(p).runtime)
  {
  }

  lemma BypassKeepsReason(r: Runtime, i: RuntimeInput)
    requires Sound(r.bridge) && HasReason(r) && Bypasses(i)
    ensures HasReason(Core(r, i).runtime)
  {
    if i.QuiesceDrop? && ComputerConnected(Unlinked(r.bridge, i.host).hosts) {
      DropConnectsNobody(r.bridge, i.host);
    }
  }

  lemma {:induction false} SuspendedHasReason(xs: seq<RuntimeInput>)
    ensures HasReason(RunInputs(xs))
    decreases |xs|
  {
    if xs != [] {
      var r, i := RunInputs(xs[..|xs| - 1]), xs[|xs| - 1];
      SuspendedHasReason(xs[..|xs| - 1]);
      if Bypasses(i) {
        CommandsFit(xs[..|xs| - 1], i);
        BypassKeepsReason(r, i);
      } else if Core(r, i).Going? {
        ReconciledHasReason(Core(r, i));
      }
    }
  }

  lemma DropConnectsNobody(s: State, h: int)
    requires Sound(s) && ComputerConnected(Unlinked(s, h).hosts)
    ensures ComputerConnected(s.hosts)
  {
    TouchChanges(s.hosts, h, Disconnect);
    var g := ConnectedById(Unlinked(s, h).hosts);
    ConnectedBySlots(s.hosts, g);
  }

  lemma ConnectedBySlots(hs: Hosts, g: int)
    requires WellFormed(hs) && Lookup(hs, g).Some? && Lookup(hs, g).value.connected
    ensures ComputerConnected(hs)
  {
    assert Holds(hs.slots, Find(hs.slots, g), g);
  }

  lemma ConnectedById(hs: Hosts) returns (g: int)
    requires WellFormed(hs) && ComputerConnected(hs)
    ensures Lookup(hs, g).Some? && Lookup(hs, g).value.connected
  {
    var i :| 0 <= i < |hs.slots| && hs.slots[i].Some? && hs.slots[i].value.connected;
    g := hs.slots[i].value.id;
    assert Holds(hs.slots, i, g);
    Only(hs, g, Find(hs.slots, g));
  }

  /** A switch changes nobody's link. */
  lemma SwitchKeepsLinks(s: State, target: int)
    requires Sound(s)
    ensures ComputerConnected(Bridge.Step(s, SwitchTarget(target)).state.hosts) <==> ComputerConnected(s.hosts)
  {
    var hosts := Bridge.Step(s, SwitchTarget(target)).state.hosts;
    StepSound(s, SwitchTarget(target));
    ActivateChanges(s.hosts, target);
    if ComputerConnected(s.hosts) {
      var g := ConnectedById(s.hosts);
      ConnectedBySlots(hosts, g);
    }
    if ComputerConnected(hosts) {
      var g := ConnectedById(hosts);
      ConnectedBySlots(s.hosts, g);
    }
  }

  lemma NoReleasesUnlessConnected(s: State, target: int)
    requires Sound(s) && !ComputerConnected(s.hosts)
    ensures |Bridge.Step(s, SwitchTarget(target)).actions| <= 11
  {
    if s.hosts.active.Some? {
      var g := s.hosts.active.value;
      if Lookup(s.hosts, g).Some? && Lookup(s.hosts, g).value.connected {
        ConnectedBySlots(s.hosts, g);
      }
      assert ReleaseReports(s.hosts, g, SwitchRelease) == [];
    }
  }

  /** The bus has the same reasons to run. */
  predicate SameBus(r: Runtime, r': Runtime) {
    r'.power == r.power && (BusShouldRun(r') <==> BusShouldRun(r))
  }

  lemma FireKeepsBus(r: Runtime, now: nat)
    requires Sound(r.bridge) && FireSwitch(r, now).Going?
    ensures var a := FireSwitch(r, now);
      Sound(a.runtime.bridge) && SameBus(r, a.runtime) && (!ComputerConnected(r.bridge.hosts) ==> |a.commands| <= 11)
  {
    if SwitchDue(r, now) {
      var target := r.pending.value.target;
      OnBridgeNeeds(r.(pending := None), SwitchTarget(target));
      SwitchKeepsLinks(r.bridge, target);
      if !ComputerConnected(r.bridge.hosts) {
        NoReleasesUnlessConnected(r.bridge, target);
      }
    }
  }

  lemma CloseKeepsBus(r: Runtime)
    requires Sound(r.bridge) && CloseWindow(r).Going?
    ensures SameBus(r, CloseWindow(r).runtime) && |CloseWindow(r).commands| <= 2
  {
    CloseNeeds(r);
  }

  /** The links and the interfaces after the core of a tick are those before, and
      the three release reports need a connected computer. */
  lemma TickKeepsBus(r: Runtime, now: nat)
    requires Sound(r.bridge) && OnTick(r, now).Going?
    ensures var p := OnTick(r, now);
      SameBus(r, p.runtime) && (!ComputerConnected(r.bridge.hosts) ==> |p.commands| <= 13)
  {
    var a := FireSwitch(r.(now := now), now);
    FireKeepsBus(r.(now := now), now);
    if WindowDue(a.runtime, now) {
      CloseKeepsBus(a.runtime);
    }
  }

  /** One command slot is never used by a tick: the bus changes only when no
      computer is connected, and then nothing is released. */
  lemma TickNeedsSixteen(xs: seq<RuntimeInput>, now: nat)
    ensures |Advance(RunInputs(xs), Tick(now)).commands| <= COMMANDS_MAX - 1
  {
    var r := RunInputs(xs);
    CommandsFit(xs, Tick(now));
    SuspendedHasReason(xs);
    if OnTick(r, now).Going? {
      TickNeeds(r, now);
      TickKeepsBus(r, now);
    }
  }
}
