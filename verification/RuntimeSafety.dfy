/** Refusals, command counts and dropped reports of the runtime. */
module RuntimeSafety {
  import opened Options
  import opened Clock
  import opened StorageImage
  import opened HostState
  import opened HostMachine
  import opened Bridge
  import opened BridgeInput
  import opened BridgeActions
  import opened Runtime
  import opened RuntimePairing

  // --------------------------------------------------- pairing, told by commands

  function Opened(open: set<int>, commands: seq<Command>): set<int>
    decreases |commands|
  {
    if commands == [] then open
    else Opened(if commands[0].Act? then PairingAfter(open, commands[0].action) else open, commands[1..])
  }

  lemma {:induction false} OpenedActs(open: set<int>, actions: seq<Action>)
    ensures Opened(open, Acts(actions)) == Pairing(open, actions)
    decreases |actions|
  {
    if actions != [] {
      assert Acts(actions)[1..] == Acts(actions[1..]);
      OpenedActs(PairingAfter(open, actions[0]), actions[1..]);
    }
  }

  lemma {:induction false} OpenedAppend(open: set<int>, a: seq<Command>, b: seq<Command>)
    ensures Opened(open, a + b) == Opened(Opened(open, a), b)
    decreases |a|
  {
    if a == [] {
      assert a + b == b;
    } else {
      assert (a + b)[1..] == a[1..] + b;
      OpenedAppend(if a[0].Act? then PairingAfter(open, a[0].action) else open, a[1..], b);
    }
  }

  /** Between two runtimes, the commands move the open windows as the bridge does. */
  predicate Tells(r: Runtime, p: Progress) {
    p.Going? ==> Opened(OpenFor(r.bridge.pairable), p.commands) == OpenFor(p.runtime.bridge.pairable)
  }

  lemma OnBridgeTells(r: Runtime, e: Event)
    ensures Tells(r, OnBridge(r, e))
  {
    var reply := Handle(r.bridge, e);
    if reply.Done? {
      StepPairs(r.bridge, e);
      OpenedActs(OpenFor(r.bridge.pairable), reply.effect.actions);
    }
  }

  lemma RequestTells(r: Runtime, target: int, now: nat)
    ensures Tells(r, RequestSwitch(r, target, now))
  {
    if r.settings.delay == 0 {
      OnBridgeTells(r.(pending := None), SwitchTarget(target));
    }
  }

  lemma MoreTells(r: Runtime, p: Progress, more: seq<Command>)
    requires Tells(r, p) && (more == [] || (|more| == 1 && !more[0].Act?))
    ensures Tells(r, Extended(p, more))
  {
    if p.Going? {
      OpenedAppend(OpenFor(r.bridge.pairable), p.commands, more);
    }
  }

  lemma CoreTells(r: Runtime, i: RuntimeInput)
    requires !i.RestoreStorage?
    ensures Tells(r, Core(r, i))
  {
    match i
    case OnEvent(e, shortcut) => EventTells(r, e, shortcut);
    case Button(intent, now) => ButtonTells(r, intent, now);
    case Tick(now) => TickTells(r, now);
    case InterfaceUp(interface, device, hasLeds) => RegisterTells(r, Interface(interface, device, hasLeds));
    case InterfaceDown(interface, aggregate, idle) => UnregisterTells(r, interface, aggregate, idle);
    case Metadata(isNew) =>
    case NameFound(_, _) =>
    case HealthChanged(_) =>
    case _ =>
      ManagedTells(r, i);
      MoreTells(r, Managed(r, i), [Respond]);
  }

  lemma RegisterTells(r: Runtime, x: Interface)
    ensures Tells(r, Register(r, x))
  {
    var j := InterfaceIndex(r.interfaces, x.interface);
    var xs := if j >= 0 then r.interfaces[j := x] else r.interfaces + [x];
    OnBridgeTells(r.(interfaces := xs), InterfaceConnected(x.interface, x.device, x.hasLeds));
  }

  lemma UnregisterTells(r: Runtime, interface: int, aggregate: Input, idle: bool)
    ensures Tells(r, Unregister(r, interface, aggregate, idle))
  {
    var j := InterfaceIndex(r.interfaces, interface);
    var r' := Dropped(r, interface);
    OnBridgeTells(r', InterfaceRemoved(interface, aggregate));
    MoreTells(r, OnBridge(r', InterfaceRemoved(interface, aggregate)),
              if j >= 0 && idle && r.writable then [PersistNow] else []);
  }

  lemma EventTells(r: Runtime, e: Event, shortcut: bool)
    ensures Tells(r, OnEventInput(r, e, shortcut))
  {
    OnBridgeTells(r, e);
    var a := OnBridge(r, e);
    if a.Going? && e.InputFrame? && shortcut {
      NoPairingActions(r.bridge, e);
      if NextConnectedTarget(a.runtime).Some? {
        RequestTells(a.runtime, NextConnectedTarget(a.runtime).value, a.runtime.now);
      }
    }
  }

  lemma ButtonTells(r: Runtime, intent: Intent, now: nat)
    ensures Tells(r, OnButton(r, intent, now))
  {
    match ConfiguredIntent(r.settings, intent)
    case None =>
    case Some(NextConnected) =>
      if NextConnectedTarget(r).Some? { RequestTells(r, NextConnectedTarget(r).value, now); }
    case Some(EnterPairingMode) =>
      if PairingCandidate(r.bridge.hosts).Some? {
        var h := PairingCandidate(r.bridge.hosts).value;
        OnBridgeTells(r.(window := Some(Window(h, Later(now, PAIRING_MODE_TIMEOUT)))), Event.EnterPairingMode(h));
      }
    case Some(ClearActiveHost) =>
      if r.bridge.hosts.active.Some? {
        var h := r.bridge.hosts.active.value;
        OnBridgeTells(Unwindowed(r, h), ClearHost(h));
      }
  }

  lemma CloseTells(r: Runtime)
    ensures Tells(r, CloseWindow(r))
  {
    if r.window.Some? {
      OnBridgeTells(r.(window := None), PairingModeExpired(r.window.value.host));
    }
  }

  lemma TickTells(r: Runtime, now: nat)
    ensures Tells(r, OnTick(r, now))
  {
    var a := FireSwitch(r.(now := now), now);
    if SwitchDue(r, now) {
      OnBridgeTells(r.(now := now, pending := None), SwitchTarget(r.pending.value.target));
    }
    if a.Going? {
      CloseTells(a.runtime);
      var b := ExpireWindow(a.runtime, now);
      if b.Going? {
        OpenedAppend(OpenFor(r.bridge.pairable), a.commands, b.commands);
      }
    }
  }

  lemma ManagedTells(r: Runtime, i: RuntimeInput)
    ensures Tells(r, Managed(r, i))
  {
    match i
    case SelectHost(h, now) => RequestTells(r, h, now);
    case StartPairing(h, now) =>
      OnBridgeTells(r.(window := Some(Window(h, Later(now, PAIRING_MODE_TIMEOUT)))), Event.EnterPairingMode(h));
    case CancelPairing => CloseTells(r);
    case ForgetHost(h) => OnBridgeTells(r, ClearHost(h));
    case _ =>
  }

  function CommandsOf(r: Runtime, xs: seq<RuntimeInput>): Progress
    ensures CommandsOf(r, xs).Going?
    decreases |xs|
  {
    if xs == [] then Going(r, [])
    else
      var before := CommandsOf(r, xs[..|xs| - 1]);
      Join(Advance(before.runtime, xs[|xs| - 1]), before.commands)
  }

  /** Over every run after the boot restore, the AllowPairing and RejectPairing
      commands leave open exactly the runtime's pairing host, at most one. */
  lemma {:induction false} CommandsTellWindow(r: Runtime, xs: seq<RuntimeInput>)
    requires Synced(r) && forall i :: 0 <= i < |xs| ==> !xs[i].RestoreStorage?
    ensures var p := CommandsOf(r, xs);
      Synced(p.runtime) && Opened(OpenFor(WindowHost(r.window)), p.commands) == OpenFor(WindowHost(p.runtime.window))
    decreases |xs|
  {
    if xs != [] {
      var before, i := CommandsOf(r, xs[..|xs| - 1]), xs[|xs| - 1];
      CommandsTellWindow(r, xs[..|xs| - 1]);
      var core := Core(before.runtime, i);
      OpenedAppend(OpenFor(r.bridge.pairable), before.commands, Advance(before.runtime, i).commands);
      if core.Going? {
        CoreSyncs(before.runtime, i);
        CoreTells(before.runtime, i);
        ReconcileTells(before.runtime, core);
      }
    }
  }

  lemma ReconcileTells(r: Runtime, p: Progress)
    requires p.Going? && Tells(r, p)
    ensures Tells(r, Reconciled(p))
  {
    var power := Reconciled(p).runtime.power;
    MoreTells(r, p, if power.suspended != p.runtime.power.suspended then [SetBusSuspended(power.suspended)] else []);
  }

  // ------------------------------------------------------------- refused ticks

  /** The sinks that show LEDs are known to the runtime with an LED output. */
  predicate SinksKnown(interfaces: seq<Interface>, sinks: seq<Sink>) {
    forall i :: 0 <= i < |sinks| && sinks[i].showsLeds ==> HasLeds(interfaces, sinks[i].interface)
  }

  predicate LedsKnown(r: Runtime) {
    SinksKnown(r.interfaces, r.bridge.sinks)
  }

  ghost predicate AllDispatch(r: Runtime, actions: seq<Action>) {
    forall i :: 0 <= i < |actions| ==> Dispatchable(r, actions[i])
  }

  lemma AllDispatchJoin(r: Runtime, a: seq<Action>, b: seq<Action>)
    ensures AllDispatch(r, a + b) <==> AllDispatch(r, a) && AllDispatch(r, b)
  {
    assert forall i :: 0 <= i < |a| ==> (a + b)[i] == a[i];
    forall i | 0 <= i < |b| ensures b[i] == (a + b)[|a| + i] {}
    if AllDispatch(r, a + b) {
      forall i | 0 <= i < |b| ensures Dispatchable(r, b[i]) {
        assert Dispatchable(r, (a + b)[|a| + i]);
      }
    }
  }

  lemma SinksKnownSplit(interfaces: seq<Interface>, sinks: seq<Sink>)
    requires sinks != []
    ensures SinksKnown(interfaces, sinks) <==>
      (sinks[0].showsLeds ==> HasLeds(interfaces, sinks[0].interface)) && SinksKnown(interfaces, sinks[1..])
  {
    assert forall i :: 1 <= i < |sinks| ==> sinks[i] == sinks[1..][i - 1];
    if SinksKnown(interfaces, sinks) {
      forall j | 0 <= j < |sinks[1..]| && sinks[1..][j].showsLeds ensures HasLeds(interfaces, sinks[1..][j].interface) {
        assert sinks[1..][j] == sinks[j + 1];
      }
    }
  }

  lemma {:induction false} LedActionsDispatch(r: Runtime, sinks: seq<Sink>, leds: int)
    ensures SinksKnown(r.interfaces, sinks) <==> AllDispatch(r, LedActions(sinks, leds))
    decreases |sinks|
  {
    if sinks != [] {
      LedActionsDispatch(r, sinks[1..], leds);
      SinksKnownSplit(r.interfaces, sinks);
      var first := if sinks[0].showsLeds then [SetLeds(sinks[0].interface, sinks[0].device, leds)] else [];
      AllDispatchJoin(r, first, LedActions(sinks[1..], leds));
      assert sinks[0].showsLeds ==> first[0].SetLeds?;
    }
  }

  lemma ReleasesDispatch(r: Runtime, s: State, release: Option<Reason>)
    ensures AllDispatch(r, ReleasesFor(s, release))
  {
  }

  /** What a target change needs beyond the bridge: a target in range, storage
      that can be written, and LED outputs for all LED sinks. */
  predicate CanSwitch(r: Runtime, target: int) {
    r.bridge.hosts.active == Some(target) || (ValidId(target) && r.writable && LedsKnown(r))
  }

  /** The actions of a target change after the releases. */
  lemma TailDispatches(r: Runtime, sinks: seq<Sink>, target: int, leds: int)
    ensures AllDispatch(r, [ActivateInput(target)] + LedActions(sinks, leds) + [PersistProfiles]) <==>
      r.writable && SinksKnown(r.interfaces, sinks)
  {
    var head, lights, last := [ActivateInput(target)], LedActions(sinks, leds), [PersistProfiles];
    LedActionsDispatch(r, sinks, leds);
    AllDispatchJoin(r, head + lights, last);
    AllDispatchJoin(r, head, lights);
    assert AllDispatch(r, last) <==> r.writable by { assert last[0] == PersistProfiles; }
  }

  lemma TransitionDispatches(r: Runtime, s: State, target: int, release: Option<Reason>)
    requires s.hosts.active != Some(target) && Transition(s, target, release).Done?
    ensures AllDispatch(r, WithStatus(Transition(s, target, release).effect).actions) <==>
      r.writable && SinksKnown(r.interfaces, s.sinks)
  {
    var e := Transition(s, target, release).effect;
    var h := Lookup(e.state.hosts, target);
    var leds := if h.Some? && h.value.leds.Some? then h.value.leds.value else 0;
    var tail := [ActivateInput(target)] + LedActions(s.sinks, leds) + [PersistProfiles];
    assert e.actions == ReleasesFor(s, release) + tail;
    TailDispatches(r, s.sinks, target, leds);
    ReleasesDispatch(r, s, release);
    AllDispatchJoin(r, ReleasesFor(s, release), tail);
    AllDispatchJoin(r, e.actions, [Bridge.Status(e.state)]);
  }

  lemma DispatchGoes(r: Runtime, actions: seq<Action>)
    ensures Dispatch(r, actions).Going? <==> AllDispatch(r, actions)
  {
  }

  /** A switch is refused exactly when it would change the target and cannot. */
  lemma SwitchRefused(r: Runtime, target: int)
    requires Sound(r.bridge)
    ensures OnBridge(r, SwitchTarget(target)).Going? <==> CanSwitch(r, target)
  {
    ActivateChanges(r.bridge.hosts, target);
    var reply := Handle(r.bridge, SwitchTarget(target));
    if reply.Done? {
      var r' := r.(bridge := reply.effect.state);
      DispatchGoes(r', reply.effect.actions);
      if r.bridge.hosts.active != Some(target) {
        TransitionDispatches(r', r.bridge, target, Some(SwitchRelease));
      }
    }
  }

  /** A due switch that cannot be made. */
  predicate Blocked(r: Runtime, now: nat) {
    SwitchDue(r, now) && !CanSwitch(r, r.pending.value.target)
  }

  /** A tick is refused exactly when a due switch is blocked; and a window that is
      due survives a tick exactly when the tick is refused. */
  lemma TickClosesWindow(r: Runtime, now: nat)
    requires Synced(r) && Sound(r.bridge)
    ensures Process(r, Tick(now)).Refused? <==> Blocked(r, now)
    ensures WindowDue(Advance(r, Tick(now)).runtime, now) <==> WindowDue(r, now) && Blocked(r, now)
  {
    var r' := r.(now := now);
    if SwitchDue(r, now) {
      SwitchRefused(r'.(pending := None), r.pending.value.target);
      assert LedsKnown(r'.(pending := None)) <==> LedsKnown(r);
    }
    var a := FireSwitch(r', now);
    if a.Going? {
      if SwitchDue(r, now) {
        EventSyncs(r'.(pending := None), SwitchTarget(r.pending.value.target));
      }
      CloseSyncs(a.runtime);
      TickSyncs(r, now);
    }
  }

  // A concrete run in which a window outlives every tick: a delayed switch falls
  // due while storage cannot be written.

  function OneConnected(): Hosts {
    Hosts(None, [Some(NewHost(1).(connected := true)), None, None, None])
  }

  function Connected1(): Runtime {
    Fresh().(bridge := Initial().(hosts := OneConnected()))
  }

  function SwitchPending1(): Runtime {
    Connected1().(pending := Some(Pending(1, 20)))
  }

  function Pairing2(): Runtime {
    SwitchPending1().(window := Some(Window(2, PAIRING_MODE_TIMEOUT)),
                      bridge := SwitchPending1().bridge.(pairable := Some(2)))
  }

  lemma ConnectsFirst()
    ensures Advance(Fresh(), OnEvent(HostConnected(1), false)).runtime == Connected1()
  {
    assert Find(NoHosts().slots, 1) == -1 && FirstFree(NoHosts().slots) == 0;
    var u := Upsert(NoHosts(), 1).value;
    assert u.slots == [Some(NewHost(1)), None, None, None];
    assert Find(u.slots, 1) == 0;
    var h := NewHost(1).(connected := true);
    assert HostOrNew(u, 1) == NewHost(1) && Changed(NewHost(1), Connect) == h;
    assert u.slots[0 := Some(h)] == [Some(h), None, None, None];
    assert Put(u, h) == OneConnected();
    assert Touch(NoHosts(), 1, Connect) == Ok(OneConnected());
  }

  lemma AsksForSwitch()
    ensures Advance(Connected1(), Button(NextConnected, 0)).runtime == SwitchPending1()
  {
    assert Candidate(OneConnected().slots, 0, Wanted.AnyConnected);
    assert FirstCandidate(OneConnected().slots, Wanted.AnyConnected, 0) == 0;
    assert NextConnectedTarget(Connected1()) == Some(1);
  }

  lemma StartsPairing()
    ensures Advance(SwitchPending1(), StartPairing(2, 0)).runtime == Pairing2()
  {
    var slots := OneConnected().slots;
    assert Find(slots, 2) == -1 by {
      assert !Holds(slots, 0, 2) && !Holds(slots, 1, 2) && !Holds(slots, 2, 2) && !Holds(slots, 3, 2);
    }
    assert !HasBond(OneConnected(), 2);
    var e := EnterPairing(SwitchPending1().bridge, 2);
    assert e.actions == [AllowPairing(2), Bridge.Status(e.state)];
  }

  lemma WindowCanOutliveTicks(now: nat)
    requires now >= PAIRING_MODE_TIMEOUT
    ensures var xs := [OnEvent(HostConnected(1), false), Button(NextConnected, 0), StartPairing(2, 0), HealthChanged(false)];
      var r := Advance(Advance(Advance(Advance(Fresh(), xs[0]).runtime, xs[1]).runtime, xs[2]).runtime, xs[3]).runtime;
      WindowDue(r, now) && Advance(r, Tick(now)).runtime == r
  {
    ConnectsFirst();
    AsksForSwitch();
    StartsPairing();
    LosesStorage();
    StaysBlocked(now);
  }

  lemma LosesStorage()
    ensures Advance(Pairing2(), HealthChanged(false)).runtime == Pairing2().(writable := false)
  {
  }

  lemma StaysBlocked(now: nat)
    requires now >= PAIRING_MODE_TIMEOUT
    ensures var r := Pairing2().(writable := false); WindowDue(r, now) && Advance(r, Tick(now)).runtime == r
  {
    OneConnectedIsWellFormed();
    TickClosesWindow(Pairing2().(writable := false), now);
  }

  lemma OneConnectedIsWellFormed()
    ensures WellFormed(OneConnected())
  {
  }

  /** The same hole for links: the disconnect of the active computer is refused,
      and so forgotten, exactly when another computer would take over and the
      switch to it cannot be dispatched. */
  lemma DisconnectRefused(r: Runtime, h: int)
    requires Sound(r.bridge)
    ensures OnBridge(r, HostDisconnected(h)).Refused? <==> Fallback(r.bridge, h).Some? && !(r.writable && LedsKnown(r))
  {
    TouchChanges(r.bridge.hosts, h, Disconnect);
    var s := Unlinked(r.bridge, h);
    var next := Fallback(r.bridge, h);
    if next.Some? {
      FallbackIsNew(r.bridge, h);
      ActivateChanges(s.hosts, next.value);
      var e := Transition(s, next.value, None).effect;
      var r' := r.(bridge := e.state);
      DispatchGoes(r', WithStatus(e).actions);
      TransitionDispatches(r', s, next.value, None);
    } else {
      DispatchGoes(r.(bridge := s), [] + [Bridge.Status(s)]);
    }
  }

  lemma FallbackIsNew(s: State, h: int)
    requires Sound(s) && Fallback(s, h).Some?
    ensures Fallback(s, h) != Some(h) && ValidId(Fallback(s, h).value)
  {
    TouchChanges(s.hosts, h, Disconnect);
    var hosts := Unlinked(s, h).hosts;
    var i := NextSlot(hosts.slots, Some(h), Able(KeyboardKind));
    CurrentIsOnly(hosts, Some(h), Able(KeyboardKind));
    assert !CanSend(hosts, h, KeyboardKind);
  }
}
