/** The bridge's light sinks and the runtime's interfaces agree, so that lights never
    stand in the way of a switch. */
module RuntimeSinks {
  import opened Options
  import opened Clock
  import opened StorageImage
  import opened HostState
  import opened HostMachine
  import HostHistory
  import opened Bridge
  import opened BridgeInput
  import opened BridgeLeds
  import opened Runtime
  import opened RuntimePairing
  import opened RuntimeSafety
  import opened RuntimeViews
  import opened RuntimeTimers
  import opened RuntimeManagement

  ghost predicate OneEach(sinks: seq<Sink>) {
    forall i, j :: 0 <= i < j < |sinks| ==> sinks[i].interface != sinks[j].interface
  }

  /** Every keyboard that shows lights is registered with them, once. */
  ghost predicate Agree(r: Runtime) {
    OneEach(r.bridge.sinks) && SinksKnown(r.interfaces, r.bridge.sinks)
  }

  /** An event other than about interfaces leaves the sinks alone. */
  lemma EventKeepsSinks(s: State, e: Event)
    requires Sound(s) && !e.InterfaceConnected? && !e.InterfaceRemoved?
    ensures Step(s, e).state.sinks == s.sinks
  {
    match e
    case InputFrame(keyboard, mouse, consumer) => FrameOnlyNotifies(s, keyboard, mouse, consumer);
    case _ =>
  }

  ghost predicate StaysAgreed(r: Runtime, p: Progress) {
    p.Going? ==> p.runtime.interfaces == r.interfaces && p.runtime.bridge.sinks == r.bridge.sinks
  }

  lemma OnBridgeKeepsSinks(r: Runtime, e: Event)
    requires Sound(r.bridge) && !e.InterfaceConnected? && !e.InterfaceRemoved?
    ensures StaysAgreed(r, OnBridge(r, e))
  {
    EventKeepsSinks(r.bridge, e);
    OnBridgeKeepsPending(r, e);
    KeepsInterfaces(r, e);
  }

  lemma KeepsInterfaces(r: Runtime, e: Event)
    ensures OnBridge(r, e).Going? ==> OnBridge(r, e).runtime.interfaces == r.interfaces
  {
  }

  lemma RequestKeepsSinks(r: Runtime, target: int, now: nat)
    requires Sound(r.bridge)
    ensures StaysAgreed(r, RequestSwitch(r, target, now))
  {
    OnBridgeKeepsSinks(r.(pending := None), SwitchTarget(target));
  }

  lemma OpenKeepsSinks(r: Runtime, host: int, now: nat)
    requires Sound(r.bridge)
    ensures StaysAgreed(r, OpenWindow(r, host, now))
  {
    OnBridgeKeepsSinks(r.(window := Some(Window(host, Later(now, PAIRING_MODE_TIMEOUT)))), Event.EnterPairingMode(host));
  }

  lemma CloseKeepsSinks(r: Runtime)
    requires Sound(r.bridge)
    ensures StaysAgreed(r, CloseWindow(r))
  {
    if r.window.Some? {
      OnBridgeKeepsSinks(r.(window := None), PairingModeExpired(r.window.value.host));
    }
  }

  lemma FrameKeepsSinks(r: Runtime, e: Event, shortcut: bool)
    requires Sound(r.bridge) && !e.InterfaceConnected? && !e.InterfaceRemoved?
    ensures StaysAgreed(r, OnEventInput(r, e, shortcut))
  {
    OnBridgeKeepsSinks(r, e);
    OnBridgeKeepsPending(r, e);
    var a := OnBridge(r, e);
    StepSound(r.bridge, e);
    if a.Going? && NextConnectedTarget(a.runtime).Some? {
      RequestKeepsSinks(a.runtime, NextConnectedTarget(a.runtime).value, a.runtime.now);
    }
  }

  lemma ButtonKeepsSinks(r: Runtime, intent: Intent, now: nat)
    requires Sound(r.bridge)
    ensures StaysAgreed(r, OnButton(r, intent, now))
  {
    match ConfiguredIntent(r.settings, intent)
    case None =>
    case Some(NextConnected) =>
      if NextConnectedTarget(r).Some? { RequestKeepsSinks(r, NextConnectedTarget(r).value, now); }
    case Some(EnterPairingMode) =>
      var host := PairingCandidate(r.bridge.hosts);
      if host.Some? { OpenKeepsSinks(r, host.value, now); }
    case Some(ClearActiveHost) =>
      if r.bridge.hosts.active.Some? {
        OnBridgeKeepsSinks(Unwindowed(r, r.bridge.hosts.active.value), ClearHost(r.bridge.hosts.active.value));
      }
  }

  lemma TickKeepsSinks(r: Runtime, now: nat)
    requires Sound(r.bridge)
    ensures StaysAgreed(r, OnTick(r, now))
  {
    var r0 := r.(now := now);
    var a := FireSwitch(r0, now);
    if SwitchDue(r, now) {
      var target := r.pending.value.target;
      OnBridgeKeepsSinks(r0.(pending := None), SwitchTarget(target));
      OnBridgeKeepsPending(r0.(pending := None), SwitchTarget(target));
      StepSound(r.bridge, SwitchTarget(target));
    }
    if a.Going? {
      CloseKeepsSinks(a.runtime);
    }
  }

  lemma ManagedKeepsSinks(r: Runtime, i: RuntimeInput)
    requires Sound(r.bridge)
    ensures StaysAgreed(r, Managed(r, i))
  {
    match i
    case SelectHost(h, now) => RequestKeepsSinks(r, h, now);
    case StartPairing(h, now) => OpenKeepsSinks(r, h, now);
    case CancelPairing => CloseKeepsSinks(r);
    case ForgetHost(h) => OnBridgeKeepsSinks(r, ClearHost(h));
    case _ =>
  }

  // ------------------------------------------------------------- interfaces

  lemma {:induction false} InterfaceIndexFinds(xs: seq<Interface>, interface: int, from: nat)
    requires from <= |xs|
    ensures var i := InterfaceIndex(xs, interface, from); i >= 0 ==> xs[i].interface == interface
    decreases |xs| - from
  {
    if from < |xs| {
      InterfaceIndexFinds(xs, interface, from + 1);
    }
  }

  /** Registering an interface keeps what is known of the others. */
  lemma RegisterKeepsLeds(xs: seq<Interface>, x: Interface, j: int)
    ensures var at := InterfaceIndex(xs, x.interface);
      var xs' := if at >= 0 then xs[at := x] else xs + [x];
      (j != x.interface && HasLeds(xs, j) ==> HasLeds(xs', j)) && (x.hasLeds ==> HasLeds(xs', x.interface))
  {
    var at := InterfaceIndex(xs, x.interface);
    var xs' := if at >= 0 then xs[at := x] else xs + [x];
    InterfaceIndexFinds(xs, x.interface, 0);
    assert xs'[if at >= 0 then at else |xs|] == x;
    if j != x.interface && HasLeds(xs, j) {
      var i :| 0 <= i < |xs| && xs[i].interface == j && xs[i].hasLeds;
      assert xs'[i] == xs[i];
    }
  }

  /** The bridge's sinks after a registration. */
  lemma RegisteredSinks(s: State, sink: Sink)
    requires OneEach(s.sinks) && Registered(s, sink).Done?
    ensures var sinks := Registered(s, sink).effect.state.sinks;
      && OneEach(sinks)
      && forall i :: 0 <= i < |sinks| ==> sinks[i] == sink || (sinks[i] in s.sinks && sinks[i].interface != sink.interface)
  {
    var at := SinkIndex(s.sinks, sink.interface);
    SinkIndexFinds(s.sinks, sink.interface, 0);
    SinkIndexMisses(s.sinks, sink.interface, 0);
    var sinks := Registered(s, sink).effect.state.sinks;
    forall i | 0 <= i < |sinks| && sinks[i] != sink ensures sinks[i] in s.sinks && sinks[i].interface != sink.interface {
      assert i < |s.sinks| && sinks[i] == s.sinks[i] && i != at;
    }
  }

  lemma RegisterAgrees(r: Runtime, x: Interface)
    requires Agree(r) && Register(r, x).Going?
    ensures Agree(Register(r, x).runtime)
  {
    var at := InterfaceIndex(r.interfaces, x.interface);
    var xs := if at >= 0 then r.interfaces[at := x] else r.interfaces + [x];
    var e := InterfaceConnected(x.interface, x.device, x.hasLeds);
    OnBridgeKeepsPending(r.(interfaces := xs), e);
    KeepsInterfaces(r.(interfaces := xs), e);
    RegisteredSinks(r.bridge, Sink(x.interface, x.device, x.hasLeds));
    var sinks := Step(r.bridge, e).state.sinks;
    forall i | 0 <= i < |sinks| && sinks[i].showsLeds ensures HasLeds(xs, sinks[i].interface) {
      RegisterKeepsLeds(r.interfaces, x, sinks[i].interface);
    }
  }

  lemma UnregisteredIsGone(sinks: seq<Sink>, interface: int)
    requires OneEach(sinks)
    ensures var sinks' := Unregistered(sinks, interface);
      && OneEach(sinks')
      && forall i :: 0 <= i < |sinks'| ==> sinks'[i].interface != interface && sinks'[i] in sinks
  {
    SinkIndexFinds(sinks, interface, 0);
    SinkIndexMisses(sinks, interface, 0);
  }

  lemma WithoutKeepsLeds(xs: seq<Interface>, at: nat, j: int)
    requires at < |xs| && xs[at].interface != j && HasLeds(xs, j)
    ensures HasLeds(xs[..at] + xs[at + 1..], j)
  {
    var i :| 0 <= i < |xs| && xs[i].interface == j && xs[i].hasLeds;
    var front, rest := xs[..at], xs[at + 1..];
    if i < at {
      assert front[i] == xs[i];
      assert (front + rest)[i] == xs[i];
    } else {
      assert rest[i - at - 1] == xs[i];
      assert (front + rest)[i - 1] == xs[i];
    }
  }

  lemma DroppedKeepsLeds(r: Runtime, interface: int, j: int)
    requires j != interface && HasLeds(r.interfaces, j)
    ensures HasLeds(Dropped(r, interface).interfaces, j)
  {
    var at := InterfaceIndex(r.interfaces, interface);
    InterfaceIndexFinds(r.interfaces, interface, 0);
    if at >= 0 {
      WithoutKeepsLeds(r.interfaces, at, j);
    }
  }

  lemma UnregisterAgrees(r: Runtime, interface: int, aggregate: Input, idle: bool)
    requires Agree(r) && Unregister(r, interface, aggregate, idle).Going?
    ensures Agree(Unregister(r, interface, aggregate, idle).runtime)
  {
    var r0 := Dropped(r, interface);
    OnBridgeKeepsPending(r0, InterfaceRemoved(interface, aggregate));
    KeepsInterfaces(r0, InterfaceRemoved(interface, aggregate));
    UnregisteredIsGone(r.bridge.sinks, interface);
    RemovalLeaves(r.bridge, interface, aggregate);
    var sinks := Unregistered(r.bridge.sinks, interface);
    forall i | 0 <= i < |sinks| && sinks[i].showsLeds ensures HasLeds(r0.interfaces, sinks[i].interface) {
      var k :| 0 <= k < |r.bridge.sinks| && r.bridge.sinks[k] == sinks[i];
      DroppedKeepsLeds(r, interface, sinks[i].interface);
    }
  }

  lemma RemovalLeaves(s: State, interface: int, aggregate: Input)
    ensures Step(s, InterfaceRemoved(interface, aggregate)).state.sinks == Unregistered(s.sinks, interface)
  {
  }

  // -------------------------------------------------------------------- runs

  /** Interfaces come and go only through the runtime's own two inputs. */
  predicate Registers(i: RuntimeInput) {
    i.OnEvent? ==> !i.event.InterfaceConnected? && !i.event.InterfaceRemoved?
  }

  lemma CoreAgrees(r: Runtime, i: RuntimeInput)
    requires Sound(r.bridge) && Agree(r) && Registers(i) && Core(r, i).Going?
    ensures Agree(Core(r, i).runtime)
  {
    match i
    case OnEvent(e, shortcut) => FrameKeepsSinks(r, e, shortcut);
    case Button(intent, now) => ButtonKeepsSinks(r, intent, now);
    case Tick(now) => TickKeepsSinks(r, now);
    case InterfaceUp(interface, device, hasLeds) => RegisterAgrees(r, Interface(interface, device, hasLeds));
    case InterfaceDown(interface, aggregate, idle) => UnregisterAgrees(r, interface, aggregate, idle);
    case _ => ManagedKeepsSinks(r, i);
  }

  lemma {:induction false} LedsAreKnown(xs: seq<RuntimeInput>)
    requires forall i :: 0 <= i < |xs| ==> Registers(xs[i])
    ensures Sound(RunInputs(xs).bridge) && Agree(RunInputs(xs)) && LedsKnown(RunInputs(xs))
    decreases |xs|
  {
    if xs == [] {
      HostHistory.NothingAtFirst(None);
    } else {
      var r, i := RunInputs(xs[..|xs| - 1]), xs[|xs| - 1];
      LedsAreKnown(xs[..|xs| - 1]);
      AdvanceStaysSound(r, i);
      if Core(r, i).Going? {
        CoreAgrees(r, i);
      }
    }
  }

  /** So in every run a switch is refused only for a number that is not valid or for
      storage that cannot be written. */
  lemma {:induction false} SwitchRefusedInRun(xs: seq<RuntimeInput>, target: int)
    requires forall i :: 0 <= i < |xs| ==> Registers(xs[i])
    ensures var r := RunInputs(xs);
      OnBridge(r, SwitchTarget(target)).Refused? <==>
        r.bridge.hosts.active != Some(target) && !(1 <= target <= 4 && r.writable)
  {
    LedsAreKnown(xs);
    SwitchRefused(RunInputs(xs), target);
  }

  // ----------------------------------------------------- the interface list

  ghost predicate OnePerInterface(xs: seq<Interface>) {
    forall i, j :: 0 <= i < j < |xs| ==> xs[i].interface != xs[j].interface
  }

  /** An interface that comes is in the list, in the place of an older one of its
      number, and the others stay. */
  lemma RegisterLists(r: Runtime, x: Interface)
    requires OnePerInterface(r.interfaces) && Register(r, x).Going?
    ensures var xs := Register(r, x).runtime.interfaces;
      OnePerInterface(xs) && forall y :: y in xs <==> y == x || (y in r.interfaces && y.interface != x.interface)
  {
    var at := InterfaceIndex(r.interfaces, x.interface);
    InterfaceIndexFinds(r.interfaces, x.interface, 0);
    var xs := if at >= 0 then r.interfaces[at := x] else r.interfaces + [x];
    KeepsInterfaces(r.(interfaces := xs), InterfaceConnected(x.interface, x.device, x.hasLeds));
    if at >= 0 {
      ReplacedMembers(r.interfaces, at, x);
    } else {
      NoneListed(r.interfaces, x.interface);
      AddedMembers(r.interfaces, x);
    }
  }

  lemma AddedMembers(xs: seq<Interface>, x: Interface)
    requires OnePerInterface(xs) && forall y :: y in xs ==> y.interface != x.interface
    ensures OnePerInterface(xs + [x])
    ensures forall y :: y in xs + [x] <==> y == x || (y in xs && y.interface != x.interface)
  {
    forall i, j | 0 <= i < j < |xs + [x]| ensures (xs + [x])[i].interface != (xs + [x])[j].interface {
      assert (xs + [x])[i] == xs[i] && xs[i] in xs;
    }
  }

  lemma ReplacedMembers(xs: seq<Interface>, at: nat, x: Interface)
    requires OnePerInterface(xs) && at < |xs| && xs[at].interface == x.interface
    ensures OnePerInterface(xs[at := x])
    ensures forall y :: y in xs[at := x] <==> y == x || (y in xs && y.interface != x.interface)
  {
    var xs' := xs[at := x];
    assert xs'[at] == x;
    forall y | y in xs && y.interface != x.interface ensures y in xs' {
      var i :| 0 <= i < |xs| && xs[i] == y;
      assert xs'[i] == y;
    }
    forall y | y in xs' && y != x ensures y in xs && y.interface != x.interface {
      var i :| 0 <= i < |xs'| && xs'[i] == y;
      assert xs[i] == y;
    }
  }

  /** An interface that goes is gone from the list, and the others stay. */
  lemma DroppedLists(r: Runtime, interface: int)
    requires OnePerInterface(r.interfaces)
    ensures var xs := Dropped(r, interface).interfaces;
      OnePerInterface(xs) && forall y :: y in xs <==> y in r.interfaces && y.interface != interface
  {
    DroppedFrom(r.interfaces, interface);
    assert Dropped(r, interface).interfaces == Without(r.interfaces, interface);
  }

  /** The list without the first entry of the interface. */
  function Without(xs: seq<Interface>, interface: int): seq<Interface> {
    var at := InterfaceIndex(xs, interface);
    if at < 0 then xs else xs[..at] + xs[at + 1..]
  }

  lemma DroppedFrom(xs: seq<Interface>, interface: int)
    requires OnePerInterface(xs)
    ensures OnePerInterface(Without(xs, interface))
    ensures forall y :: y in Without(xs, interface) <==> y in xs && y.interface != interface
  {
    var at := InterfaceIndex(xs, interface);
    InterfaceIndexFinds(xs, interface, 0);
    if at >= 0 {
      WithoutMembers(xs, at, interface, Without(xs, interface));
    } else {
      NoneListed(xs, interface);
    }
  }

  lemma NoneListed(xs: seq<Interface>, interface: int)
    requires InterfaceIndex(xs, interface) < 0
    ensures forall y :: y in xs ==> y.interface != interface
  {
    IndexFinds(xs, interface, 0);
  }

  /** `rest` is the list without its entry at `at`. */
  ghost predicate Lacks(xs: seq<Interface>, at: nat, rest: seq<Interface>) {
    && at < |xs| && |rest| == |xs| - 1
    && forall i {:trigger rest[i]} :: 0 <= i < |rest| ==> rest[i] == if i < at then xs[i] else xs[i + 1]
  }

  lemma WithoutMembers(xs: seq<Interface>, at: nat, interface: int, rest: seq<Interface>)
    requires OnePerInterface(xs) && at < |xs| && xs[at].interface == interface && rest == xs[..at] + xs[at + 1..]
    ensures OnePerInterface(rest)
    ensures forall y :: y in rest <==> y in xs && y.interface != interface
  {
    assert Lacks(xs, at, rest);
    LacksMembers(xs, at, rest);
  }

  lemma LacksMembers(xs: seq<Interface>, at: nat, rest: seq<Interface>)
    requires OnePerInterface(xs) && Lacks(xs, at, rest)
    ensures OnePerInterface(rest)
    ensures forall y :: y in rest <==> y in xs && y.interface != xs[at].interface
  {
    forall y | y in xs && y.interface != xs[at].interface ensures y in rest {
      var i :| 0 <= i < |xs| && xs[i] == y;
      assert rest[if i < at then i else i - 1] == y;
    }
    forall y | y in rest ensures y in xs && y.interface != xs[at].interface {
      var i :| 0 <= i < |rest| && rest[i] == y;
      assert y == xs[if i < at then i else i + 1];
    }
  }

  /** Over every run no interface is listed twice, and one that is removed is gone while
      the others stay. */
  lemma {:induction false} InterfacesComeAndGo(xs: seq<RuntimeInput>, interface: int, aggregate: Input, idle: bool)
    requires forall i :: 0 <= i < |xs| ==> Registers(xs[i])
    ensures OnePerInterface(RunInputs(xs).interfaces)
    ensures var p := Core(RunInputs(xs), InterfaceDown(interface, aggregate, idle));
      p.Going? ==>
        forall y :: y in p.runtime.interfaces <==> y in RunInputs(xs).interfaces && y.interface != interface
    decreases |xs|
  {
    if xs != [] {
      var r, i := RunInputs(xs[..|xs| - 1]), xs[|xs| - 1];
      InterfacesComeAndGo(xs[..|xs| - 1], interface, aggregate, idle);
      LedsAreKnown(xs[..|xs| - 1]);
      if Core(r, i).Going? {
        CoreLists(r, i);
      }
    }
    DroppedLists(RunInputs(xs), interface);
    KeepsInterfaces(Dropped(RunInputs(xs), interface), InterfaceRemoved(interface, aggregate));
  }

  lemma CoreLists(r: Runtime, i: RuntimeInput)
    requires Sound(r.bridge) && OnePerInterface(r.interfaces) && Registers(i) && Core(r, i).Going?
    ensures OnePerInterface(Core(r, i).runtime.interfaces)
  {
    match i
    case OnEvent(e, shortcut) => FrameKeepsSinks(r, e, shortcut);
    case Button(intent, now) => ButtonKeepsSinks(r, intent, now);
    case Tick(now) => TickKeepsSinks(r, now);
    case InterfaceUp(interface, device, hasLeds) => RegisterLists(r, Interface(interface, device, hasLeds));
    case InterfaceDown(interface, aggregate, idle) =>
      DroppedLists(r, interface);
      KeepsInterfaces(Dropped(r, interface), InterfaceRemoved(interface, aggregate));
    case _ => ManagedKeepsSinks(r, i);
  }
}
