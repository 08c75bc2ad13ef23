/** The runtime layer over the bridge: pairing windows, delayed target switches
    and the commands that one input produces (standard build).

  Every action of the bridge becomes one command. An input that fails leaves the
  runtime as it was and produces no commands.
 */
module Runtime {
  import opened Options
  import opened Bits
  import opened Clock
  import opened StorageImage
  import opened HostState
  import opened HostMachine
  import opened Bridge

  const COMMANDS_MAX: nat := 17
  const PAIRING_MODE_TIMEOUT: nat := 60_000
  const SUSPEND_DELAY: nat := 3_000

  datatype Window = Window(host: int, deadline: nat)
  datatype Pending = Pending(target: int, deadline: nat)
  datatype Settings = Settings(bootTarget: nat, restoreLast: bool, delay: nat, short: nat, long: nat, veryLong: nat)
  datatype Interface = Interface(interface: int, device: int, hasLeds: bool)

  /** The power state of the USB input bus. */
  datatype Power = Power(suspended: bool, deadline: Option<nat>)

  datatype Runtime = Runtime(
    bridge: State,
    window: Option<Window>,
    pending: Option<Pending>,
    now: nat,
    settings: Settings,
    interfaces: seq<Interface>,
    writable: bool,
    power: Power)

  datatype Command =
    | Act(action: Action)
    | PersistNow
    | SetBusSuspended(suspended: bool)
    | SetLogLevel
    | Respond

  datatype Intent = NextConnected | EnterPairingMode | ClearActiveHost

  datatype RuntimeInput =
    | OnEvent(event: Event, shortcut: bool)
    | Button(intent: Intent, now: nat)
    | Tick(now: nat)
    | InterfaceUp(interface: int, device: int, hasLeds: bool)
    | InterfaceDown(interface: int, aggregate: Input, profileIdle: bool)
    | Metadata(isNew: bool)
    | NameFound(host: int, name: FixedName)
    | HealthChanged(writable: bool)
    | SelectHost(host: int, now: nat)
    | StartPairing(host: int, now: nat)
    | CancelPairing
    | ForgetHost(host: int)
    | RestoreStorage(stored: seq<StoredHost>, lastActive: Option<int>, settings: Settings)
    | QuiescePrepare
    | QuiesceDrop(host: int)

  /** A runtime with commands, or the input is refused. */
  datatype Progress = Going(runtime: Runtime, commands: seq<Command>) | Refused

  // ---------------------------------------------------------------- dispatch

  function Acts(actions: seq<Action>): (r: seq<Command>)
    ensures |r| == |actions|
    ensures forall i :: 0 <= i < |r| ==> r[i] == Act(actions[i])
  {
    seq(|actions|, i requires 0 <= i < |actions| => Act(actions[i]))
  }

  predicate HasLeds(interfaces: seq<Interface>, interface: int) {
    exists i :: 0 <= i < |interfaces| && interfaces[i].interface == interface && interfaces[i].hasLeds
  }

  /** Whether the action becomes a command. */
  predicate Dispatchable(r: Runtime, a: Action) {
    && (a.PersistProfiles? ==> r.writable)
    && (a.SetLeds? ==> HasLeds(r.interfaces, a.interface))
  }

  predicate EndsWindow(a: Action) {
    a.StatusChanged? && a.pairable.None?
  }

  /** What the runtime itself learns from an event before the bridge sees it. */
  function Observed(r: Runtime, e: Event): Runtime {
    match e
    case EnterPairingMode(h) =>
      if r.window.Some? && r.window.value.host == h then r
      else r.(window := Some(Window(h, if r.window.Some? then r.window.value.deadline else PAIRING_MODE_TIMEOUT)))
    case PairingModeExpired(h) => Unwindowed(r, h)
    case ClearHost(h) => Unwindowed(r, h)
    case HostSecurityChanged(h, _, bonded, _) => if bonded then Unwindowed(r, h) else r
    case _ => r
  }

  function Unwindowed(r: Runtime, h: int): Runtime {
    if r.window.Some? && r.window.value.host == h then r.(window := None) else r
  }

  function Dispatch(r: Runtime, actions: seq<Action>): Progress {
    if exists i :: 0 <= i < |actions| && !Dispatchable(r, actions[i]) then Refused
    else
      var ends := exists i :: 0 <= i < |actions| && EndsWindow(actions[i]);
      Going(if ends then r.(window := None) else r, Acts(actions))
  }

  function OnBridge(r: Runtime, e: Event): Progress {
    var reply := Handle(r.bridge, e);
    if reply.Failed? then Refused
    else Dispatch(Observed(r, e).(bridge := reply.effect.state), reply.effect.actions)
  }

  /** Two parts of one input, one after the other. */
  function Join(a: Progress, commands: seq<Command>): Progress {
    if a.Refused? then Refused else Going(a.runtime, commands + a.commands)
  }

  function Extended(a: Progress, more: seq<Command>): Progress {
    if a.Refused? then Refused else Going(a.runtime, a.commands + more)
  }

  // ---------------------------------------------------------------- switches

  function RequestSwitch(r: Runtime, target: int, now: nat): Progress {
    if r.settings.delay == 0 then OnBridge(r.(pending := None), SwitchTarget(target))
    else Going(r.(pending := Some(Pending(target, Later(now, r.settings.delay)))), [])
  }

  function NextConnectedTarget(r: Runtime): Option<int> {
    NextTarget(r.bridge.hosts, r.bridge.hosts.active, AnyConnected)
  }

  /** An event; a frame that completed the switch shortcut also asks for the
      next computer, and then the frame's own commands are cleared away. */
  function OnEventInput(r: Runtime, e: Event, shortcut: bool): Progress {
    var a := OnBridge(r, e);
    if a.Refused? || !(e.InputFrame? && shortcut) then a
    else
      var target := NextConnectedTarget(a.runtime);
      if target.None? then a else RequestSwitch(a.runtime, target.value, a.runtime.now)
  }

  function ConfiguredIntent(s: Settings, intent: Intent): Option<Intent> {
    var n := match intent
      case NextConnected => s.short
      case EnterPairingMode => s.long
      case ClearActiveHost => s.veryLong;
    if n == 1 then Some(NextConnected)
    else if n == 2 then Some(Intent.EnterPairingMode)
    else if n == 3 then Some(ClearActiveHost)
    else None
  }

  function OpenWindow(r: Runtime, host: int, now: nat): Progress {
    OnBridge(r.(window := Some(Window(host, Later(now, PAIRING_MODE_TIMEOUT)))), Event.EnterPairingMode(host))
  }

  function OnButton(r: Runtime, intent: Intent, now: nat): Progress {
    match ConfiguredIntent(r.settings, intent)
    case None => Going(r, [])
    case Some(NextConnected) =>
      var target := NextConnectedTarget(r);
      if target.None? then Going(r, []) else RequestSwitch(r, target.value, now)
    case Some(EnterPairingMode) =>
      var host := PairingCandidate(r.bridge.hosts);
      if host.None? then Going(r, []) else OpenWindow(r, host.value, now)
    case Some(ClearActiveHost) =>
      if r.bridge.hosts.active.None? then Going(r, [])
      else OnBridge(Unwindowed(r, r.bridge.hosts.active.value), ClearHost(r.bridge.hosts.active.value))
  }

  // -------------------------------------------------------------------- ticks

  predicate SwitchDue(r: Runtime, now: nat) {
    r.pending.Some? && now >= r.pending.value.deadline
  }

  predicate WindowDue(r: Runtime, now: nat) {
    r.window.Some? && now >= r.window.value.deadline
  }

  function FireSwitch(r: Runtime, now: nat): Progress {
    if SwitchDue(r, now) then OnBridge(r.(pending := None), SwitchTarget(r.pending.value.target)) else Going(r, [])
  }

  function CloseWindow(r: Runtime): Progress {
    if r.window.None? then Going(r, []) else OnBridge(r.(window := None), PairingModeExpired(r.window.value.host))
  }

  function ExpireWindow(r: Runtime, now: nat): Progress {
    if WindowDue(r, now) then CloseWindow(r) else Going(r, [])
  }

  function OnTick(r: Runtime, now: nat): Progress {
    var a := FireSwitch(r.(now := now), now);
    if a.Refused? then Refused else Join(ExpireWindow(a.runtime, now), a.commands)
  }

  // ----------------------------------------------------------- USB interfaces

  function InterfaceIndex(xs: seq<Interface>, interface: int, from: nat := 0): (i: int)
    requires from <= |xs|
    ensures -1 <= i < |xs|
    decreases |xs| - from
  {
    if from == |xs| then -1
    else if xs[from].interface == interface then from
    else InterfaceIndex(xs, interface, from + 1)
  }

  function Register(r: Runtime, x: Interface): Progress {
    var i := InterfaceIndex(r.interfaces, x.interface);
    if i < 0 && |r.interfaces| >= SINKS_MAX then Refused
    else
      var xs := if i >= 0 then r.interfaces[i := x] else r.interfaces + [x];
      OnBridge(r.(interfaces := xs), InterfaceConnected(x.interface, x.device, x.hasLeds))
  }

  function Dropped(r: Runtime, interface: int): Runtime {
    var i := InterfaceIndex(r.interfaces, interface);
    if i < 0 then r else r.(interfaces := r.interfaces[..i] + r.interfaces[i + 1..])
  }

  function Unregister(r: Runtime, interface: int, aggregate: Input, profileIdle: bool): Progress {
    Extended(OnBridge(Dropped(r, interface), InterfaceRemoved(interface, aggregate)),
             if InterfaceIndex(r.interfaces, interface) >= 0 && profileIdle && r.writable then [PersistNow] else [])
  }

  // -------------------------------------------------------------- management

  function Managed(r: Runtime, m: RuntimeInput): Progress {
    match m
    case SelectHost(h, now) =>
      if !r.writable || !ValidId(h) || Lookup(r.bridge.hosts, h).None? then Going(r, [])
      else RequestSwitch(r, h, now)
    case StartPairing(h, now) =>
      if !r.writable || !ValidId(h) || HasBond(r.bridge.hosts, h) then Going(r, []) else OpenWindow(r, h, now)
    case CancelPairing => CloseWindow(r)
    case ForgetHost(h) =>
      if !r.writable || !ValidId(h) || Lookup(r.bridge.hosts, h).None? then Going(r, []) else OnBridge(r, ClearHost(h))
    case _ => Going(r, [])
  }

  // ------------------------------------------------------------------ restore

  predicate Stores(stored: seq<StoredHost>, id: int) {
    exists i :: 0 <= i < |stored| && stored[i].hostId == id
  }

  /** The target that is active after boot. */
  function BootTarget(settings: Settings, stored: seq<StoredHost>, lastActive: Option<int>): Option<int> {
    if settings.bootTarget != 0 then (if Stores(stored, settings.bootTarget) then Some(settings.bootTarget) else None)
    else if settings.restoreLast then lastActive
    else None
  }

  function OnRestore(r: Runtime, stored: seq<StoredHost>, lastActive: Option<int>, settings: Settings): Progress {
    if exists i :: 0 <= i < |stored| && !ValidId(stored[i].hostId) then Refused
    else Going(r.(bridge := Restored(r.bridge, stored, BootTarget(settings, stored, lastActive)),
                  settings := settings, window := None), [SetLogLevel])
  }

  // ----------------------------------------------------------------- the core

  function Core(r: Runtime, i: RuntimeInput): Progress {
    match i
    case OnEvent(e, shortcut) => OnEventInput(r, e, shortcut)
    case Button(intent, now) => OnButton(r, intent, now)
    case Tick(now) => OnTick(r, now)
    case InterfaceUp(interface, device, hasLeds) => Register(r, Interface(interface, device, hasLeds))
    case InterfaceDown(interface, aggregate, idle) => Unregister(r, interface, aggregate, idle)
    case Metadata(isNew) => Going(r, if isNew && r.writable then [PersistNow] else [])
    case NameFound(h, name) =>
      var t := Touch(r.bridge.hosts, h, Discover(name));
      if t.Err? then Refused else Going(r.(bridge := r.bridge.(hosts := t.value)), [])
    case HealthChanged(writable) => Going(r.(writable := writable), [])
    case RestoreStorage(stored, lastActive, settings) => OnRestore(r, stored, lastActive, settings)
    case QuiescePrepare => Going(r.(bridge := QuiescePrepared(r.bridge)), [])
    case QuiesceDrop(h) => Going(r.(bridge := Unlinked(r.bridge, h)), [])
    case _ => Extended(Managed(r, i), [Respond])
  }

  predicate ComputerConnected(hs: Hosts) {
    exists i :: 0 <= i < |hs.slots| && hs.slots[i].Some? && hs.slots[i].value.connected
  }

  /** The bus runs while nothing is plugged in or a computer is connected. */
  predicate BusShouldRun(r: Runtime) {
    |r.interfaces| == 0 || ComputerConnected(r.bridge.hosts)
  }

  function PowerAfter(p: Power, now: nat, shouldRun: bool): Power {
    if shouldRun then Power(false, None)
    else if p.suspended then p
    else
      var deadline := if p.deadline.Some? then p.deadline.value else Later(now, SUSPEND_DELAY);
      if now < deadline then Power(false, Some(deadline)) else Power(true, None)
  }

  function Reconciled(a: Progress): Progress {
    if a.Refused? then Refused
    else
      var p := PowerAfter(a.runtime.power, a.runtime.now, BusShouldRun(a.runtime));
      Going(a.runtime.(power := p),
            a.commands + if p.suspended != a.runtime.power.suspended then [SetBusSuspended(p.suspended)] else [])
  }

  /** The two calls before links go down on purpose bypass the input handling. */
  predicate Bypasses(i: RuntimeInput) {
    i.QuiescePrepare? || i.QuiesceDrop?
  }

  function Process(r: Runtime, i: RuntimeInput): Progress {
    if Bypasses(i) then Core(r, i) else Reconciled(Core(r, i))
  }

  /** One input: all or nothing. */
  function Advance(r: Runtime, i: RuntimeInput): Progress
    ensures Advance(r, i).Going?
  {
    var p := Process(r, i);
    if p.Refused? then Going(r, []) else p
  }

  const DEFAULT_SETTINGS := Settings(0, true, 20, 1, 2, 3)

  function Fresh(): Runtime {
    Runtime(Initial(), None, None, 0, DEFAULT_SETTINGS, [], true, Power(false, None))
  }
}
