/** The bridge: routes physical input to the active computer and hides what was
    held across a target switch until it is released.

  This is the standard build, with BLE computers only. The aggregated physical
  input of all devices comes with the events that change it.
 */
module Bridge {
  import opened Options
  import opened StorageImage
  import opened Keyboard
  import opened HostState
  import opened HostMachine

  const SINKS_MAX: nat := 8
  const ACTIONS_MAX: nat := 16

  /** Held input; also used for what is hidden and for what a computer was told. */
  datatype Input = Input(keyboard: Keys, buttons: set<nat>, consumer: Option<int>)

  const NEUTRAL := Input(NO_KEYS, {}, None)

  datatype Movement = Movement(x: int, y: int, wheel: int, pan: int)

  const NO_MOVEMENT := Movement(0, 0, 0, 0)

  datatype Report =
    | KeyboardReport(keys: Keys)
    | MouseReport(buttons: set<nat>, movement: Movement)
    | ConsumerReport(usage: Option<int>)

  datatype Reason = Plain | Edge | Release | SwitchRelease | RemovalRelease | SafetyRelease

  datatype Sink = Sink(interface: int, device: int, showsLeds: bool)

  datatype Action =
    | Notify(target: int, report: Report, reason: Reason)
    | SetLeds(interface: int, device: int, leds: int)
    | AllowPairing(host: int)
    | RejectPairing(host: int)
    | ClearBond(host: int, bond: Option<StoredBond>)
    | ActivateInput(host: int)
    | PersistProfiles
    | StatusChanged(active: Option<int>, pairable: Option<int>)

  datatype MouseFrame = MouseFrame(buttons: set<nat>, movement: Movement)

  datatype Event =
    | InputFrame(keyboard: Option<Keys>, mouse: Option<MouseFrame>, consumer: Option<Option<int>>)
    | VendorFrame
    | HostConnected(host: int)
    | HostDisconnected(host: int)
    | HostSecurityChanged(host: int, encrypted: bool, bonded: bool, bond: Option<StoredBond>)
    | CccdChanged(host: int, kind: ReportKind, enabled: bool)
    | InterfaceConnected(interface: int, device: int, showsLeds: bool)
    | HostLedsChanged(host: int, leds: int)
    | SetHostName(host: int, name: FixedName)
    | EnterPairingMode(host: int)
    | PairingModeExpired(host: int)
    | ClearHost(host: int)
    | SwitchTarget(host: int)
    | InterfaceRemoved(interface: int, aggregate: Input)
    | DeviceReset(aggregateIfKnown: Option<Input>)

  datatype State = State(input: Input, hidden: Input, sinks: seq<Sink>, hosts: Hosts, pairable: Option<int>)

  function Initial(): State {
    State(NEUTRAL, NEUTRAL, [], NoHosts(), None)
  }

  datatype Effect = Effect(state: State, actions: seq<Action>)

  datatype BridgeError = SinkCapacity | BadHost(error: HostError)

  datatype Reply = Done(effect: Effect) | Failed(error: BridgeError)

  ghost predicate Sound(s: State) {
    WellFormed(s.hosts) && |s.sinks| <= SINKS_MAX
  }

  // ------------------------------------------------------------ input frames

  /** The active target, if it takes reports of this kind now. */
  function ReadyTarget(s: State, k: ReportKind): Option<int> {
    if s.hosts.active.Some? && CanSend(s.hosts, s.hosts.active.value, k) then s.hosts.active else None
  }

  function NotifyReady(s: State, k: ReportKind, report: Report, reason: Reason): (r: seq<Action>)
    ensures |r| <= 1
  {
    var target := ReadyTarget(s, k);
    if target.Some? then [Notify(target.value, report, reason)] else []
  }

  /** Whether a key or modifier went up. */
  predicate KeyReleased(before: Keys, now: Keys) {
    (exists i :: 0 <= i < |before.keys| && before.keys[i] !in now.keys) || before.modifiers - now.modifiers != {}
  }

  function HiddenKeys(hidden: Keys, down: Keys): (r: Keys)
    ensures r.modifiers == hidden.modifiers * down.modifiers
    ensures forall k :: k in r.keys ==> k in down.keys
    ensures forall k :: k in hidden.keys && k in down.keys ==> k in r.keys
  {
    var still := StillHidden(hidden, down);
    still.(keys := HideAfter(still.keys, down.keys, 0, VISIBLE_MAX))
  }

  function KeyboardPart(s: State, now: Keys): Effect {
    var down := Snapshot(s.input.keyboard, now);
    var hidden := HiddenKeys(s.hidden.keyboard, down);
    var reason := if KeyReleased(s.input.keyboard, down) then Release else Plain;
    Effect(s.(input := s.input.(keyboard := down), hidden := s.hidden.(keyboard := hidden)),
           NotifyReady(s, KeyboardKind, KeyboardReport(Shown(down, hidden)), reason))
  }

  function MousePart(s: State, mouse: MouseFrame): Effect {
    var hidden := s.hidden.buttons * mouse.buttons;
    var reason := if s.input.buttons != mouse.buttons then Edge else Plain;
    Effect(s.(input := s.input.(buttons := mouse.buttons), hidden := s.hidden.(buttons := hidden)),
           NotifyReady(s, MouseKind, MouseReport(mouse.buttons - hidden, mouse.movement), reason))
  }

  function StillHiddenUsage(hidden: Option<int>, now: Option<int>): Option<int> {
    if now != hidden then None else hidden
  }

  function VisibleUsage(now: Option<int>, hidden: Option<int>): Option<int> {
    if now == hidden then None else now
  }

  function ConsumerPart(s: State, now: Option<int>): Effect {
    var hidden := StillHiddenUsage(s.hidden.consumer, now);
    var reason := if s.input.consumer.Some? && now.None? then Release else Plain;
    Effect(s.(input := s.input.(consumer := now), hidden := s.hidden.(consumer := hidden)),
           NotifyReady(s, ConsumerKind, ConsumerReport(VisibleUsage(now, hidden)), reason))
  }

  function Frame(s: State, keyboard: Option<Keys>, mouse: Option<MouseFrame>, consumer: Option<Option<int>>): Effect {
    var a := if keyboard.Some? then KeyboardPart(s, keyboard.value) else Effect(s, []);
    var b := if mouse.Some? then MousePart(a.state, mouse.value) else Effect(a.state, []);
    var c := if consumer.Some? then ConsumerPart(b.state, consumer.value) else Effect(b.state, []);
    Effect(c.state, a.actions + b.actions + c.actions)
  }

  // --------------------------------------------------------------- switching

  function NotifyIfReady(hosts: Hosts, host: int, k: ReportKind, report: Report, reason: Reason): (r: seq<Action>)
    ensures |r| <= 1
  {
    if CanSend(hosts, host, k) then [Notify(host, report, reason)] else []
  }

  function ReleaseReports(hosts: Hosts, host: int, reason: Reason): (r: seq<Action>)
    ensures |r| <= 3
  {
    NotifyIfReady(hosts, host, KeyboardKind, KeyboardReport(NO_KEYS), reason)
    + NotifyIfReady(hosts, host, MouseKind, MouseReport({}, NO_MOVEMENT), reason)
    + NotifyIfReady(hosts, host, ConsumerKind, ConsumerReport(None), reason)
  }

  function LedActions(sinks: seq<Sink>, leds: int): (r: seq<Action>)
    ensures |r| <= |sinks|
    ensures forall i :: 0 <= i < |r| ==> r[i].SetLeds?
  {
    if sinks == [] then []
    else (if sinks[0].showsLeds then [SetLeds(sinks[0].interface, sinks[0].device, leds)] else [])
         + LedActions(sinks[1..], leds)
  }

  function ActiveLeds(s: State): (r: seq<Action>)
    ensures |r| <= |s.sinks|
    ensures forall i :: 0 <= i < |r| ==> r[i].SetLeds?
  {
    if s.hosts.active.None? then []
    else
      var h := Lookup(s.hosts, s.hosts.active.value);
      LedActions(s.sinks, if h.Some? && h.value.leds.Some? then h.value.leds.value else 0)
  }

  function Status(s: State): Action {
    StatusChanged(s.hosts.active, s.pairable)
  }

  function WithStatus(e: Effect): Effect {
    Effect(e.state, e.actions + [Status(e.state)])
  }

  function ReleasesFor(s: State, release: Option<Reason>): (r: seq<Action>)
    ensures |r| <= 3
  {
    if s.hosts.active.Some? && release.Some? then ReleaseReports(s.hosts, s.hosts.active.value, release.value) else []
  }

  /** Makes `target` active: the old one is released if a reason is given, and
      everything held is hidden from the new one. */
  function Transition(s: State, target: int, release: Option<Reason>): Reply {
    if s.hosts.active == Some(target) then Done(Effect(s, []))
    else
      var a := Activate(s.hosts, target);
      if a.Err? then Failed(BadHost(a.error))
      else
        var s' := s.(hidden := s.input, hosts := a.value);
        Done(Effect(s', ReleasesFor(s, release) + ([ActivateInput(target)] + ActiveLeds(s') + [PersistProfiles])))
  }

  function TransitionWithStatus(s: State, target: int, release: Option<Reason>): Reply {
    var t := Transition(s, target, release);
    if t.Failed? then t else Done(WithStatus(t.effect))
  }

  // ------------------------------------------------------------ host events

  /** A change of a host's entry, which is persisted if need be. */
  function Changing(s: State, host: int, c: HostChange): Reply {
    var t := Touch(s.hosts, host, c);
    if t.Err? then Failed(BadHost(t.error))
    else
      var s' := s.(hosts := t.value);
      Done(WithStatus(Effect(s', if Persists(HostOrNew(s.hosts, host), c) then [PersistProfiles] else [])))
  }

  function Secured(s: State, host: int, encrypted: bool, bonded: bool, bond: Option<StoredBond>): Reply {
    var c := Secure(encrypted, bonded, bond);
    var t := Touch(s.hosts, host, c);
    if t.Err? then Failed(BadHost(t.error))
    else
      var ends := bonded && s.pairable == Some(host);
      var s' := s.(hosts := t.value, pairable := if ends then None else s.pairable);
      var persist := if Persists(HostOrNew(s.hosts, host), c) then [PersistProfiles] else [];
      Done(WithStatus(Effect(s', persist + if ends then [RejectPairing(host)] else [])))
  }

  function Unlinked(s: State, host: int): State {
    var t := Touch(s.hosts, host, Disconnect);
    if t.Err? then s else s.(hosts := t.value)
  }

  /** The ready computer that takes over when the active one goes away. */
  function Fallback(s: State, host: int): Option<int> {
    if s.hosts.active == Some(host) && CanSend(s.hosts, host, KeyboardKind)
    then NextTarget(Unlinked(s, host).hosts, Some(host), Able(KeyboardKind))
    else None
  }

  function Disconnected(s: State, host: int): Reply {
    var s' := Unlinked(s, host);
    var next := Fallback(s, host);
    if next.Some? then TransitionWithStatus(s', next.value, None) else Done(WithStatus(Effect(s', [])))
  }

  function LedsChanged(s: State, host: int, leds: int): Reply {
    var t := Touch(s.hosts, host, Leds(leds));
    if t.Err? then Failed(BadHost(t.error))
    else Done(Effect(s.(hosts := t.value), if s.hosts.active == Some(host) then LedActions(s.sinks, leds) else []))
  }

  // ------------------------------------------------------- pairing and clear

  function EnterPairing(s: State, host: int): Effect {
    var ends := if s.pairable.Some? && s.pairable.value != host then [RejectPairing(s.pairable.value)] else [];
    WithStatus(Effect(s.(pairable := Some(host)), ends + [AllowPairing(host)]))
  }

  function ExpirePairing(s: State, host: int): Effect {
    if s.pairable == Some(host) then WithStatus(Effect(s.(pairable := None), [RejectPairing(host)])) else Effect(s, [])
  }

  function ClearActions(s: State, host: int): (r: seq<Action>)
    ensures |r| <= |s.sinks| + 3
    ensures forall i :: 0 <= i < |r| ==> !r[i].Notify? && !r[i].AllowPairing? && !r[i].RejectPairing?
  {
    var h := Lookup(s.hosts, host);
    if h.None? then []
    else
      [ClearBond(host, h.value.bond), PersistProfiles]
      + (if s.hosts.active == Some(host) then LedActions(s.sinks, 0) else [])
      + [StatusChanged(Remove(s.hosts, host).active, if s.pairable == Some(host) then None else s.pairable)]
  }

  function Cleared(s: State, host: int): Effect {
    var releases := if s.hosts.active == Some(host) then ReleaseReports(s.hosts, host, SafetyRelease) else [];
    var ends := if s.pairable == Some(host) then [RejectPairing(host)] else [];
    Effect(s.(hosts := Remove(s.hosts, host), pairable := if s.pairable == Some(host) then None else s.pairable),
           releases + (ends + ClearActions(s, host)))
  }

  // ---------------------------------------------------------- USB interfaces

  /** The position of an interface, or -1. */
  function SinkIndex(sinks: seq<Sink>, interface: int, from: nat := 0): (i: int)
    requires from <= |sinks|
    ensures -1 <= i < |sinks|
    decreases |sinks| - from
  {
    if from == |sinks| then -1
    else if sinks[from].interface == interface then from
    else SinkIndex(sinks, interface, from + 1)
  }

  function Registered(s: State, sink: Sink): Reply {
    var i := SinkIndex(s.sinks, sink.interface);
    if i < 0 && |s.sinks| >= SINKS_MAX then Failed(SinkCapacity)
    else
      var s' := s.(sinks := if i >= 0 then s.sinks[i := sink] else s.sinks + [sink]);
      Done(Effect(s', ActiveLeds(s')))
  }

  /** Removal puts the last entry in the hole. */
  function Unregistered(sinks: seq<Sink>, interface: int): (r: seq<Sink>)
    ensures |r| <= |sinks|
  {
    var i := SinkIndex(sinks, interface);
    if i < 0 then sinks else sinks[i := sinks[|sinks| - 1]][..|sinks| - 1]
  }

  /** What stays hidden when input went away. */
  function HiddenAfterDetach(hidden: Input, now: Input): Input {
    Input(StillHidden(hidden.keyboard, now.keyboard), hidden.buttons * now.buttons,
          StillHiddenUsage(hidden.consumer, now.consumer))
  }

  /** Reports about what changed. The consumer report does not look at what is hidden. */
  function DetachReports(hosts: Hosts, host: int, before: Input, now: Input, hidden: Input): (r: seq<Action>)
    ensures |r| <= 3
  {
    (if before.keyboard != now.keyboard
     then NotifyIfReady(hosts, host, KeyboardKind, KeyboardReport(Shown(now.keyboard, hidden.keyboard)), RemovalRelease)
     else [])
    + (if before.buttons != now.buttons
       then NotifyIfReady(hosts, host, MouseKind, MouseReport(now.buttons - hidden.buttons, NO_MOVEMENT), RemovalRelease)
       else [])
    + (if before.consumer != now.consumer
       then NotifyIfReady(hosts, host, ConsumerKind, ConsumerReport(now.consumer), RemovalRelease)
       else [])
  }

  function Detached(s: State, now: Input): Effect {
    if s.hosts.active.None? then Effect(s.(input := now), [])
    else
      var hidden := HiddenAfterDetach(s.hidden, now);
      Effect(s.(input := now, hidden := hidden),
             DetachReports(s.hosts, s.hosts.active.value, s.input, now, hidden))
  }

  // ---------------------------------------------------------------- handling

  function Handle(s: State, e: Event): Reply {
    match e
    case InputFrame(keyboard, mouse, consumer) => Done(Frame(s, keyboard, mouse, consumer))
    case VendorFrame => Done(Effect(s, []))
    case HostConnected(host) => Changing(s, host, Connect)
    case HostDisconnected(host) => Disconnected(s, host)
    case HostSecurityChanged(host, encrypted, bonded, bond) => Secured(s, host, encrypted, bonded, bond)
    case CccdChanged(host, kind, enabled) => Changing(s, host, Cccd(kind, enabled))
    case InterfaceConnected(interface, device, shows) => Registered(s, Sink(interface, device, shows))
    case HostLedsChanged(host, leds) => LedsChanged(s, host, leds)
    case SetHostName(host, name) => Changing(s, host, Rename(name))
    case EnterPairingMode(host) => Done(EnterPairing(s, host))
    case PairingModeExpired(host) => Done(ExpirePairing(s, host))
    case ClearHost(host) => Done(Cleared(s, host))
    case SwitchTarget(host) => TransitionWithStatus(s, host, Some(SwitchRelease))
    case InterfaceRemoved(interface, aggregate) =>
      Done(WithStatus(Detached(s.(sinks := Unregistered(s.sinks, interface)), aggregate)))
    case DeviceReset(aggregate) => Done(if aggregate.Some? then Detached(s, aggregate.value) else Effect(s, []))
  }

  /** An event that fails changes nothing and emits nothing. */
  function Step(s: State, e: Event): Effect {
    var r := Handle(s, e);
    if r.Done? then r.effect else Effect(s, [])
  }

  // ------------------------------------------------ paths outside of events

  /** Before links go down on purpose, everything held is hidden. */
  function QuiescePrepared(s: State): State {
    s.(hidden := s.input)
  }

  /** Boot restore; an invalid host number stops it half-way. */
  function Restored(s: State, stored: seq<StoredHost>, lastActive: Option<int>): State {
    var valid := forall i :: 0 <= i < |stored| ==> ValidId(stored[i].hostId);
    s.(hosts := HostState.Restore(stored, lastActive), pairable := if valid then None else s.pairable)
  }
}
