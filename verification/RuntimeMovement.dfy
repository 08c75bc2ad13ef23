/** Pointer movement from the frames that reach the runtime to the reports that the
    mouse sink hands over: everything arrives but the movement of a frame that
    completes the switch shortcut. */
module RuntimeMovement {
  import opened Options
  import Clock
  import opened StorageImage
  import opened HostState
  import HostMachine
  import opened Bridge
  import opened BridgeMovement
  import opened Runtime
  import opened RuntimePairing
  import opened RuntimeViews
  import opened RuntimeOwner
  import MouseAccumulator
  import MouseSink

  // ------------------------------------------------------ movement of commands

  function MovedBy(commands: seq<Command>, g: int, d: MouseSink.Direction): int {
    if commands == [] then 0
    else
      var last := commands[|commands| - 1];
      MovedBy(commands[..|commands| - 1], g, d) + if last.Act? then Carried(last.action, g, d) else 0
  }

  lemma {:induction false} MovedByActs(actions: seq<Action>, g: int, d: MouseSink.Direction)
    ensures MovedBy(Acts(actions), g, d) == Moved(actions, g, d)
    decreases |actions|
  {
    if actions != [] {
      var n := |actions| - 1;
      assert Acts(actions)[..n] == Acts(actions[..n]);
      MovedByActs(actions[..n], g, d);
    }
  }

  lemma {:induction false} MovedByAppend(a: seq<Command>, b: seq<Command>, g: int, d: MouseSink.Direction)
    ensures MovedBy(a + b, g, d) == MovedBy(a, g, d) + MovedBy(b, g, d)
    decreases |b|
  {
    if b == [] {
      assert a + b == a;
    } else {
      assert (a + b)[..|a + b| - 1] == a + b[..|b| - 1];
      MovedByAppend(a, b[..|b| - 1], g, d);
    }
  }

  /** Refused, or without any movement. */
  predicate MovesNothing(p: Progress) {
    p.Going? ==> forall i :: 0 <= i < |p.commands| && p.commands[i].Act? ==> Still([p.commands[i].action])
  }

  lemma {:induction false} NothingMoves(p: Progress, g: int, d: MouseSink.Direction)
    requires p.Going? && MovesNothing(p)
    ensures MovedBy(p.commands, g, d) == 0
    decreases |p.commands|
  {
    var n := |p.commands| - 1;
    if n >= 0 {
      var last := p.commands[n];
      assert last.Act? ==> Still([last.action]) && [last.action][0] == last.action;
      NothingMoves(Going(p.runtime, p.commands[..n]), g, d);
    }
  }

  lemma OnBridgeMoves(r: Runtime, e: Event, g: int, d: MouseSink.Direction)
    requires OnBridge(r, e).Going?
    ensures MovedBy(OnBridge(r, e).commands, g, d) == Pointed(r.bridge, e, g, d)
  {
    StepMoves(r.bridge, e, g, d);
    MovedByActs(Step(r.bridge, e).actions, g, d);
  }

  lemma OnBridgeIsStill(r: Runtime, e: Event)
    requires !e.InputFrame?
    ensures MovesNothing(OnBridge(r, e))
  {
    OtherEventsAreStill(r.bridge, e);
  }

  lemma RequestIsStill(r: Runtime, target: int, now: nat)
    ensures MovesNothing(RequestSwitch(r, target, now))
  {
    OnBridgeIsStill(r.(pending := None), SwitchTarget(target));
  }

  lemma OpenIsStill(r: Runtime, host: int, now: nat)
    ensures MovesNothing(OpenWindow(r, host, now))
  {
    OnBridgeIsStill(r.(window := Some(Window(host, Clock.Later(now, PAIRING_MODE_TIMEOUT)))), Event.EnterPairingMode(host));
  }

  lemma CloseIsStill(r: Runtime)
    ensures MovesNothing(CloseWindow(r))
  {
    if r.window.Some? {
      OnBridgeIsStill(r.(window := None), PairingModeExpired(r.window.value.host));
    }
  }

  lemma ButtonIsStill(r: Runtime, intent: Intent, now: nat)
    ensures MovesNothing(OnButton(r, intent, now))
  {
    match ConfiguredIntent(r.settings, intent)
    case None =>
    case Some(NextConnected) =>
      if NextConnectedTarget(r).Some? { RequestIsStill(r, NextConnectedTarget(r).value, now); }
    case Some(EnterPairingMode) =>
      var host := HostMachine.PairingCandidate(r.bridge.hosts);
      if host.Some? { OpenIsStill(r, host.value, now); }
    case Some(ClearActiveHost) =>
      if r.bridge.hosts.active.Some? {
        OnBridgeIsStill(Unwindowed(r, r.bridge.hosts.active.value), ClearHost(r.bridge.hosts.active.value));
      }
  }

  lemma TickIsStill(r: Runtime, now: nat)
    ensures MovesNothing(OnTick(r, now))
  {
    var a := FireSwitch(r.(now := now), now);
    if SwitchDue(r, now) {
      OnBridgeIsStill(r.(now := now, pending := None), SwitchTarget(r.pending.value.target));
    }
    if a.Going? {
      CloseIsStill(a.runtime);
    }
  }

  lemma ManagedIsStill(r: Runtime, i: RuntimeInput)
    ensures MovesNothing(Managed(r, i))
  {
    match i
    case SelectHost(h, now) => RequestIsStill(r, h, now);
    case StartPairing(h, now) => OpenIsStill(r, h, now);
    case CancelPairing => CloseIsStill(r);
    case ForgetHost(h) => OnBridgeIsStill(r, ClearHost(h));
    case _ =>
  }

  lemma RegisterIsStill(r: Runtime, x: Interface)
    ensures MovesNothing(Register(r, x))
  {
    var at := InterfaceIndex(r.interfaces, x.interface);
    var xs := if at >= 0 then r.interfaces[at := x] else r.interfaces + [x];
    OnBridgeIsStill(r.(interfaces := xs), InterfaceConnected(x.interface, x.device, x.hasLeds));
  }

  /** Whatever is not a frame moves no pointer. */
  lemma CoreIsStill(r: Runtime, i: RuntimeInput)
    requires !(i.OnEvent? && i.event.InputFrame?)
    ensures MovesNothing(Core(r, i))
  {
    match i
    case OnEvent(e, shortcut) => OnBridgeIsStill(r, e);
    case Button(intent, now) => ButtonIsStill(r, intent, now);
    case Tick(now) => TickIsStill(r, now);
    case InterfaceUp(interface, device, hasLeds) => RegisterIsStill(r, Interface(interface, device, hasLeds));
    case InterfaceDown(interface, aggregate, idle) =>
      OnBridgeIsStill(Dropped(r, interface), InterfaceRemoved(interface, aggregate));
    case _ => ManagedIsStill(r, i);
  }

  // ------------------------------------------------------------- one input

  function PointedBy(r: Runtime, i: RuntimeInput, g: int, d: MouseSink.Direction): int {
    if i.OnEvent? then Pointed(r.bridge, i.event, g, d) else 0
  }

  /** The frame completes the shortcut and there is a computer to go to: its own
      reports are cleared away. */
  predicate LosesMovement(r: Runtime, i: RuntimeInput) {
    ShortcutFrame(i) && NextConnectedTarget(r).Some?
  }

  function ArrivesBy(r: Runtime, i: RuntimeInput, g: int, d: MouseSink.Direction): int {
    if LosesMovement(r, i) then 0 else PointedBy(r, i, g, d)
  }

  lemma FrameArrives(r: Runtime, e: Event, shortcut: bool, g: int, d: MouseSink.Direction)
    requires e.InputFrame?
    ensures var p := OnEventInput(r, e, shortcut);
      (p.Going? ==> MovedBy(p.commands, g, d) == ArrivesBy(r, OnEvent(e, shortcut), g, d))
      && (p.Refused? ==> LosesMovement(r, OnEvent(e, shortcut)))
  {
    FrameGoes(r, e);
    OnBridgeMoves(r, e, g, d);
    var a := OnBridge(r, e).runtime;
    if shortcut && NextConnectedTarget(r).Some? {
      assert NextConnectedTarget(a) == NextConnectedTarget(r);
      var p := RequestSwitch(a, NextConnectedTarget(r).value, a.now);
      RequestIsStill(a, NextConnectedTarget(r).value, a.now);
      if p.Going? {
        NothingMoves(p, g, d);
      }
    }
  }

  lemma CoreArrives(r: Runtime, i: RuntimeInput, g: int, d: MouseSink.Direction)
    ensures var p := Core(r, i);
      (if p.Going? then MovedBy(p.commands, g, d) else 0) == ArrivesBy(r, i, g, d)
  {
    if i.OnEvent? && i.event.InputFrame? {
      FrameArrives(r, i.event, i.shortcut, g, d);
    } else {
      CoreIsStill(r, i);
      if Core(r, i).Going? {
        NothingMoves(Core(r, i), g, d);
      }
    }
  }

  lemma ReconcileMovesNothing(p: Progress, g: int, d: MouseSink.Direction)
    requires p.Going?
    ensures Reconciled(p).Going? && MovedBy(Reconciled(p).commands, g, d) == MovedBy(p.commands, g, d)
  {
    var power := Reconciled(p).runtime.power;
    var more := if power.suspended != p.runtime.power.suspended then [SetBusSuspended(power.suspended)] else [];
    assert Reconciled(p).commands == p.commands + more;
    MovedByAppend(p.commands, more, g, d);
    NothingMoves(Going(p.runtime, more), g, d);
  }

  /** The commands of one input move the pointer of each host exactly as it asks. */
  lemma AdvanceArrives(r: Runtime, i: RuntimeInput, g: int, d: MouseSink.Direction)
    ensures MovedBy(Advance(r, i).commands, g, d) == ArrivesBy(r, i, g, d)
  {
    CoreArrives(r, i, g, d);
    if Core(r, i).Going? {
      ReconcileMovesNothing(Core(r, i), g, d);
    }
  }

  /** So do those of one message on the firmware's path, refused or not. */
  lemma ServeArrives(r: Runtime, i: RuntimeInput, g: int, d: MouseSink.Direction)
    ensures MovedBy(Serve(r, i).commands, g, d) == ArrivesBy(r, i, g, d)
  {
    if i.OnEvent? && i.event.InputFrame? && !i.shortcut {
      FrameGoes(r, i.event);
      OnBridgeMoves(r, i.event, g, d);
    } else {
      AdvanceArrives(r, i, g, d);
    }
  }

  // ------------------------------------------------------------------- runs

  function CommandsOf(xs: seq<RuntimeInput>): seq<Command> {
    if xs == [] then [] else CommandsOf(xs[..|xs| - 1]) + Advance(RunInputs(xs[..|xs| - 1]), xs[|xs| - 1]).commands
  }

  function PointedOver(xs: seq<RuntimeInput>, g: int, d: MouseSink.Direction): int {
    if xs == [] then 0
    else PointedOver(xs[..|xs| - 1], g, d) + PointedBy(RunInputs(xs[..|xs| - 1]), xs[|xs| - 1], g, d)
  }

  /** The movement of the frames that lose theirs. */
  function LostOver(xs: seq<RuntimeInput>, g: int, d: MouseSink.Direction): int {
    if xs == [] then 0
    else
      var r, i := RunInputs(xs[..|xs| - 1]), xs[|xs| - 1];
      LostOver(xs[..|xs| - 1], g, d) + if LosesMovement(r, i) then PointedBy(r, i, g, d) else 0
  }

  /** Over every run of the runtime, in every direction: what the frames point host
      `g` to is what its reports carry, and what shortcut frames lose. */
  lemma {:induction false} MovementIsAccounted(xs: seq<RuntimeInput>, g: int, d: MouseSink.Direction)
    ensures MovedBy(CommandsOf(xs), g, d) + LostOver(xs, g, d) == PointedOver(xs, g, d)
    decreases |xs|
  {
    if xs != [] {
      var before, r := xs[..|xs| - 1], RunInputs(xs[..|xs| - 1]);
      MovementIsAccounted(before, g, d);
      AdvanceArrives(r, xs[|xs| - 1], g, d);
      MovedByAppend(CommandsOf(before), Advance(r, xs[|xs| - 1]).commands, g, d);
    }
  }

  function CommandsServed(xs: seq<RuntimeInput>): seq<Command> {
    if xs == [] then [] else CommandsServed(xs[..|xs| - 1]) + Serve(Served(xs[..|xs| - 1]), xs[|xs| - 1]).commands
  }

  /** The movement that should arrive on the firmware's path. */
  function ArrivesOver(xs: seq<RuntimeInput>, g: int, d: MouseSink.Direction): int {
    if xs == [] then 0
    else ArrivesOver(xs[..|xs| - 1], g, d) + ArrivesBy(Served(xs[..|xs| - 1]), xs[|xs| - 1], g, d)
  }

  lemma {:induction false} ServedIsAccounted(xs: seq<RuntimeInput>, g: int, d: MouseSink.Direction)
    ensures MovedBy(CommandsServed(xs), g, d) == ArrivesOver(xs, g, d)
    decreases |xs|
  {
    if xs != [] {
      var before, r := xs[..|xs| - 1], Served(xs[..|xs| - 1]);
      ServedIsAccounted(before, g, d);
      ServeArrives(r, xs[|xs| - 1], g, d);
      MovedByAppend(CommandsServed(before), Serve(r, xs[|xs| - 1]).commands, g, d);
    }
  }

  // --------------------------------------------------------------- to the sink

  function Bit(buttons: set<nat>, b: nat, weight: nat): nat {
    if b in buttons then weight else 0
  }

  function Mask(buttons: set<nat>): nat {
    Bit(buttons, 0, 1) + Bit(buttons, 1, 2) + Bit(buttons, 2, 4) + Bit(buttons, 3, 8)
    + Bit(buttons, 4, 16) + Bit(buttons, 5, 32) + Bit(buttons, 6, 64) + Bit(buttons, 7, 128)
  }

  predicate IsMouse(c: Command) {
    c.Act? && c.action.Notify? && c.action.report.MouseReport?
  }

  function MouseItem(c: Command): MouseSink.Item
    requires IsMouse(c)
  {
    var m := c.action.report.movement;
    MouseSink.Item(c.action.target, MouseAccumulator.Report(Mask(c.action.report.buttons), m.x, m.y, m.wheel, m.pan))
  }

  /** The mouse reports among the commands, as the sink is given them. */
  function MouseItems(commands: seq<Command>): seq<MouseSink.Item> {
    if commands == [] then []
    else
      var last := commands[|commands| - 1];
      MouseItems(commands[..|commands| - 1]) + if IsMouse(last) then [MouseItem(last)] else []
  }

  lemma ItemCarries(commands: seq<Command>, last: Command, g: int, d: MouseSink.Direction)
    ensures MouseSink.Total(MouseSink.ForHost(MouseItems(commands + [last]), g), d)
            == MouseSink.Total(MouseSink.ForHost(MouseItems(commands), g), d)
               + if last.Act? then Carried(last.action, g, d) else 0
  {
    var items := MouseItems(commands);
    assert (commands + [last])[..|commands|] == commands;
    if IsMouse(last) {
      MouseSink.ForHostStep(items, MouseItem(last), g);
      MouseSink.TotalStep(MouseSink.ForHost(items, g), MouseItem(last).report, d);
      assert MouseSink.ForHost(items, g) + [] == MouseSink.ForHost(items, g);
    } else {
      assert items + [] == items;
    }
  }

  lemma {:induction false} ItemsCarry(commands: seq<Command>, g: int, d: MouseSink.Direction)
    ensures MouseSink.Total(MouseSink.ForHost(MouseItems(commands), g), d) == MovedBy(commands, g, d)
    decreases |commands|
  {
    if commands == [] {
      assert MouseSink.Moves([], d) == [];
    } else {
      var before, last := commands[..|commands| - 1], commands[|commands| - 1];
      ItemsCarry(before, g, d);
      ItemCarries(before, last, g, d);
      assert before + [last] == commands;
    }
  }

  /** From the frames to the radio: what the lanes of host `g` were handed and what
      the sink still holds for it is exactly the movement of the frames that came
      while it was active and took mouse reports, but for shortcut frames. */
  lemma PointerArrives(xs: seq<RuntimeInput>, hosts: seq<MouseAccumulator.Pending>, handed: seq<MouseSink.Item>, g: int,
                       d: MouseSink.Direction)
    requires MouseSink.SameStory(hosts, handed, MouseItems(CommandsServed(xs)), g)
    requires MouseAccumulator.Settled(hosts[g - 1])
    ensures MouseSink.Total(MouseSink.ForHost(handed, g), d) + MouseSink.Along(MouseSink.Held(hosts[g - 1]), d)
            == ArrivesOver(xs, g, d)
  {
    MouseSink.MovementConserved(hosts, handed, MouseItems(CommandsServed(xs)), g, d);
    ItemsCarry(CommandsServed(xs), g, d);
    ServedIsAccounted(xs, g, d);
  }
}
