/** The power of the USB input bus: it runs whenever it is needed, is suspended three
    seconds after it no longer is, and is told so by the commands. */
module RuntimeBus {
  import opened Options
  import opened Clock
  import opened StorageImage
  import opened HostState
  import opened HostMachine
  import opened Bridge
  import opened Runtime
  import opened RuntimePairing

  // ------------------------------------------------------------- the policy

  /** The power state after updates at the given times. */
  function PowerThrough(p: Power, nows: seq<nat>, shouldRun: bool): Power {
    if nows == [] then p else PowerAfter(PowerThrough(p, nows[..|nows| - 1], shouldRun), nows[|nows| - 1], shouldRun)
  }

  /** While the bus need not run, it is suspended exactly once an update comes three
      seconds after the first one or later, whatever comes between. */
  lemma {:induction false} SuspendsAfterThreeSeconds(nows: seq<nat>)
    requires nows != [] && nows[0] + 3_000 <= TIME_MAX
    ensures var p := PowerThrough(Power(false, None), nows, false);
      && (p.suspended <==> exists i :: 0 <= i < |nows| && nows[i] >= nows[0] + 3_000)
      && (!p.suspended ==> p.deadline == Some(nows[0] + 3_000))
    decreases |nows|
  {
    var n := |nows| - 1;
    var before := nows[..n];
    if n == 0 {
      assert PowerThrough(Power(false, None), before, false) == Power(false, None);
    } else {
      SuspendsAfterThreeSeconds(before);
      assert before[0] == nows[0] && forall i :: 0 <= i < n ==> before[i] == nows[i];
      if exists i :: 0 <= i < n && before[i] >= nows[0] + 3_000 {
        var i :| 0 <= i < n && before[i] >= nows[0] + 3_000;
        assert nows[i] >= nows[0] + 3_000;
      }
    }
  }

  /** What the bus was last told. */
  function BusTold(b: bool, commands: seq<Command>): bool {
    if commands == [] then b
    else
      var last := commands[|commands| - 1];
      if last.SetBusSuspended? then last.suspended else BusTold(b, commands[..|commands| - 1])
  }

  predicate TellsNoBus(commands: seq<Command>) {
    forall i :: 0 <= i < |commands| ==> !commands[i].SetBusSuspended?
  }

  lemma {:induction false} BusUntold(b: bool, commands: seq<Command>)
    requires TellsNoBus(commands)
    ensures BusTold(b, commands) == b
    decreases |commands|
  {
    if commands != [] {
      BusUntold(b, commands[..|commands| - 1]);
    }
  }

  // ---------------------------------------------------------------- one input

  /** The core of an input leaves the power alone and tells the bus nothing. */
  predicate LeavesBus(r: Runtime, p: Progress) {
    p.Going? ==> p.runtime.power == r.power && TellsNoBus(p.commands)
  }

  lemma OnBridgeLeavesBus(r: Runtime, e: Event)
    ensures LeavesBus(r, OnBridge(r, e))
  {
  }

  lemma RequestLeavesBus(r: Runtime, target: int, now: nat)
    ensures LeavesBus(r, RequestSwitch(r, target, now))
  {
    OnBridgeLeavesBus(r.(pending := None), SwitchTarget(target));
  }

  lemma OpenLeavesBus(r: Runtime, host: int, now: nat)
    ensures LeavesBus(r, OpenWindow(r, host, now))
  {
    OnBridgeLeavesBus(r.(window := Some(Window(host, Later(now, PAIRING_MODE_TIMEOUT)))), Event.EnterPairingMode(host));
  }

  lemma CloseLeavesBus(r: Runtime)
    ensures LeavesBus(r, CloseWindow(r))
  {
    if r.window.Some? {
      OnBridgeLeavesBus(r.(window := None), PairingModeExpired(r.window.value.host));
    }
  }

  lemma EventLeavesBus(r: Runtime, e: Event, shortcut: bool)
    ensures LeavesBus(r, OnEventInput(r, e, shortcut))
  {
    OnBridgeLeavesBus(r, e);
    var a := OnBridge(r, e);
    if a.Going? && NextConnectedTarget(a.runtime).Some? {
      RequestLeavesBus(a.runtime, NextConnectedTarget(a.runtime).value, a.runtime.now);
    }
  }

  lemma ButtonLeavesBus(r: Runtime, intent: Intent, now: nat)
    ensures LeavesBus(r, OnButton(r, intent, now))
  {
    match ConfiguredIntent(r.settings, intent)
    case None =>
    case Some(NextConnected) =>
      if NextConnectedTarget(r).Some? { RequestLeavesBus(r, NextConnectedTarget(r).value, now); }
    case Some(EnterPairingMode) =>
      var host := PairingCandidate(r.bridge.hosts);
      if host.Some? { OpenLeavesBus(r, host.value, now); }
    case Some(ClearActiveHost) =>
      if r.bridge.hosts.active.Some? {
        OnBridgeLeavesBus(Unwindowed(r, r.bridge.hosts.active.value), ClearHost(r.bridge.hosts.active.value));
      }
  }

  lemma TickLeavesBus(r: Runtime, now: nat)
    ensures LeavesBus(r, OnTick(r, now))
  {
    var a := FireSwitch(r.(now := now), now);
    if SwitchDue(r, now) {
      OnBridgeLeavesBus(r.(now := now, pending := None), SwitchTarget(r.pending.value.target));
    }
    if a.Going? {
      CloseLeavesBus(a.runtime);
    }
  }

  lemma RegisterLeavesBus(r: Runtime, x: Interface)
    ensures LeavesBus(r, Register(r, x))
  {
    var at := InterfaceIndex(r.interfaces, x.interface);
    var xs := if at >= 0 then r.interfaces[at := x] else r.interfaces + [x];
    OnBridgeLeavesBus(r.(interfaces := xs), InterfaceConnected(x.interface, x.device, x.hasLeds));
  }

  lemma ManagedLeavesBus(r: Runtime, i: RuntimeInput)
    ensures LeavesBus(r, Managed(r, i))
  {
    match i
    case SelectHost(h, now) => RequestLeavesBus(r, h, now);
    case StartPairing(h, now) => OpenLeavesBus(r, h, now);
    case CancelPairing => CloseLeavesBus(r);
    case ForgetHost(h) => OnBridgeLeavesBus(r, ClearHost(h));
    case _ =>
  }

  lemma CoreLeavesBus(r: Runtime, i: RuntimeInput)
    ensures LeavesBus(r, Core(r, i))
  {
    match i
    case OnEvent(e, shortcut) => EventLeavesBus(r, e, shortcut);
    case Button(intent, now) => ButtonLeavesBus(r, intent, now);
    case Tick(now) => TickLeavesBus(r, now);
    case InterfaceUp(interface, device, hasLeds) => RegisterLeavesBus(r, Interface(interface, device, hasLeds));
    case InterfaceDown(interface, aggregate, idle) =>
      OnBridgeLeavesBus(Dropped(r, interface), InterfaceRemoved(interface, aggregate));
    case _ => ManagedLeavesBus(r, i);
  }

  /** Whether the bus is needed: nothing is plugged in, or a computer is there. */
  predicate Needed(r: Runtime) {
    var slots := r.bridge.hosts.slots;
    |r.interfaces| == 0 || exists i :: 0 <= i < |slots| && slots[i].Some? && slots[i].value.connected
  }

  lemma NeededIsShouldRun(r: Runtime)
    ensures Needed(r) <==> BusShouldRun(r)
  {
  }

  /** The power after an input follows the policy for the state after it, and the bus
      is told of every change. */
  lemma AdvanceFollowsPolicy(r: Runtime, i: RuntimeInput)
    ensures var p := Advance(r, i);
      && (p.runtime.power == r.power || p.runtime.power == PowerAfter(r.power, p.runtime.now, Needed(p.runtime)))
      && (Process(r, i).Going? && !Bypasses(i) ==>
            p.runtime.power == PowerAfter(r.power, p.runtime.now, Needed(p.runtime)))
      && BusTold(r.power.suspended, p.commands) == p.runtime.power.suspended
  {
    CoreLeavesBus(r, i);
    var core := Core(r, i);
    if core.Going? {
      BusUntold(r.power.suspended, core.commands);
      ReconcileFollowsPolicy(core);
    }
  }

  lemma ReconcileFollowsPolicy(core: Progress)
    requires core.Going? && TellsNoBus(core.commands)
    ensures var p := Reconciled(core);
      && p.Going? && p.runtime == core.runtime.(power := p.runtime.power)
      && p.runtime.power == PowerAfter(core.runtime.power, p.runtime.now, Needed(p.runtime))
      && BusTold(core.runtime.power.suspended, p.commands) == p.runtime.power.suspended
  {
    var p := Reconciled(core);
    NeededIsShouldRun(core.runtime);
    NeededIsShouldRun(p.runtime);
    BusUntold(core.runtime.power.suspended, core.commands);
    if p.runtime.power.suspended != core.runtime.power.suspended {
      assert p.commands == core.commands + [SetBusSuspended(p.runtime.power.suspended)];
      assert p.commands[|p.commands| - 1].SetBusSuspended?;
    } else {
      assert p.commands == core.commands;
    }
  }

  // -------------------------------------------------------------------- runs

  function BusView(xs: seq<RuntimeInput>): bool {
    if xs == [] then false
    else BusTold(BusView(xs[..|xs| - 1]), Advance(RunInputs(xs[..|xs| - 1]), xs[|xs| - 1]).commands)
  }

  /** Over every run the commands tell the bus exactly the power state. */
  lemma {:induction false} BusIsTold(xs: seq<RuntimeInput>)
    ensures BusView(xs) == RunInputs(xs).power.suspended
    decreases |xs|
  {
    if xs != [] {
      BusIsTold(xs[..|xs| - 1]);
      AdvanceFollowsPolicy(RunInputs(xs[..|xs| - 1]), xs[|xs| - 1]);
    }
  }

  /** The inputs go through, and the bus is not needed after any of them. */
  ghost predicate Unneeded(r: Runtime, xs: seq<RuntimeInput>)
    decreases |xs|
  {
    xs == [] ||
    (Process(r, xs[0]).Going? && !Bypasses(xs[0]) && !Needed(Advance(r, xs[0]).runtime)
     && Unneeded(Advance(r, xs[0]).runtime, xs[1..]))
  }

  function Through(r: Runtime, xs: seq<RuntimeInput>): Runtime
    decreases |xs|
  {
    if xs == [] then r else Through(Advance(r, xs[0]).runtime, xs[1..])
  }

  /** The clock after each input. */
  function Clocks(r: Runtime, xs: seq<RuntimeInput>): (nows: seq<nat>)
    ensures |nows| == |xs|
    decreases |xs|
  {
    if xs == [] then [] else [Advance(r, xs[0]).runtime.now] + Clocks(Advance(r, xs[0]).runtime, xs[1..])
  }

  lemma {:induction false} PowerThroughFront(p: Power, now: nat, rest: seq<nat>)
    ensures PowerThrough(p, [now] + rest, false) == PowerThrough(PowerAfter(p, now, false), rest, false)
    decreases |rest|
  {
    var all := [now] + rest;
    if rest == [] {
      assert all == [now] && all[..0] == [];
    } else {
      assert all[..|all| - 1] == [now] + rest[..|rest| - 1];
      PowerThroughFront(p, now, rest[..|rest| - 1]);
    }
  }

  lemma {:induction false} UnneededFollows(r: Runtime, xs: seq<RuntimeInput>)
    requires Unneeded(r, xs)
    ensures Through(r, xs).power == PowerThrough(r.power, Clocks(r, xs), false)
    decreases |xs|
  {
    if xs != [] {
      var r1 := Advance(r, xs[0]).runtime;
      AdvanceFollowsPolicy(r, xs[0]);
      UnneededFollows(r1, xs[1..]);
      PowerThroughFront(r.power, r1.now, Clocks(r1, xs[1..]));
    }
  }

  /** Over every run of the runtime during which the bus is not needed, it is suspended
      exactly once an input comes three seconds after the first or later. */
  lemma BusSleepsAfterThreeSeconds(r: Runtime, xs: seq<RuntimeInput>)
    requires r.power == Power(false, None) && xs != [] && Unneeded(r, xs) && Clocks(r, xs)[0] + 3_000 <= TIME_MAX
    ensures var nows := Clocks(r, xs);
      Through(r, xs).power.suspended <==> exists i :: 0 <= i < |nows| && nows[i] >= nows[0] + 3_000
  {
    UnneededFollows(r, xs);
    SuspendsAfterThreeSeconds(Clocks(r, xs));
  }

  /** And it wakes at the first input after which it is needed. */
  lemma BusWakesAtOnce(r: Runtime, i: RuntimeInput)
    requires Process(r, i).Going? && !Bypasses(i) && Needed(Advance(r, i).runtime)
    ensures Advance(r, i).runtime.power == Power(false, None)
  {
    AdvanceFollowsPolicy(r, i);
  }
}
