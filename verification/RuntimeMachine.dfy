/** The runtime as an object: fields that change while one input is handled, and
    commands appended to a list. */
module RuntimeMachine {
  import opened Options
  import opened Clock
  import opened StorageImage
  import opened HostState
  import opened HostMachine
  import opened Bridge
  import opened Runtime

  class BridgeRuntime {
    var bridge: State
    var window: Option<Window>
    var pending: Option<Pending>
    var now: nat
    var settings: Settings
    var interfaces: seq<Interface>
    var writable: bool
    var power: Power
    var commands: seq<Command>

    function Value(): Runtime
      reads this
    {
      Runtime(bridge, window, pending, now, settings, interfaces, writable, power)
    }

    constructor ()
      ensures Value() == Fresh() && commands == []
    {
      bridge, window, pending, now := Initial(), None, None, 0;
      settings, interfaces, writable, power := DEFAULT_SETTINGS, [], true, Power(false, None);
      commands := [];
    }

    method ObserveBridgeEvent(e: Event)
      modifies this`window
      ensures Value() == Observed(old(Value()), e)
    {
      var host := if window.Some? then Some(window.value.host) else None;
      match e
      case EnterPairingMode(h) =>
        if host != Some(h) {
          window := Some(Window(h, if window.Some? then window.value.deadline else PAIRING_MODE_TIMEOUT));
        }
      case PairingModeExpired(h) => if host == Some(h) { window := None; }
      case ClearHost(h) => if host == Some(h) { window := None; }
      case HostSecurityChanged(h, _, bonded, _) => if bonded && host == Some(h) { window := None; }
      case _ =>
    }

    /** Turns the actions into commands, one by one; the first one that cannot be
        dispatched ends it. */
    method DispatchActions(actions: seq<Action>) returns (ok: bool)
      modifies this`window, this`commands
      ensures ok <==> Dispatch(old(Value()), actions).Going?
      ensures ok ==> Value() == Dispatch(old(Value()), actions).runtime
      ensures ok ==> commands == old(commands) + Dispatch(old(Value()), actions).commands
    {
      ghost var all := Acts(actions);
      var i := 0;
      while i < |actions|
        invariant 0 <= i <= |actions|
        invariant commands == old(commands) + all[..i]
        invariant forall j :: 0 <= j < i ==> Dispatchable(old(Value()), actions[j])
        invariant window == if exists j :: 0 <= j < i && EndsWindow(actions[j]) then None else old(window)
      {
        var a := actions[i];
        if (a.PersistProfiles? && !writable) || (a.SetLeds? && !HasLeds(interfaces, a.interface)) {
          assert !Dispatchable(old(Value()), actions[i]);
          return false;
        }
        if a.StatusChanged? && a.pairable.None? {
          window := None;
        }
        commands := commands + [Act(a)];
        assert all[..i + 1] == all[..i] + [Act(a)];
        i := i + 1;
      }
      assert all[..i] == all;
      ok := true;
    }

    /** The object after one part of an input. */
    ghost predicate Follows(before: seq<Command>, p: Progress, ok: bool)
      reads this
    {
      (ok <==> p.Going?) && (ok ==> Value() == p.runtime && commands == before + p.commands)
    }

    method HandleBridgeEventAppend(e: Event) returns (ok: bool)
      modifies this`bridge, this`window, this`commands
      ensures Follows(old(commands), OnBridge(old(Value()), e), ok)
    {
      var reply := Handle(bridge, e);
      ObserveBridgeEvent(e);
      if reply.Failed? {
        return false;
      }
      bridge := reply.effect.state;
      ok := DispatchActions(reply.effect.actions);
    }

    method RequestTargetSwitch(target: int, at: nat) returns (ok: bool)
      modifies this
      ensures Follows(old(commands), RequestSwitch(old(Value()), target, at), ok)
    {
      if settings.delay == 0 {
        pending := None;
        ok := HandleBridgeEventAppend(SwitchTarget(target));
        return;
      }
      pending := Some(Pending(target, Later(at, settings.delay)));
      ok := true;
    }

    /** A frame that completed the shortcut clears its own commands. */
    method HandleEventInput(e: Event, shortcut: bool) returns (ok: bool)
      requires commands == []
      modifies this
      ensures Follows([], OnEventInput(old(Value()), e, shortcut), ok)
    {
      ok := HandleBridgeEventAppend(e);
      if ok && e.InputFrame? && shortcut {
        var target := NextTarget(bridge.hosts, bridge.hosts.active, Wanted.AnyConnected);
        if target.Some? {
          commands := [];
          ok := RequestTargetSwitch(target.value, now);
        }
      }
    }

    method HandleButtonIntent(intent: Intent, at: nat) returns (ok: bool)
      requires commands == []
      modifies this
      ensures Follows([], OnButton(old(Value()), intent, at), ok)
    {
      match ConfiguredIntent(settings, intent) {
        case None => ok := true;
        case Some(NextConnected) =>
          var target := NextTarget(bridge.hosts, bridge.hosts.active, Wanted.AnyConnected);
          if target.None? {
            return true;
          }
          ok := RequestTargetSwitch(target.value, at);
        case Some(EnterPairingMode) =>
          var host := PairingCandidate(bridge.hosts);
          if host.None? {
            return true;
          }
          ok := OpenPairingWindow(host.value, at);
        case Some(ClearActiveHost) =>
          if bridge.hosts.active.None? {
            return true;
          }
          var host := bridge.hosts.active.value;
          if window.Some? && window.value.host == host {
            window := None;
          }
          ok := HandleBridgeEventAppend(ClearHost(host));
      }
    }

    method FirePendingSwitch(at: nat) returns (ok: bool)
      requires commands == []
      modifies this`bridge, this`window, this`pending, this`commands
      ensures Follows([], FireSwitch(old(Value()), at), ok)
    {
      if pending.Some? && at >= pending.value.deadline {
        var target := pending.value.target;
        pending := None;
        ok := HandleBridgeEventAppend(SwitchTarget(target));
      } else {
        ok := true;
      }
    }

    method ExpirePairingWindow(at: nat) returns (ok: bool)
      modifies this`bridge, this`window, this`commands
      ensures Follows(old(commands), ExpireWindow(old(Value()), at), ok)
    {
      if window.Some? && at >= window.value.deadline {
        var host := window.value.host;
        window := None;
        ok := HandleBridgeEventAppend(PairingModeExpired(host));
      } else {
        ok := true;
      }
    }

    method HandleTick(at: nat) returns (ok: bool)
      requires commands == []
      modifies this
      ensures Follows([], OnTick(old(Value()), at), ok)
    {
      now := at;
      ghost var start := Value();
      ok := FirePendingSwitch(at);
      if ok {
        ghost var fired := Going(Value(), commands);
        assert FireSwitch(start, at) == fired;
        ok := ExpirePairingWindow(at);
        assert Follows(fired.commands, ExpireWindow(fired.runtime, at), ok);
      }
    }

    method ReconcileUsbHostPower()
      modifies this`power, this`commands
      ensures var p := Reconciled(Going(old(Value()), old(commands))); Value() == p.runtime && commands == p.commands
    {
      var shouldRun := |interfaces| == 0 || ComputerConnected(bridge.hosts);
      var was := power.suspended;
      if shouldRun {
        power := Power(false, None);
      } else if !power.suspended {
        var deadline := if power.deadline.Some? then power.deadline.value else Later(now, SUSPEND_DELAY);
        power := if now < deadline then Power(false, Some(deadline)) else Power(true, None);
      }
      if power.suspended != was {
        commands := commands + [SetBusSuspended(power.suspended)];
      }
    }

    method RegisterInterface(x: Interface) returns (ok: bool)
      requires commands == []
      modifies this
      ensures Follows([], Register(old(Value()), x), ok)
    {
      var i := InterfaceIndex(interfaces, x.interface);
      if i >= 0 {
        interfaces := interfaces[i := x];
      } else if |interfaces| < SINKS_MAX {
        interfaces := interfaces + [x];
      } else {
        return false;
      }
      ok := HandleBridgeEventAppend(InterfaceConnected(x.interface, x.device, x.hasLeds));
    }

    method HandleEventThen(e: Event, more: seq<Command>) returns (ok: bool)
      modifies this`bridge, this`window, this`commands
      ensures Follows(old(commands), Extended(OnBridge(old(Value()), e), more), ok)
    {
      ok := HandleBridgeEventAppend(e);
      commands := commands + more;
    }

    method DropInterface(interface: int) returns (known: bool)
      modifies this`interfaces
      ensures Value() == Dropped(old(Value()), interface) && known == (InterfaceIndex(old(interfaces), interface) >= 0)
    {
      var i := InterfaceIndex(interfaces, interface);
      known := i >= 0;
      if known {
        interfaces := interfaces[..i] + interfaces[i + 1..];
      }
    }

    method UnregisterInterface(interface: int, aggregate: Input, profileIdle: bool) returns (ok: bool)
      requires commands == []
      modifies this
      ensures Follows([], Unregister(old(Value()), interface, aggregate, profileIdle), ok)
    {
      var known := DropInterface(interface);
      ok := HandleEventThen(InterfaceRemoved(interface, aggregate), if known && profileIdle && writable then [PersistNow] else []);
    }

    method OpenPairingWindow(host: int, at: nat) returns (ok: bool)
      modifies this
      ensures Follows(old(commands), OpenWindow(old(Value()), host, at), ok)
    {
      window := Some(Window(host, Later(at, PAIRING_MODE_TIMEOUT)));
      ok := HandleBridgeEventAppend(Event.EnterPairingMode(host));
    }

    method ClosePairingWindow() returns (ok: bool)
      modifies this
      ensures Follows(old(commands), CloseWindow(old(Value())), ok)
    {
      ok := true;
      if window.Some? {
        var host := window.value.host;
        window := None;
        ok := HandleBridgeEventAppend(PairingModeExpired(host));
      }
    }

    /** Management requests that concern targets and pairing; each is answered. */
    method HandleManagement(m: RuntimeInput) returns (ok: bool)
      requires commands == [] && (m.SelectHost? || m.StartPairing? || m.CancelPairing? || m.ForgetHost?)
      modifies this
      ensures Follows([], Extended(Managed(old(Value()), m), [Respond]), ok)
    {
      ok := true;
      match m {
        case SelectHost(h, at) =>
          if writable && ValidId(h) && Lookup(bridge.hosts, h).Some? {
            ok := RequestTargetSwitch(h, at);
          }
        case StartPairing(h, at) =>
          if writable && ValidId(h) && !HasBond(bridge.hosts, h) {
            ok := OpenPairingWindow(h, at);
          }
        case CancelPairing => ok := ClosePairingWindow();
        case ForgetHost(h) =>
          if writable && ValidId(h) && Lookup(bridge.hosts, h).Some? {
            ok := HandleBridgeEventAppend(ClearHost(h));
          }
      }
      commands := commands + [Respond];
    }

    method RestoreStorageState(stored: seq<StoredHost>, lastActive: Option<int>, s: Settings) returns (ok: bool)
      requires commands == []
      modifies this
      ensures Follows([], OnRestore(old(Value()), stored, lastActive, s), ok)
    {
      ok := forall i :: 0 <= i < |stored| ==> ValidId(stored[i].hostId);
      if ok {
        bridge := Restored(bridge, stored, BootTarget(s, stored, lastActive));
        settings := s;
        window := None;
        commands := [SetLogLevel];
      }
    }

    method DiscoverName(h: int, name: FixedName) returns (ok: bool)
      requires commands == []
      modifies this
      ensures Follows([], Core(old(Value()), NameFound(h, name)), ok)
    {
      var t := Touch(bridge.hosts, h, Discover(name));
      ok := t.Ok?;
      if ok {
        bridge := bridge.(hosts := t.value);
      }
    }

    method HandleCore(i: RuntimeInput) returns (ok: bool)
      requires commands == []
      modifies this
      ensures Follows([], Core(old(Value()), i), ok)
    {
      ok := true;
      match i {
        case OnEvent(e, shortcut) => ok := HandleEventInput(e, shortcut);
        case Button(intent, at) => ok := HandleButtonIntent(intent, at);
        case Tick(at) => ok := HandleTick(at);
        case InterfaceUp(interface, device, hasLeds) => ok := RegisterInterface(Interface(interface, device, hasLeds));
        case InterfaceDown(interface, aggregate, idle) => ok := UnregisterInterface(interface, aggregate, idle);
        case Metadata(isNew) => commands := if isNew && writable then [PersistNow] else [];
        case NameFound(h, name) => ok := DiscoverName(h, name);
        case HealthChanged(w) => writable := w;
        case RestoreStorage(stored, lastActive, s) => ok := RestoreStorageState(stored, lastActive, s);
        case QuiescePrepare => bridge := QuiescePrepared(bridge);
        case QuiesceDrop(h) => bridge := Unlinked(bridge, h);
        case SelectHost(_, _) => ok := HandleManagement(i);
        case StartPairing(_, _) => ok := HandleManagement(i);
        case CancelPairing => ok := HandleManagement(i);
        case ForgetHost(_) => ok := HandleManagement(i);
      }
    }

    method TakeOver(r: Runtime, cs: seq<Command>)
      modifies this
      ensures Value() == r && commands == cs
    {
      bridge, window, pending, now := r.bridge, r.window, r.pending, r.now;
      settings, interfaces, writable, power := r.settings, r.interfaces, r.writable, r.power;
      commands := cs;
    }

    method HandleInPlace(i: RuntimeInput) returns (ok: bool)
      requires commands == []
      modifies this
      ensures Follows([], Process(old(Value()), i), ok)
    {
      ok := HandleCore(i);
      if ok && !Bypasses(i) {
        ReconcileUsbHostPower();
      }
    }

    /** One input, all or nothing. */
    method HandleInput(i: RuntimeInput) returns (ok: bool)
      modifies this
      ensures ok <==> Process(old(Value()), i).Going?
      ensures Value() == Advance(old(Value()), i).runtime
      ensures commands == if ok then Advance(old(Value()), i).commands else old(commands)
    {
      var saved, savedCommands := Value(), commands;
      commands := [];
      assert Value() == saved;
      ok := HandleInPlace(i);
      if !ok {
        TakeOver(saved, savedCommands);
      }
    }
  }
}
