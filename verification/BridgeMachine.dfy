/** The bridge as an object: its methods change the state step by step and push
    actions onto a vector of sixteen. */
module BridgeMachine {
  import opened Options
  import opened StorageImage
  import opened Keyboard
  import opened HostState
  import opened HostMachine
  import opened Bridge

  lemma RemoveKeepsShape(hs: Hosts, id: int)
    requires WellFormed(hs)
    ensures WellFormed(Remove(hs, id))
  {
    RemoveChanges(hs, id);
  }

  lemma Regroup(a: seq<Action>, b: seq<Action>, c: seq<Action>)
    ensures (a + b) + c == a + (b + c)
  {
  }

  class BridgeCore {
    var input: Input
    var hidden: Input
    var sinks: seq<Sink>
    var hosts: Hosts
    var pairable: Option<int>
    var out: seq<Action>

    function Value(): State
      reads this
    {
      State(input, hidden, sinks, hosts, pairable)
    }

    ghost predicate Valid()
      reads this
    {
      Sound(Value())
    }

    constructor ()
      ensures Valid() && Value() == Initial() && out == []
    {
      input, hidden, sinks, hosts, pairable, out := NEUTRAL, NEUTRAL, [], NoHosts(), None, [];
    }

    /** The vector never overflows: every caller shows that there is room. */
    method Push(a: Action)
      requires |out| < ACTIONS_MAX
      modifies this`out
      ensures out == old(out) + [a]
    {
      out := out + [a];
    }

    method PushNotify(host: int, k: ReportKind, report: Report, reason: Reason)
      requires |out| < ACTIONS_MAX
      modifies this`out
      ensures out == old(out) + NotifyIfReady(hosts, host, k, report, reason)
    {
      if CanSend(hosts, host, k) {
        Push(Notify(host, report, reason));
      }
    }

    method PushReleaseReports(host: int, reason: Reason)
      requires |out| + 3 <= ACTIONS_MAX
      modifies this`out
      ensures out == old(out) + ReleaseReports(hosts, host, reason)
    {
      PushNotify(host, KeyboardKind, KeyboardReport(NO_KEYS), reason);
      PushNotify(host, MouseKind, MouseReport({}, NO_MOVEMENT), reason);
      PushNotify(host, ConsumerKind, ConsumerReport(None), reason);
    }

    method PushUsbKeyboardLeds(leds: int)
      requires |out| + |sinks| <= ACTIONS_MAX
      modifies this`out
      ensures out == old(out) + LedActions(sinks, leds)
    {
      var i := 0;
      while i < |sinks|
        invariant 0 <= i <= |sinks|
        invariant |out| <= |old(out)| + i
        invariant out + LedActions(sinks[i..], leds) == old(out) + LedActions(sinks, leds)
      {
        assert sinks[i..][1..] == sinks[i + 1..];
        ghost var rest := LedActions(sinks[i + 1..], leds);
        if sinks[i].showsLeds {
          var a := SetLeds(sinks[i].interface, sinks[i].device, leds);
          assert out + ([a] + rest) == (out + [a]) + rest;
          Push(a);
        } else {
          assert [] + rest == rest;
        }
        i := i + 1;
      }
    }

    method ApplyActiveHostLeds()
      requires |out| + |sinks| <= ACTIONS_MAX
      modifies this`out
      ensures out == old(out) + ActiveLeds(Value())
    {
      if hosts.active.Some? {
        var h := Lookup(hosts, hosts.active.value);
        PushUsbKeyboardLeds(if h.Some? && h.value.leds.Some? then h.value.leds.value else 0);
      }
    }

    method PushStatus()
      requires |out| < ACTIONS_MAX
      modifies this`out
      ensures out == old(out) + [Status(Value())]
    {
      Push(StatusChanged(hosts.active, pairable));
    }

    method HandleInputFrame(keyboard: Option<Keys>, mouse: Option<MouseFrame>, consumer: Option<Option<int>>)
      requires out == [] && (keyboard.Some? ==> Distinct(keyboard.value.keys))
      modifies this
      ensures Effect(Value(), out) == Frame(old(Value()), keyboard, mouse, consumer)
    {
      if keyboard.Some? {
        KeyboardFrame(keyboard.value);
      }
      assert |out| <= 1;
      if mouse.Some? {
        PointerFrame(mouse.value);
      }
      if consumer.Some? {
        UsageFrame(consumer.value);
      }
    }

    method PointerFrame(mouse: MouseFrame)
      requires |out| < ACTIONS_MAX
      modifies this
      ensures var e := MousePart(old(Value()), mouse); Value() == e.state && out == old(out) + e.actions
    {
      var stillHidden := hidden.buttons * mouse.buttons;
      if hosts.active.Some? {
        PushNotify(hosts.active.value, MouseKind, MouseReport(mouse.buttons - stillHidden, mouse.movement),
                   if input.buttons != mouse.buttons then Edge else Plain);
      }
      input := input.(buttons := mouse.buttons);
      hidden := hidden.(buttons := stillHidden);
    }

    method UsageFrame(now: Option<int>)
      requires |out| < ACTIONS_MAX
      modifies this
      ensures var e := ConsumerPart(old(Value()), now); Value() == e.state && out == old(out) + e.actions
    {
      var stillHidden := if now != hidden.consumer then None else hidden.consumer;
      if hosts.active.Some? {
        PushNotify(hosts.active.value, ConsumerKind, ConsumerReport(if now == stillHidden then None else now),
                   if input.consumer.Some? && now.None? then Release else Plain);
      }
      input := input.(consumer := now);
      hidden := hidden.(consumer := stillHidden);
    }

    method KeyboardFrame(now: Keys)
      requires out == [] && Distinct(now.keys)
      modifies this
      ensures Effect(Value(), out) == KeyboardPart(old(Value()), now)
    {
      var down, still := ApplySnapshot(input.keyboard, now, hidden.keyboard);
      var keys, added := SuppressVisibleAfter(still.keys, down.keys, 6);
      var hiddenKeys := still.(keys := keys);
      if hosts.active.Some? {
        PushNotify(hosts.active.value, KeyboardKind, KeyboardReport(Shown(down, hiddenKeys)),
                   if KeyReleased(input.keyboard, down) then Release else Plain);
      }
      input := input.(keyboard := down);
      hidden := hidden.(keyboard := hiddenKeys);
    }

    /** The actions that follow the choice of a target. */
    method AnnounceActive(target: int)
      requires Valid() && |out| <= 3
      modifies this`out
      ensures out == old(out) + ([ActivateInput(target)] + ActiveLeds(Value()) + [PersistProfiles])
    {
      ghost var leds := ActiveLeds(Value());
      Push(ActivateInput(target));
      ApplyActiveHostLeds();
      Push(PersistProfiles);
      assert out == old(out) + ([ActivateInput(target)] + leds + [PersistProfiles]);
    }

    /** Hides what is held and makes `target` active. */
    method ActivateTarget(target: int) returns (r: Option<BridgeError>)
      requires Valid() && |out| <= 3
      modifies this
      ensures r.Some? <==> Activate(old(hosts), target).Err?
      ensures r.Some? ==> r.value == BadHost(Activate(old(hosts), target).error)
      ensures r.None? ==>
        && Valid() && Value() == old(Value()).(hidden := old(input), hosts := Activate(old(hosts), target).value)
        && out == old(out) + ([ActivateInput(target)] + ActiveLeds(Value()) + [PersistProfiles])
    {
      hidden := input;
      ActivateChanges(hosts, target);
      var a := Activate(hosts, target);
      if a.Err? {
        return Some(BadHost(a.error));
      }
      hosts := a.value;
      AnnounceActive(target);
      r := None;
    }

    method TransitionBleTarget(target: int, release: Option<Reason>) returns (r: Option<BridgeError>)
      requires Valid() && out == []
      modifies this
      ensures r.Some? ==> Transition(old(Value()), target, release) == Failed(r.value)
      ensures r.None? ==> Valid() && Transition(old(Value()), target, release) == Done(Effect(Value(), out))
      ensures r.None? ==> |out| <= 13
    {
      if hosts.active == Some(target) {
        return None;
      }
      if hosts.active.Some? && release.Some? {
        PushReleaseReports(hosts.active.value, release.value);
      }
      assert out == ReleasesFor(old(Value()), release);
      r := ActivateTarget(target);
    }

    /** The actions that follow the removal of an entry. */
    method AnnounceCleared(host: int, bond: Option<StoredBond>, wasActive: bool)
      requires |out| + |sinks| + 3 <= ACTIONS_MAX
      modifies this`out
      ensures out == old(out) +
        ([ClearBond(host, bond), PersistProfiles] + (if wasActive then LedActions(sinks, 0) else []) + [Status(Value())])
    {
      ghost var leds := if wasActive then LedActions(sinks, 0) else [];
      Push(ClearBond(host, bond));
      Push(PersistProfiles);
      if wasActive {
        PushUsbKeyboardLeds(0);
      }
      PushStatus();
      assert out == old(out) + ([ClearBond(host, bond), PersistProfiles] + leds + [Status(Value())]);
    }

    /** The actions before the removal of an entry. */
    method EndSession(host: int)
      requires out == []
      modifies this`out, this`pairable
      ensures pairable == if old(pairable) == Some(host) then None else old(pairable)
      ensures out == (if hosts.active == Some(host) then ReleaseReports(hosts, host, SafetyRelease) else [])
                     + (if old(pairable) == Some(host) then [RejectPairing(host)] else [])
    {
      if hosts.active == Some(host) {
        PushReleaseReports(host, SafetyRelease);
      }
      if pairable == Some(host) {
        pairable := None;
        Push(RejectPairing(host));
      }
    }

    method ClearHostEntry(host: int)
      requires Valid() && out == []
      modifies this
      ensures Valid() && Effect(Value(), out) == Cleared(old(Value()), host)
    {
      RemoveKeepsShape(hosts, host);
      var wasActive := hosts.active == Some(host);
      var entry := Lookup(hosts, host);
      EndSession(host);
      ghost var first := out;
      hosts := Remove(hosts, host);
      if entry.Some? {
        AnnounceCleared(host, entry.value.bond, wasActive);
      }
      assert out == first + ClearActions(old(Value()), host);
      Regroup(if wasActive then ReleaseReports(old(hosts), host, SafetyRelease) else [],
              if old(pairable) == Some(host) then [RejectPairing(host)] else [], ClearActions(old(Value()), host));
    }

    method EmitDetachUpdates(host: int, before: Input)
      requires out == [] && hosts.active == Some(host) && Distinct(input.keyboard.keys)
      modifies this`hidden, this`out
      ensures hidden == HiddenAfterDetach(old(hidden), input)
      ensures out == DetachReports(hosts, host, before, input, hidden)
    {
      DetachKeyboard(host, before.keyboard);
      hidden := hidden.(buttons := hidden.buttons * input.buttons);
      if before.buttons != input.buttons {
        PushNotify(host, MouseKind, MouseReport(input.buttons - hidden.buttons, NO_MOVEMENT), RemovalRelease);
      }
      DetachConsumer(host, before.consumer);
    }

    method DetachKeyboard(host: int, before: Keys)
      requires out == []
      modifies this`hidden, this`out
      ensures hidden == old(hidden).(keyboard := StillHidden(old(hidden).keyboard, input.keyboard))
      ensures out == if before != input.keyboard
        then NotifyIfReady(hosts, host, KeyboardKind, KeyboardReport(Shown(input.keyboard, hidden.keyboard)), RemovalRelease)
        else []
    {
      var stillKeys := RetainKeys(hidden.keyboard.keys, input.keyboard.keys);
      hidden := hidden.(keyboard := Keys(hidden.keyboard.modifiers * input.keyboard.modifiers, stillKeys));
      if before != input.keyboard {
        PushNotify(host, KeyboardKind, KeyboardReport(Shown(input.keyboard, hidden.keyboard)), RemovalRelease);
      }
    }

    method DetachConsumer(host: int, before: Option<int>)
      requires |out| < ACTIONS_MAX
      modifies this`hidden, this`out
      ensures hidden == old(hidden).(consumer := StillHiddenUsage(old(hidden).consumer, input.consumer))
      ensures out == old(out) + if before != input.consumer
        then NotifyIfReady(hosts, host, ConsumerKind, ConsumerReport(input.consumer), RemovalRelease) else []
    {
      if input.consumer != hidden.consumer {
        hidden := hidden.(consumer := None);
      }
      if before != input.consumer {
        PushNotify(host, ConsumerKind, ConsumerReport(input.consumer), RemovalRelease);
      }
    }

    /** All devices' input without the one that went away. */
    method ReplaceInput(aggregate: Input)
      requires out == [] && Distinct(aggregate.keyboard.keys)
      modifies this
      ensures Effect(Value(), out) == Detached(old(Value()), aggregate)
    {
      var before := input;
      input := aggregate;
      if hosts.active.Some? {
        EmitDetachUpdates(hosts.active.value, before);
      }
    }

    /** A change of one host's entry. */
    method ChangeHost(host: int, c: HostChange) returns (r: Option<BridgeError>)
      requires Valid() && out == []
      modifies this
      ensures r.Some? ==> Touch(old(hosts), host, c).Err? && r.value == BadHost(Touch(old(hosts), host, c).error)
      ensures r.None? ==>
        && Valid() && Touch(old(hosts), host, c) == Ok(hosts) && Value() == old(Value()).(hosts := hosts)
        && out == if Persists(HostOrNew(old(hosts), host), c) then [PersistProfiles] else []
    {
      TouchChanges(hosts, host, c);
      var persist := Persists(HostOrNew(hosts, host), c);
      var t := Touch(hosts, host, c);
      if t.Err? {
        return Some(BadHost(t.error));
      }
      hosts := t.value;
      if persist {
        Push(PersistProfiles);
      }
      r := None;
    }

    method HostDisconnects(host: int) returns (r: Option<BridgeError>)
      requires Valid() && out == []
      modifies this
      ensures r.Some? ==> Disconnected(old(Value()), host) == Failed(r.value)
      ensures r.None? ==> Valid() && Disconnected(old(Value()), host) == Done(Effect(Value(), out))
    {
      var fallback := hosts.active == Some(host) && CanSend(hosts, host, KeyboardKind);
      r := ChangeHost(host, Disconnect);
      TouchChanges(old(hosts), host, Disconnect);
      assert Value() == Unlinked(old(Value()), host) && out == [];
      if fallback {
        var next := NextTarget(hosts, Some(host), Able(KeyboardKind));
        if next.Some? {
          r := TransitionBleTarget(next.value, None);
          if r.None? {
            PushStatus();
          }
          return;
        }
      }
      PushStatus();
    }

    method HostSecures(host: int, encrypted: bool, bonded: bool, bond: Option<StoredBond>) returns (r: Option<BridgeError>)
      requires Valid() && out == []
      modifies this
      ensures r.Some? ==> Bridge.Secured(old(Value()), host, encrypted, bonded, bond) == Failed(r.value)
      ensures r.None? ==> Valid() && Bridge.Secured(old(Value()), host, encrypted, bonded, bond) == Done(Effect(Value(), out))
    {
      r := ChangeHost(host, Secure(encrypted, bonded, bond));
      if r.Some? {
        return;
      }
      if bonded && pairable == Some(host) {
        pairable := None;
        Push(RejectPairing(host));
      }
      PushStatus();
    }

    method ConnectInterface(sink: Sink) returns (r: Option<BridgeError>)
      requires Valid() && out == []
      modifies this
      ensures r.Some? ==> Registered(old(Value()), sink) == Failed(r.value)
      ensures r.None? ==> Valid() && Registered(old(Value()), sink) == Done(Effect(Value(), out))
    {
      var i := SinkIndex(sinks, sink.interface);
      if i >= 0 {
        sinks := sinks[i := sink];
      } else if |sinks| < SINKS_MAX {
        sinks := sinks + [sink];
      } else {
        return Some(SinkCapacity);
      }
      ApplyActiveHostLeds();
      r := None;
    }

    /** The aggregated keyboards list no key twice. */
    ghost predicate WellShaped(e: Event) {
      match e
      case InputFrame(keyboard, _, _) => keyboard.Some? ==> Distinct(keyboard.value.keys)
      case InterfaceRemoved(_, aggregate) => Distinct(aggregate.keyboard.keys)
      case DeviceReset(aggregate) => aggregate.Some? ==> Distinct(aggregate.value.keyboard.keys)
      case _ => true
    }

    method HandleInPlace(e: Event) returns (r: Option<BridgeError>)
      requires Valid() && out == [] && WellShaped(e)
      modifies this
      ensures r.Some? ==> Handle(old(Value()), e) == Failed(r.value)
      ensures r.None? ==> Valid() && Handle(old(Value()), e) == Done(Effect(Value(), out))
    {
      r := None;
      match e {
        case InputFrame(keyboard, mouse, consumer) => HandleInputFrame(keyboard, mouse, consumer);
        case VendorFrame =>
        case HostDisconnected(host) => r := HostDisconnects(host);
        case HostSecurityChanged(host, encrypted, bonded, bond) => r := HostSecures(host, encrypted, bonded, bond);
        case InterfaceConnected(interface, device, shows) => r := ConnectInterface(Sink(interface, device, shows));
        case HostConnected(_) => r := HandleHostChange(e);
        case CccdChanged(_, _, _) => r := HandleHostChange(e);
        case SetHostName(_, _) => r := HandleHostChange(e);
        case HostLedsChanged(host, leds) =>
          r := ChangeHost(host, Leds(leds));
          TouchChanges(old(hosts), host, Leds(leds));
          if r.None? && hosts.active == Some(host) {
            PushUsbKeyboardLeds(leds);
          }
        case EnterPairingMode(_) => HandlePairing(e);
        case PairingModeExpired(_) => HandlePairing(e);
        case ClearHost(host) => ClearHostEntry(host);
        case SwitchTarget(host) =>
          r := TransitionBleTarget(host, Some(SwitchRelease));
          if r.None? {
            PushStatus();
          }
        case InterfaceRemoved(interface, aggregate) =>
          sinks := Unregistered(sinks, interface);
          ReplaceInput(aggregate);
          PushStatus();
        case DeviceReset(aggregate) =>
          if aggregate.Some? {
            ReplaceInput(aggregate.value);
          }
      }
    }

    method HandleHostChange(e: Event) returns (r: Option<BridgeError>)
      requires Valid() && out == [] && (e.HostConnected? || e.CccdChanged? || e.SetHostName?)
      modifies this
      ensures r.Some? ==> Handle(old(Value()), e) == Failed(r.value)
      ensures r.None? ==> Valid() && Handle(old(Value()), e) == Done(Effect(Value(), out))
    {
      var c := match e
        case CccdChanged(_, k, enabled) => Cccd(k, enabled)
        case SetHostName(_, name) => Rename(name)
        case _ => Connect;
      r := ChangeHost(e.host, c);
      if r.None? {
        PushStatus();
      }
    }

    method HandlePairing(e: Event)
      requires Valid() && out == [] && (e.EnterPairingMode? || e.PairingModeExpired?)
      modifies this
      ensures Valid() && Handle(old(Value()), e) == Done(Effect(Value(), out))
    {
      if e.EnterPairingMode? {
        var previous := pairable;
        pairable := Some(e.host);
        if previous.Some? && previous.value != e.host {
          Push(RejectPairing(previous.value));
        }
        Push(AllowPairing(e.host));
        PushStatus();
      } else if pairable == Some(e.host) {
        pairable := None;
        Push(RejectPairing(e.host));
        PushStatus();
      }
    }

    /** The public entry: an event that fails leaves no trace. */
    method HandleEvent(e: Event) returns (r: Option<BridgeError>)
      requires Valid() && WellShaped(e)
      modifies this
      ensures Valid()
      ensures r.Some? ==> Handle(old(Value()), e) == Failed(r.value) && Value() == old(Value()) && out == old(out)
      ensures r.None? ==> Handle(old(Value()), e) == Done(Effect(Value(), out))
    {
      var saved, savedOut := Value(), out;
      out := [];
      r := HandleInPlace(e);
      if r.Some? {
        input, hidden, sinks, hosts, pairable := saved.input, saved.hidden, saved.sinks, saved.hosts, saved.pairable;
        out := savedOut;
      }
    }
  }
}
