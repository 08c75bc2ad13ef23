/** The handshake's state as objects that change in place. */
module WiredMachine {
  import opened Options
  import opened WiredPresentation

  class OutputTargetState {
    var selected: Target
    var active: Option<Target>
    var availability: Availability
    var operation: nat

    function Value(): Output
      reads this
    {
      Output(selected, active, availability, operation)
    }

    constructor ()
      ensures Value() == Output(Wired, None, Unavailable, 0)
    {
      selected, active, availability, operation := Wired, None, Unavailable, 0;
    }

    method SelectTarget(t: Target) returns (r: Option<nat>)
      modifies this
      ensures r.Some? <==> ValidTarget(t)
      ensures Value() == if r.Some? then Select(old(Value()), t) else old(Value())
      ensures r.Some? ==> r.value == operation
    {
      if !ValidTarget(t) {
        return None;
      }
      selected := t;
      active := None;
      availability := Unavailable;
      operation := (operation + 1) % WRAP;
      r := Some(operation);
    }

    method ReportAvailability(a: Availability)
      modifies this
      ensures Value() == SetAvailability(old(Value()), a)
    {
      availability := a;
      match a
      case Ready => active := Some(selected);
      case ConnectedNotReady => active := None;
      case Unavailable => active := None;
    }

    method StartTransition() returns (op: nat)
      modifies this
      ensures Value() == BeginTransition(old(Value())) && op == operation
    {
      active := None;
      availability := ConnectedNotReady;
      operation := (operation + 1) % WRAP;
      op := operation;
    }
  }

  class WiredRuntime {
    const target: OutputTargetState
    var wired: Availability
    var pending: bool
    var transition: Option<nat>
    var mirror: Option<nat>
    var registry: seq<Option<Candidate>>
    var setting: Option<int>
    var devices: set<int>
    var lastResult: Option<ProfileResult>
    var waiting: Option<Waiting>
    var commands: seq<DeviceCommand>

    function Value(): State
      reads this, target
    {
      State(target.Value(), wired, pending, transition, mirror, registry, setting, devices, lastResult, waiting)
    }

    constructor ()
      ensures Value() == Booted(Wired, None) && commands == [] && fresh(target)
    {
      target := new OutputTargetState();
      wired, pending, transition, mirror := Unavailable, false, None, None;
      registry, setting, devices, lastResult, waiting := [None, None, None, None], None, {}, None, None;
      commands := [];
    }

    method BeginPresentationTransition(slot: Option<nat>)
      requires slot.Some? ==> HashAt(Value(), slot).Some?
      modifies this, target
      ensures var r := Begin(old(Value()), slot); Value() == r.state && commands == old(commands) + r.commands
    {
      var hash := HashAt(Value(), slot);
      wired := ConnectedNotReady;
      var op := target.StartTransition();
      pending := true;
      transition := slot;
      commands := commands + [ReleaseAll];
      commands := commands + [Activation(op, hash)];
    }

    method ReconcileWiredPresentation()
      modifies this, target
      ensures var r := Reconcile(old(Value())); Value() == r.state && commands == old(commands) + r.commands
    {
      if !target.selected.Wired? {
        return;
      }
      var desired := Effective(Value());
      var current := if pending then transition else mirror;
      if current != desired {
        BeginPresentationTransition(desired);
      }
    }

    method WiredAvailabilityChanged(a: Availability)
      modifies this, target
      ensures var r := WiredAvailability(old(Value()), a); Value() == r.state && commands == old(commands) + r.commands
    {
      wired := a;
      if target.selected.Wired? {
        target.ReportAvailability(a);
        if a.Ready? && !pending {
          commands := commands + Reports(3);
        }
      }
    }

    method DeviceUsbState(u: UsbState)
      requires commands == []
      modifies this, target
      ensures Outcome(Value(), commands) == OnUsbState(old(Value()), u)
    {
      if !(u.healthy && u.attached && u.configured) {
        mirror := None;
        WiredAvailabilityChanged(if u.healthy && u.attached then ConnectedNotReady else Unavailable);
        return;
      }
      var expected := if pending then transition else if target.selected.Wired? then Effective(Value()) else None;
      var hash := HashAt(Value(), expected);
      var matches := if hash.Some? then !u.fallback && u.hash == hash.value else u.fallback;
      if matches {
        pending := false;
        transition := None;
        mirror := if target.selected.Wired? then expected else None;
        WiredAvailabilityChanged(Ready);
      } else {
        pending := true;
        transition := expected;
        mirror := None;
        WiredAvailabilityChanged(ConnectedNotReady);
        commands := commands + [Activation(target.operation, hash)];
      }
    }
  }
}
