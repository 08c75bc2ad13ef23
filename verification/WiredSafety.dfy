/** No report reaches the wired computer while a presentation is requested and
    not confirmed. */
module WiredSafety {
  import opened Options
  import opened WiredPresentation

  // ---------------------------------------------------------------- invariant

  /** The active target is the selected one, exactly while it is ready; and an
      open request for the wired computer keeps it from being ready. */
  predicate Safe(s: State) {
    && (s.output.active.Some? ==> s.output.active.value == s.output.selected)
    && (s.output.active.Some? <==> s.output.availability.Ready?)
    && (s.output.selected.Wired? && s.pending ==> !s.wired.Ready? && s.output.active.None?)
    && |s.registry| == SLOTS
  }

  lemma SwitchIsSafe(s: State, t: Target, release: bool, links: Links)
    requires Safe(s)
    ensures Safe(SwitchTo(s, t, release, links).state)
  {
  }

  lemma UsbStateIsSafe(s: State, u: UsbState)
    requires Safe(s)
    ensures Safe(OnUsbState(s, u).state)
  {
  }

  lemma AcceptedIsSafe(s: State, slot: nat, c: Candidate)
    requires Safe(s)
    ensures Safe(Accepted(s, slot, c).state)
  {
  }

  lemma ReconcileIsSafe(s: State)
    requires Safe(s)
    ensures Safe(Reconcile(s).state)
  {
  }

  /** Inputs about the mirror candidates and their devices. */
  predicate AboutMirrors(i: Input) {
    || i.CandidateRegistered? || i.CandidateCleared? || i.ProfileAnswered? || i.SourceGone?
    || i.DeviceArrived? || i.DeviceLeft? || i.MirrorChosen? || i.MirrorCleared?
  }

  lemma BeginIsSafe(s: State, target: Option<nat>)
    requires Safe(s)
    ensures Safe(BeginIfWired(s, target).state)
  {
  }

  lemma RegisteredIsSafe(s: State, slot: nat, c: Candidate)
    requires Safe(s)
    ensures Safe(OnRegistered(s, slot, c).state)
  {
    AcceptedIsSafe(s.(waiting := None), slot, c);
  }

  lemma ProfileIsSafe(s: State, r: ProfileResult)
    requires Safe(s)
    ensures Safe(OnProfile(s, r).state)
  {
    if s.waiting.Some? {
      AcceptedIsSafe(s.(lastResult := Some(r), waiting := None), s.waiting.value.slot, s.waiting.value.candidate);
    }
  }

  lemma ClearedIsSafe(s: State, slot: nat)
    requires Safe(s)
    ensures Safe(OnCleared(s, slot).state)
  {
    BeginIsSafe(s.(registry := Cleared(s.registry, slot), waiting := None), None);
  }

  lemma SourceGoneIsSafe(s: State, d: int)
    requires Safe(s)
    ensures Safe(OnSourceGone(s, d).state)
  {
    var drop := s.waiting.Some? && s.waiting.value.candidate.source == Some(d);
    ReconcileIsSafe(s.(registry := WithoutSource(s.registry, d), waiting := if drop then None else s.waiting));
  }

  /** Inputs about the devices plugged in and about the chosen mirror. */
  predicate AboutDevices(i: Input) {
    i.DeviceArrived? || i.DeviceLeft? || i.MirrorChosen? || i.MirrorCleared?
  }

  lemma DeviceStepIsSafe(s: State, i: Input)
    requires Safe(s) && AboutDevices(i)
    ensures Safe(Step(s, i).state)
  {
    match i
    case DeviceArrived(d) => ReconcileIsSafe(s.(devices := s.devices + {d}));
    case DeviceLeft(d) => ReconcileIsSafe(s.(devices := s.devices - {d}, registry := WithoutSource(s.registry, d)));
    case MirrorChosen(slot) =>
      var s1 := s.(setting := StableAt(s, slot));
      BeginIsSafe(s1, Effective(s1));
    case MirrorCleared => BeginIsSafe(s.(setting := None), None);
  }

  lemma MirrorStepIsSafe(s: State, i: Input)
    requires Safe(s) && AboutMirrors(i)
    ensures Safe(Step(s, i).state)
  {
    if AboutDevices(i) {
      DeviceStepIsSafe(s, i);
    } else {
      match i
      case CandidateRegistered(slot, c) => RegisteredIsSafe(s, slot, c);
      case ProfileAnswered(r) => ProfileIsSafe(s, r);
      case CandidateCleared(slot) => ClearedIsSafe(s, slot);
      case SourceGone(d) => SourceGoneIsSafe(s, d);
    }
  }

  lemma StepIsSafe(s: State, i: Input)
    requires Safe(s)
    ensures Safe(Step(s, i).state)
  {
    if AboutMirrors(i) {
      MirrorStepIsSafe(s, i);
    } else {
      match i
      case LinkLost(h, links, fallback) =>
        if fallback.Some? { SwitchIsSafe(Refreshed(s, links), fallback.value, false, links); }
      case SelectTarget(t, links) => SwitchIsSafe(s, t, true, links);
      case UsbStateReported(u) => UsbStateIsSafe(s, u);
      case _ =>
    }
  }

  // ------------------------------------------------------------------ monitor

  /** Whether the commands keep the rule: no report between a request and its
      confirmation. */
  predicate Allowed(open: bool, commands: seq<DeviceCommand>)
    decreases |commands|
  {
    commands == [] ||
    match commands[0]
    case StandardReport => !open && Allowed(open, commands[1..])
    case RawEndpointIn => !open && Allowed(open, commands[1..])
    case ActivateFallback(_) => Allowed(true, commands[1..])
    case ActivateMirror(_, _) => Allowed(true, commands[1..])
    case _ => Allowed(open, commands[1..])
  }

  predicate OpenAfter(open: bool, commands: seq<DeviceCommand>)
    decreases |commands|
  {
    if commands == [] then open
    else OpenAfter(open || commands[0].ActivateFallback? || commands[0].ActivateMirror?, commands[1..])
  }

  /** A USB state confirms when the chip is available and shows what is expected. */
  predicate Confirms(s: State, i: Input) {
    i.UsbStateReported? && Available(i.usb) && Shows(i.usb, HashAt(s, Expected(s)))
  }

  lemma {:induction false} ReportsOnly(commands: seq<DeviceCommand>)
    requires forall i :: 0 <= i < |commands| ==> commands[i].StandardReport?
    ensures Allowed(false, commands) && !OpenAfter(false, commands)
    decreases |commands|
  {
    if commands != [] {
      ReportsOnly(commands[1..]);
    }
  }

  lemma {:induction false} ReportsThen(open: bool, reports: seq<DeviceCommand>, last: DeviceCommand)
    requires forall i :: 0 <= i < |reports| ==> reports[i].StandardReport?
    requires open ==> reports == []
    requires !last.StandardReport? && !last.RawEndpointIn?
    ensures Allowed(open, reports + [last])
    decreases |reports|
  {
    if reports == [] {
      assert reports + [last] == [last];
    } else {
      assert (reports + [last])[1..] == reports[1..] + [last];
      ReportsThen(false, reports[1..], last);
    }
  }

  /** An open request is known to the runtime as pending. */
  predicate Tracks(s: State, open: bool) {
    open ==> s.pending
  }

  lemma SwitchIsAllowed(s: State, t: Target, release: bool, links: Links, open: bool)
    requires Safe(s) && Tracks(s, open)
    ensures var r := SwitchTo(s, t, release, links);
      Allowed(open, r.commands) && Tracks(r.state, OpenAfter(open, r.commands))
  {
    if ValidTarget(t) && s.output.selected != t {
      var releases := if release && s.output.active == Some(Wired) then WiredReports(s, 3) else [];
      var o := Select(s.output, t);
      ReportsThen(open, releases, if t.Wired? then Activation(o.operation, HashAt(s, Effective(s))) else ActivateFallback(o.operation));
    }
  }

  lemma WiredAvailabilityAllowed(s: State, a: Availability, open: bool)
    requires Tracks(s, open)
    ensures var r := WiredAvailability(s, a);
      Allowed(open, r.commands) && OpenAfter(open, r.commands) == open && r.state.pending == s.pending
  {
    var r := WiredAvailability(s, a);
    if r.commands != [] {
      ReportsOnly(r.commands);
    }
  }

  lemma UsbStateIsAllowed(s: State, u: UsbState, open: bool)
    requires Safe(s) && Tracks(s, open)
    ensures var r := OnUsbState(s, u);
      var heard := open && !Confirms(s, UsbStateReported(u));
      Allowed(heard, r.commands) && Tracks(r.state, OpenAfter(heard, r.commands))
  {
    if !Available(u) {
      WiredAvailabilityAllowed(s.(mirror := None), if u.healthy && u.attached then ConnectedNotReady else Unavailable, open);
    } else {
      var expected := Expected(s);
      if Shows(u, HashAt(s, expected)) {
        WiredAvailabilityAllowed(s.(pending := false, transition := None,
                                    mirror := if s.output.selected.Wired? then expected else None), Ready, false);
      } else {
        var s1 := s.(pending := true, transition := expected, mirror := None);
        assert WiredAvailability(s1, ConnectedNotReady).commands == [];
        ReportsThen(open, [], Activation(WiredAvailability(s1, ConnectedNotReady).state.output.operation, HashAt(s, expected)));
      }
    }
  }

  lemma BeginIsAllowed(s: State, target: Option<nat>, open: bool)
    requires Tracks(s, open)
    ensures var r := BeginIfWired(s, target);
      Allowed(open, r.commands) && Tracks(r.state, OpenAfter(open, r.commands))
  {
    var r := BeginIfWired(s, target);
    if r.commands != [] {
      assert r.commands[1..][1..] == [];
    }
  }

  lemma {:induction false} AllowedAppend(open: bool, a: seq<DeviceCommand>, b: seq<DeviceCommand>)
    requires Allowed(open, a) && Allowed(OpenAfter(open, a), b)
    ensures Allowed(open, a + b) && OpenAfter(open, a + b) == OpenAfter(OpenAfter(open, a), b)
    decreases |a|
  {
    if a == [] {
      assert a + b == b;
    } else {
      assert (a + b)[1..] == a[1..] + b;
      AllowedAppend(open || a[0].ActivateFallback? || a[0].ActivateMirror?, a[1..], b);
    }
  }

  lemma AcceptedIsAllowed(s: State, slot: nat, c: Candidate, open: bool)
    requires Tracks(s, open)
    ensures var r := Accepted(s, slot, c); Allowed(open, r.commands) && Tracks(r.state, OpenAfter(open, r.commands))
  {
    var s1 := Registered(s, slot, c);
    var a := if Effective(s1) == Some(slot) then BeginIfWired(s1, Some(slot)) else Outcome(s1, []);
    BeginIsAllowed(s1, Some(slot), open);
    if Replaces(s, slot, c) {
      BeginIsAllowed(a.state, None, OpenAfter(open, a.commands));
      AllowedAppend(open, a.commands, BeginIfWired(a.state, None).commands);
    }
  }

  lemma FrameIsAllowed(s: State, n: nat, open: bool)
    requires Safe(s) && Tracks(s, open)
    ensures Allowed(open, OnFrame(s, n).commands) && OpenAfter(open, OnFrame(s, n).commands) == open
    ensures Allowed(open, OnRealtimeFrame(s, n).commands) && OpenAfter(open, OnRealtimeFrame(s, n).commands) == open
  {
    if OnFrame(s, n).commands != [] {
      ReportsOnly(OnFrame(s, n).commands);
    }
    if OnRealtimeFrame(s, n).commands != [] {
      ReportsOnly(OnRealtimeFrame(s, n).commands);
    }
  }

  lemma RegisteredIsAllowed(s: State, slot: nat, c: Candidate, open: bool)
    requires Tracks(s, open)
    ensures var r := OnRegistered(s, slot, c); Allowed(open, r.commands) && Tracks(r.state, OpenAfter(open, r.commands))
  {
    AcceptedIsAllowed(s.(waiting := None), slot, c, open);
  }

  lemma ProfileIsAllowed(s: State, p: ProfileResult, open: bool)
    requires Tracks(s, open)
    ensures var r := OnProfile(s, p); Allowed(open, r.commands) && Tracks(r.state, OpenAfter(open, r.commands))
  {
    if s.waiting.Some? {
      AcceptedIsAllowed(s.(lastResult := Some(p), waiting := None), s.waiting.value.slot, s.waiting.value.candidate, open);
    }
  }

  lemma ClearedIsAllowed(s: State, slot: nat, open: bool)
    requires Tracks(s, open)
    ensures var r := OnCleared(s, slot); Allowed(open, r.commands) && Tracks(r.state, OpenAfter(open, r.commands))
  {
    BeginIsAllowed(s.(registry := Cleared(s.registry, slot), waiting := None), None, open);
  }

  lemma SourceGoneIsAllowed(s: State, d: int, open: bool)
    requires Tracks(s, open)
    ensures var r := OnSourceGone(s, d); Allowed(open, r.commands) && Tracks(r.state, OpenAfter(open, r.commands))
  {
    var drop := s.waiting.Some? && s.waiting.value.candidate.source == Some(d);
    ReconcileIsAllowed(s.(registry := WithoutSource(s.registry, d), waiting := if drop then None else s.waiting), open);
  }

  lemma DeviceStepIsAllowed(s: State, i: Input, open: bool)
    requires Tracks(s, open) && AboutDevices(i)
    ensures Allowed(open, Step(s, i).commands) && Tracks(Step(s, i).state, OpenAfter(open, Step(s, i).commands))
  {
    match i
    case DeviceArrived(d) => ReconcileIsAllowed(s.(devices := s.devices + {d}), open);
    case DeviceLeft(d) => ReconcileIsAllowed(s.(devices := s.devices - {d}, registry := WithoutSource(s.registry, d)), open);
    case MirrorChosen(slot) =>
      var s1 := s.(setting := StableAt(s, slot));
      BeginIsAllowed(s1, Effective(s1), open);
    case MirrorCleared => BeginIsAllowed(s.(setting := None), None, open);
  }

  lemma MirrorStepIsAllowed(s: State, i: Input, open: bool)
    requires Tracks(s, open) && AboutMirrors(i)
    ensures Allowed(open, Step(s, i).commands) && Tracks(Step(s, i).state, OpenAfter(open, Step(s, i).commands))
  {
    if AboutDevices(i) {
      DeviceStepIsAllowed(s, i, open);
    } else {
      match i
      case CandidateRegistered(slot, c) => RegisteredIsAllowed(s, slot, c, open);
      case CandidateCleared(slot) => ClearedIsAllowed(s, slot, open);
      case ProfileAnswered(r) => ProfileIsAllowed(s, r, open);
      case SourceGone(d) => SourceGoneIsAllowed(s, d, open);
    }
  }

  lemma ReconcileIsAllowed(s: State, open: bool)
    requires Tracks(s, open)
    ensures var r := Reconcile(s); Allowed(open, r.commands) && Tracks(r.state, OpenAfter(open, r.commands))
  {
    BeginIsAllowed(s, Effective(s), open);
  }

  /** One input keeps the rule. */
  lemma StepIsAllowed(s: State, i: Input, open: bool)
    requires Safe(s) && Tracks(s, open)
    ensures var heard := open && !Confirms(s, i);
      Allowed(heard, Step(s, i).commands) && Tracks(Step(s, i).state, OpenAfter(heard, Step(s, i).commands))
  {
    if AboutMirrors(i) {
      MirrorStepIsAllowed(s, i, open);
    } else {
      match i
      case LinkLost(h, links, fallback) =>
        if fallback.Some? { SwitchIsSafeAndAllowed(s, links, fallback.value, open); }
      case SelectTarget(t, links) => SwitchIsAllowed(s, t, true, links, open);
      case AvailabilityReported(a) =>
        WiredAvailabilityAllowed(s, if a.Ready? && s.pending then ConnectedNotReady else a, open);
      case UsbStateReported(u) => UsbStateIsAllowed(s, u, open);
      case StandardFrame(n) => FrameIsAllowed(s, n, open);
      case RealtimeFrame(n) => FrameIsAllowed(s, n, open);
      case EndpointIn(d, standard) => if standard.Some? { FrameIsAllowed(s, standard.value, open); }
      case _ =>
    }
  }

  lemma SwitchIsSafeAndAllowed(s: State, links: Links, t: Target, open: bool)
    requires Safe(s) && Tracks(s, open)
    ensures var r := SwitchTo(Refreshed(s, links), t, false, links);
      Allowed(open, r.commands) && Tracks(r.state, OpenAfter(open, r.commands))
  {
    SwitchIsAllowed(Refreshed(s, links), t, false, links, open);
  }

  // --------------------------------------------------------------------- runs

  function Run(start: State, inputs: seq<Input>): State {
    if inputs == [] then start else Step(Run(start, inputs[..|inputs| - 1]), inputs[|inputs| - 1]).state
  }

  /** Whether a request is open after the inputs. */
  predicate Open(start: State, inputs: seq<Input>) {
    inputs != [] &&
    var before, last := inputs[..|inputs| - 1], inputs[|inputs| - 1];
    var s := Run(start, before);
    OpenAfter(Open(start, before) && !Confirms(s, last), Step(s, last).commands)
  }

  /** In every run after the boot restore: the active target is the selected one
      exactly while it is ready, a pending request for the wired computer leaves
      nothing active, and no report is sent between a request and the USB state
      that confirms it. */
  lemma {:induction false} HandshakeIsSafe(selected: Target, setting: Option<int>, inputs: seq<Input>, next: Input)
    ensures var start := Booted(selected, setting);
      var s, open := Run(start, inputs), Open(start, inputs);
      && Safe(s) && Tracks(s, open)
      && Allowed(open && !Confirms(s, next), Step(s, next).commands)
    decreases |inputs|
  {
    var start := Booted(selected, setting);
    if inputs != [] {
      var before, last := inputs[..|inputs| - 1], inputs[|inputs| - 1];
      HandshakeIsSafe(selected, setting, before, last);
      StepIsSafe(Run(start, before), last);
      StepIsAllowed(Run(start, before), last, Open(start, before));
    }
    StepIsAllowed(Run(start, inputs), next, Open(start, inputs));
  }
}
