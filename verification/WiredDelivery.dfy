/** What the handshake lets through: reports do reach the wired computer while it is
    active, an honest second chip makes it active, and every request carries the
    number of the present operation. */
module WiredDelivery {
  import opened Options
  import opened WiredPresentation
  import opened WiredSafety
  import opened WiredExact

  // ----------------------------------------------------------------- delivery

  predicate OnlyReports(commands: seq<DeviceCommand>, n: nat) {
    |commands| == n && forall i :: 0 <= i < n ==> commands[i].StandardReport?
  }

  lemma SafeDelivers(s: State, n: nat)
    requires Safe(s)
    ensures var active := s.output.active == Some(Wired);
      && OnlyReports(Step(s, StandardFrame(n)).commands, if active then n else 0)
      && OnlyReports(Step(s, RealtimeFrame(n)).commands, if active && s.mirror.None? then n else 0)
  {
  }

  lemma SafeForwards(s: State, d: int, standard: Option<nat>)
    requires Safe(s)
    ensures var slot := s.mirror;
      var mirrored := s.output.active == Some(Wired) && slot.Some? && slot.value < |s.registry|
                      && s.registry[slot.value].Some? && s.registry[slot.value].value.source == Some(d);
      && (Step(s, EndpointIn(d, standard)).commands == [RawEndpointIn] <==> mirrored)
      && (!mirrored && standard.Some? ==>
            Step(s, EndpointIn(d, standard)).commands == Step(s, RealtimeFrame(standard.value)).commands)
  {
    if standard.Some? {
      ReportsAreNotRaw(standard.value);
    }
  }

  lemma ReportsAreNotRaw(n: nat)
    ensures Reports(n) != [RawEndpointIn]
  {
    if n == 1 {
      assert Reports(n)[0] == StandardReport;
    }
  }

  /** Over every run after boot, all reports of a frame go out while the wired
      computer is active, and none otherwise; raw reports go out exactly from the
      device that is mirrored, and then the standard ones do not. */
  lemma ReportsGoOut(selected: Target, setting: Option<int>, inputs: seq<Input>, n: nat, d: int)
    ensures var s := Run(Booted(selected, setting), inputs);
      var active := s.output.active == Some(Wired);
      && OnlyReports(Step(s, StandardFrame(n)).commands, if active then n else 0)
      && OnlyReports(Step(s, RealtimeFrame(n)).commands, if active && s.mirror.None? then n else 0)
      && (Step(s, EndpointIn(d, None)).commands == [RawEndpointIn] ==> active && s.mirror.Some?)
  {
    HandshakeIsSafe(selected, setting, inputs, Elsewhere);
    var s := Run(Booted(selected, setting), inputs);
    SafeDelivers(s, n);
    SafeForwards(s, d, None);
  }

  // ------------------------------------------------------------- confirmation

  /** A USB state that shows what was asked for ends the request: a selected wired
      computer is active at once, with the presentation that was asked for, and gets
      three neutral reports. Any other answer of a healthy chip repeats the request. */
  lemma AnswerActivates(s: State, asked: Asked, u: UsbState)
    requires Safe(s) && Matches(s, asked) && asked.Some? && Available(u)
    ensures var r := Step(s, UsbStateReported(u));
      if Shows(u, asked.value) then
        && !r.state.pending
        && (s.output.selected.Wired? ==>
              && r.state.output.active == Some(Wired) && HashAt(r.state, r.state.mirror) == asked.value
              && OnlyReports(r.commands, 3))
        && (s.output.selected.Ble? ==> r.commands == [])
      else
        && r.state.pending && AskedAfter(None, r.commands) == asked && r.state.output.active != Some(Wired)
  {
    ActivationAsks(None, s.output.operation, asked.value);
  }

  /** Over every run after boot that loses no request, an honest chip is enough to
      make the selected wired computer active. */
  lemma HonestChipActivates(selected: Target, setting: Option<int>, inputs: seq<Input>, u: UsbState)
    requires NeverLoses(Booted(selected, setting), inputs) && Available(u)
    requires var asked := AskedIn(Booted(selected, setting), inputs); asked.Some? && Shows(u, asked.value)
    requires Run(Booted(selected, setting), inputs).output.selected.Wired?
    ensures var s := Run(Booted(selected, setting), inputs);
      var r := Step(s, UsbStateReported(u));
      && r.state.output.active == Some(Wired) && !r.state.pending
      && HashAt(r.state, r.state.mirror) == AskedIn(Booted(selected, setting), inputs).value
  {
    HandshakeIsSafe(selected, setting, inputs, Elsewhere);
    RunMatches(selected, setting, inputs);
    AnswerActivates(Run(Booted(selected, setting), inputs), AskedIn(Booted(selected, setting), inputs), u);
  }

  // ------------------------------------------------------- releases, requests

  /** Leaving the active wired computer releases it with three neutral reports before
      the fallback is asked for. */
  lemma LeavingReleases(s: State, t: Target, links: Links)
    requires Safe(s) && s.output.active == Some(Wired) && ValidTarget(t) && t != Wired
    ensures var r := Step(s, SelectTarget(t, links));
      && |r.commands| == 4 && OnlyReports(r.commands[..3], 3) && r.commands[3] == ActivateFallback(r.state.output.operation)
      && r.state.output.selected == t
  {
  }

  /** Coming back asks for the presentation that is wanted, and nothing is active
      until it is confirmed. */
  lemma ComingBackAsks(s: State, links: Links)
    requires Safe(s) && s.output.selected.Ble?
    ensures var r := Step(s, SelectTarget(Wired, links));
      && AskedAfter(None, r.commands) == Some(HashAt(s, Effective(s)))
      && r.state.output.selected == Wired && r.state.pending && r.state.output.active.None?
  {
    ActivationAsks(None, Select(s.output, Wired).operation, HashAt(s, Effective(s)));
    assert [] + [Activation(Select(s.output, Wired).operation, HashAt(s, Effective(s)))]
           == [Activation(Select(s.output, Wired).operation, HashAt(s, Effective(s)))];
  }

  /** The slot is the only one with the chosen identity, and a physical device is
      mirrored only while it is alone. */
  predicate WantedIs(s: State, slot: nat) {
    && slot < |s.registry| && s.registry[slot].Some? && s.setting == Some(s.registry[slot].value.stable)
    && (forall j :: 0 <= j < |s.registry| && j != slot && s.registry[j].Some? ==>
          s.registry[j].value.stable != s.registry[slot].value.stable)
    && (s.registry[slot].value.source.None? || |s.devices| <= 1)
  }

  lemma EffectiveIsExact(s: State)
    ensures forall slot: nat :: Effective(s) == Some(slot) <==> WantedIs(s, slot)
  {
    forall slot: nat ensures Effective(s) == Some(slot) <==> WantedIs(s, slot) {
      if WantedIs(s, slot) {
        assert FirstAt(s.registry, s.setting.value, 0) == slot;
      }
    }
  }

  /** What the wired computer is shown, or is about to be. */
  function Presented(s: State): Option<nat> {
    if s.pending then s.transition else s.mirror
  }

  /** After devices come and go the wanted presentation is shown or asked for, and
      asking releases everything first. */
  lemma DevicesAreFollowed(s: State, i: Input)
    requires s.output.selected.Wired? && (i.DeviceArrived? || i.DeviceLeft? || i.SourceGone?)
    ensures var r := Step(s, i);
      && Presented(r.state) == Effective(r.state)
      && (r.commands == [] || (|r.commands| == 2 && r.commands[0] == ReleaseAll))
  {
  }

  /** Choosing or clearing the mirror asks for what is then wanted, or for the fallback. */
  lemma ChoiceIsAsked(s: State, slot: nat)
    requires s.output.selected.Wired?
    ensures StableAt(s, slot).Some? ==>
      var r := Step(s, MirrorChosen(slot));
      && r.state.setting == StableAt(s, slot) && r.state.pending && r.state.transition == Effective(r.state)
      && AskedAfter(None, r.commands) == Some(HashAt(s, Effective(r.state)))
    ensures StableAt(s, slot).None? ==> Step(s, MirrorChosen(slot)) == Outcome(s, [])
    ensures var r := Step(s, MirrorCleared);
      r.state.setting.None? && r.state.pending && r.state.transition.None? && AskedAfter(None, r.commands) == Some(None)
  {
    var s1 := s.(setting := StableAt(s, slot));
    BeginMatches(s1, Effective(s1), None);
    BeginMatches(s.(setting := None), None, None);
  }

  /** When the active BLE computer is lost, the fallback target is selected if there is
      one; when another is lost, the selection stays. */
  lemma LostLinkFallsBack(s: State, h: int, links: Links, fallback: Option<Target>)
    requires Safe(s) && (fallback.Some? ==> ValidTarget(fallback.value))
    ensures var r := Step(s, LinkLost(h, links, fallback));
      r.state.output.selected ==
        if s.output.active == Some(Ble(h)) && fallback.Some? then fallback.value else s.output.selected
  {
  }

  /** A candidate is taken up exactly when its profile is accepted, whichever of the
      two comes first. */
  lemma AcceptanceRegisters(s: State, slot: nat, c: Candidate, accepted: bool)
    requires slot < |s.registry|
    ensures IsAccepted(s.lastResult, c.hash) ==>
      Step(s, CandidateRegistered(slot, c)).state.registry == s.registry[slot := Some(c)]
    ensures !IsAccepted(s.lastResult, c.hash) ==>
      var waits := Step(s, CandidateRegistered(slot, c)).state;
      && waits.registry == s.registry
      && Step(waits, ProfileAnswered(ProfileResult(c.hash, accepted))).state.registry ==
           if accepted then s.registry[slot := Some(c)] else s.registry
  {
    AcceptedRegisters(s.(waiting := None), slot, c);
    if !IsAccepted(s.lastResult, c.hash) {
      AcceptedRegisters(s.(waiting := None, lastResult := Some(ProfileResult(c.hash, accepted))), slot, c);
    }
  }

  lemma AcceptedRegisters(s: State, slot: nat, c: Candidate)
    requires slot < |s.registry|
    ensures Accepted(s, slot, c).state.registry == s.registry[slot := Some(c)]
  {
  }

  // --------------------------------------------------------------- operations

  /** The operation number that the second chip was told last. */
  function ToldOperation(operation: nat, commands: seq<DeviceCommand>): nat {
    if commands == [] then operation
    else
      match commands[|commands| - 1]
      case ActivateFallback(o) => o
      case ActivateMirror(o, _) => o
      case _ => ToldOperation(operation, commands[..|commands| - 1])
  }

  lemma {:induction false} ReportsTellNoOperation(operation: nat, commands: seq<DeviceCommand>)
    requires forall i :: 0 <= i < |commands| ==> !commands[i].ActivateFallback? && !commands[i].ActivateMirror?
    ensures ToldOperation(operation, commands) == operation
    decreases |commands|
  {
    if commands != [] {
      ReportsTellNoOperation(operation, commands[..|commands| - 1]);
    }
  }

  predicate Current(s: State, r: Outcome) {
    ToldOperation(s.output.operation, r.commands) == r.state.output.operation
  }

  lemma EndsWithActivation(operation: nat, before: seq<DeviceCommand>, current: nat, hash: Option<int>)
    ensures ToldOperation(operation, before + [Activation(current, hash)]) == current
  {
    assert (before + [Activation(current, hash)])[|before|] == Activation(current, hash);
  }

  lemma BeginIsCurrent(s: State, target: Option<nat>)
    ensures Current(s, BeginIfWired(s, target))
  {
    if s.output.selected.Wired? && !(target.Some? && HashAt(s, target).None?) {
      var o := BeginTransition(s.output).operation;
      EndsWithActivation(s.output.operation, [ReleaseAll], o, HashAt(s, target));
      assert [ReleaseAll, Activation(o, HashAt(s, target))] == [ReleaseAll] + [Activation(o, HashAt(s, target))];
    }
  }

  lemma ReconcileIsCurrent(s: State)
    ensures Current(s, Reconcile(s))
  {
    BeginIsCurrent(s, Effective(s));
  }

  lemma SwitchIsCurrent(s: State, t: Target, release: bool, links: Links)
    ensures Current(s, SwitchTo(s, t, release, links))
  {
    if ValidTarget(t) && s.output.selected != t {
      var releases := if release && s.output.active == Some(Wired) then WiredReports(s, 3) else [];
      EndsWithActivation(s.output.operation, releases, Select(s.output, t).operation,
                         if t.Wired? then HashAt(s, Effective(s)) else None);
    }
  }

  lemma UsbStateIsCurrent(s: State, u: UsbState)
    ensures Current(s, OnUsbState(s, u))
  {
    var r := OnUsbState(s, u);
    if Available(u) && !Shows(u, HashAt(s, Expected(s))) {
      assert r.commands == [] + [Activation(s.output.operation, HashAt(s, Expected(s)))];
      EndsWithActivation(s.output.operation, [], s.output.operation, HashAt(s, Expected(s)));
    } else {
      ReportsTellNoOperation(s.output.operation, r.commands);
    }
  }

  lemma {:induction false} ToldAppend(operation: nat, a: seq<DeviceCommand>, b: seq<DeviceCommand>)
    ensures ToldOperation(operation, a + b) == ToldOperation(ToldOperation(operation, a), b)
    decreases |b|
  {
    if b == [] {
      assert a + b == a;
    } else {
      assert (a + b)[..|a + b| - 1] == a + b[..|b| - 1];
      ToldAppend(operation, a, b[..|b| - 1]);
    }
  }

  lemma AcceptedIsCurrent(s: State, slot: nat, c: Candidate)
    ensures Current(s, Accepted(s, slot, c))
  {
    var s1 := Registered(s, slot, c);
    var a := if Effective(s1) == Some(slot) then BeginIfWired(s1, Some(slot)) else Outcome(s1, []);
    BeginIsCurrent(s1, Some(slot));
    if Replaces(s, slot, c) {
      BeginIsCurrent(a.state, None);
      ToldAppend(s.output.operation, a.commands, BeginIfWired(a.state, None).commands);
    }
  }

  lemma RegistrationIsCurrent(s: State, slot: nat, c: Candidate)
    ensures Current(s, OnRegistered(s, slot, c))
  {
    AcceptedIsCurrent(s.(waiting := None), slot, c);
  }

  lemma ProfileIsCurrent(s: State, p: ProfileResult)
    ensures Current(s, OnProfile(s, p))
  {
    if s.waiting.Some? {
      AcceptedIsCurrent(s.(lastResult := Some(p), waiting := None), s.waiting.value.slot, s.waiting.value.candidate);
    }
  }

  lemma ClearingIsCurrent(s: State, slot: nat)
    ensures Current(s, OnCleared(s, slot))
  {
    BeginIsCurrent(s.(registry := Cleared(s.registry, slot), waiting := None), None);
  }

  lemma DeviceInputIsCurrent(s: State, i: Input)
    requires i.SourceGone? || i.DeviceArrived? || i.DeviceLeft?
    ensures Current(s, Step(s, i))
  {
    match i
    case SourceGone(d) =>
      var drop := s.waiting.Some? && s.waiting.value.candidate.source == Some(d);
      ReconcileIsCurrent(s.(registry := WithoutSource(s.registry, d), waiting := if drop then None else s.waiting));
    case DeviceArrived(d) => ReconcileIsCurrent(s.(devices := s.devices + {d}));
    case DeviceLeft(d) => ReconcileIsCurrent(s.(devices := s.devices - {d}, registry := WithoutSource(s.registry, d)));
  }

  lemma ChoiceIsCurrent(s: State, i: Input)
    requires i.MirrorChosen? || i.MirrorCleared?
    ensures Current(s, Step(s, i))
  {
    match i
    case MirrorChosen(slot) =>
      var s1 := s.(setting := StableAt(s, slot));
      BeginIsCurrent(s1, Effective(s1));
    case MirrorCleared => BeginIsCurrent(s.(setting := None), None);
  }

  /** The last request always carries the number of the present operation. */
  lemma OperationIsCurrent(s: State, i: Input)
    ensures Current(s, Step(s, i))
  {
    match i
    case LinksChanged(_) =>
    case LinkLost(h, links, fallback) =>
      if fallback.Some? { SwitchIsCurrent(Refreshed(s, links), fallback.value, false, links); }
    case SelectTarget(t, links) => SwitchIsCurrent(s, t, true, links);
    case UsbStateReported(u) => UsbStateIsCurrent(s, u);
    case AvailabilityReported(_) => ReportsTellNoOperation(s.output.operation, Step(s, i).commands);
    case StandardFrame(_) => ReportsTellNoOperation(s.output.operation, Step(s, i).commands);
    case RealtimeFrame(_) => ReportsTellNoOperation(s.output.operation, Step(s, i).commands);
    case EndpointIn(_, _) => ReportsTellNoOperation(s.output.operation, Step(s, i).commands);
    case ControlCompleted => ReportsTellNoOperation(s.output.operation, Step(s, i).commands);
    case Elsewhere =>
    case CandidateRegistered(slot, c) => RegistrationIsCurrent(s, slot, c);
    case CandidateCleared(slot) => ClearingIsCurrent(s, slot);
    case ProfileAnswered(p) => ProfileIsCurrent(s, p);
    case MirrorChosen(_) => ChoiceIsCurrent(s, i);
    case MirrorCleared => ChoiceIsCurrent(s, i);
    case _ => DeviceInputIsCurrent(s, i);
  }
}
