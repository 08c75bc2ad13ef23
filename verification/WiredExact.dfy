/** When the presentation that is confirmed is the one that was requested last.

  The runtime compares a USB state with the registry's hash of the candidate it
  waits for, not with its request. The two come apart exactly when an input
  changes or removes that candidate's entry and no new request goes out.
 */
module WiredExact {
  import opened Options
  import opened WiredPresentation
  import opened WiredSafety

  /** The hash that was requested last and is not confirmed; None inside is the
      fallback. */
  type Asked = Option<Option<int>>

  function AskedAfter(asked: Asked, commands: seq<DeviceCommand>): Asked
    decreases |commands|
  {
    if commands == [] then asked
    else
      AskedAfter(match commands[0]
                 case ActivateFallback(_) => Some(None)
                 case ActivateMirror(_, hash) => Some(Some(hash))
                 case _ => asked, commands[1..])
  }

  predicate ConfirmsExactly(asked: Asked, i: Input) {
    asked.Some? && i.UsbStateReported? && Available(i.usb) && Shows(i.usb, asked.value)
  }

  function Heard(asked: Asked, i: Input): Asked {
    if ConfirmsExactly(asked, i) then None else asked
  }

  /** The rule: whatever comes next, no report goes out before a USB state shows
      exactly what was requested. */
  ghost predicate Obeys(s: State, asked: Asked) {
    forall next :: Allowed(Heard(asked, next).Some?, Step(s, next).commands)
  }

  // ------------------------------------------------------- the failing guard

  /** A new candidate in the slot that is waited for, with another hash, that is
      neither wanted nor seen to replace the wanted one. */
  predicate Rehashes(s: State, slot: nat, c: Candidate) {
    && s.transition == Some(slot) && slot < |s.registry| && HashAt(s, s.transition) != Some(c.hash)
    && Effective(Registered(s, slot, c)) != Some(slot) && !Replaces(s, slot, c)
  }

  /** The input changes or removes the entry that is waited for, and no request
      follows. */
  predicate Loses(s: State, i: Input) {
    && s.pending && s.output.selected.Wired?
    && match i
       case CandidateRegistered(slot, c) => IsAccepted(s.lastResult, c.hash) && Rehashes(s, slot, c)
       case ProfileAnswered(r) =>
         && r.accepted && s.waiting.Some? && s.waiting.value.candidate.hash == r.hash
         && Rehashes(s, s.waiting.value.slot, s.waiting.value.candidate)
       case CandidateCleared(slot) =>
         s.transition == Some(slot) && HashAt(s, s.transition).Some? && SelectedCandidate(s) != Some(slot)
       case _ => false
  }

  // ---------------------------------------------------------------- invariant

  /** For a BLE computer only the fallback is ever waited for. */
  predicate BleWaitsForFallback(s: State) {
    s.pending && s.output.selected.Ble? ==> s.transition.None?
  }

  /** The runtime waits exactly while a request is open, and for what was asked. */
  predicate Matches(s: State, asked: Asked) {
    (asked.Some? <==> s.pending) && (asked.Some? ==> asked.value == HashAt(s, s.transition))
  }

  lemma ActivationAsks(asked: Asked, operation: nat, hash: Option<int>)
    ensures AskedAfter(asked, [ReleaseAll, Activation(operation, hash)]) == Some(hash)
    ensures AskedAfter(asked, [Activation(operation, hash)]) == Some(hash)
  {
    var a := Activation(operation, hash);
    assert [a][1..] == [];
    assert AskedAfter(asked, [a]) == AskedAfter(Some(hash), []);
    assert [ReleaseAll, a][1..] == [a];
    assert AskedAfter(asked, [ReleaseAll, a]) == AskedAfter(asked, [a]);
  }

  lemma {:induction false} ReportsDoNotAsk(asked: Asked, reports: seq<DeviceCommand>, rest: seq<DeviceCommand>)
    requires forall i :: 0 <= i < |reports| ==> reports[i].StandardReport?
    ensures AskedAfter(asked, reports + rest) == AskedAfter(asked, rest)
    decreases |reports|
  {
    if reports == [] {
      assert reports + rest == rest;
    } else {
      assert (reports + rest)[1..] == reports[1..] + rest;
      ReportsDoNotAsk(asked, reports[1..], rest);
    }
  }

  lemma FrameMatches(commands: seq<DeviceCommand>, asked: Asked)
    requires forall j :: 0 <= j < |commands| ==> commands[j].StandardReport?
    ensures AskedAfter(asked, commands) == asked
  {
    ReportsDoNotAsk(asked, commands, []);
    assert commands + [] == commands;
  }

  /** After a request the runtime waits for what was asked. */
  lemma BeginMatches(s: State, target: Option<nat>, asked: Asked)
    requires s.output.selected.Wired? && (target.Some? ==> HashAt(s, target).Some?)
    ensures var r := BeginIfWired(s, target);
      BleWaitsForFallback(r.state) && Matches(r.state, AskedAfter(asked, r.commands))
  {
    ActivationAsks(asked, Begin(s, target).state.output.operation, HashAt(s, target));
  }

  /** Nothing was requested, and the entry that is waited for stayed as it was. */
  predicate Undisturbed(s: State, s': State) {
    && s'.pending == s.pending && s'.transition == s.transition && s'.output.selected == s.output.selected
    && HashAt(s', s.transition) == HashAt(s, s.transition)
  }

  lemma UndisturbedMatches(s: State, s': State, asked: Asked)
    requires BleWaitsForFallback(s) && Matches(s, asked) && Undisturbed(s, s')
    ensures BleWaitsForFallback(s') && Matches(s', asked)
  {
  }

  // ------------------------------------------------------------- single inputs

  lemma SwitchMatches(s: State, t: Target, release: bool, links: Links, asked: Asked)
    requires BleWaitsForFallback(s) && Matches(s, asked)
    ensures var r := SwitchTo(s, t, release, links);
      BleWaitsForFallback(r.state) && Matches(r.state, AskedAfter(asked, r.commands))
  {
    if ValidTarget(t) && s.output.selected != t {
      var releases := if release && s.output.active == Some(Wired) then WiredReports(s, 3) else [];
      var o := Select(s.output, t);
      var hash := if t.Wired? then HashAt(s, Effective(s)) else None;
      ReportsDoNotAsk(asked, releases, [Activation(o.operation, hash)]);
      ActivationAsks(asked, o.operation, hash);
    }
  }

  lemma UsbStateMatches(s: State, u: UsbState, asked: Asked)
    requires BleWaitsForFallback(s) && Matches(s, asked)
    ensures var r := OnUsbState(s, u);
      BleWaitsForFallback(r.state) && Matches(r.state, AskedAfter(Heard(asked, UsbStateReported(u)), r.commands))
  {
    var r := OnUsbState(s, u);
    var heard := Heard(asked, UsbStateReported(u));
    if !Available(u) {
      assert r.commands == [];
    } else if Shows(u, HashAt(s, Expected(s))) {
      assert heard.None?;
      FrameMatches(r.commands, heard);
    } else {
      ActivationAsks(heard, r.state.output.operation, HashAt(s, Expected(s)));
      assert r.commands == [Activation(r.state.output.operation, HashAt(s, Expected(s)))];
    }
  }

  /** Inputs that can send reports and change no request. */
  predicate OnlyReports(i: Input) {
    i.AvailabilityReported? || i.StandardFrame? || i.RealtimeFrame? || i.EndpointIn? || i.ControlCompleted?
  }

  lemma ReportStepMatches(s: State, i: Input, asked: Asked)
    requires BleWaitsForFallback(s) && Matches(s, asked) && OnlyReports(i)
    ensures BleWaitsForFallback(Step(s, i).state) && Matches(Step(s, i).state, AskedAfter(asked, Step(s, i).commands))
  {
    var commands := Step(s, i).commands;
    UndisturbedMatches(s, Step(s, i).state, asked);
    if i.ControlCompleted? || (i.EndpointIn? && MirrorSource(s) == Some(i.device)) {
      assert commands[1..] == [];
    } else {
      FrameMatches(commands, asked);
    }
  }

  /** Reconciling asks anew, or the wanted entry is the one waited for. */
  lemma ReconcileMatches(s: State, s1: State, asked: Asked)
    requires BleWaitsForFallback(s) && Matches(s, asked)
    requires s1.pending == s.pending && s1.transition == s.transition && s1.output == s.output
    requires forall j :: 0 <= j < |s.registry| && j < |s1.registry| && s1.registry[j].Some? ==> s1.registry[j] == s.registry[j]
    requires |s1.registry| == |s.registry|
    ensures var r := Reconcile(s1);
      BleWaitsForFallback(r.state) && Matches(r.state, AskedAfter(asked, r.commands))
  {
    var wanted := Effective(s1);
    if (if s1.pending then s1.transition else s1.mirror) != wanted && s1.output.selected.Wired? {
      BeginMatches(s1, wanted, asked);
    } else {
      assert s1.pending ==> HashAt(s1, s1.transition) == HashAt(s, s.transition);
    }
  }

  lemma AcceptedMatchesIff(s: State, slot: nat, c: Candidate, asked: Asked)
    requires BleWaitsForFallback(s) && Matches(s, asked)
    ensures var r := Accepted(s, slot, c);
      && BleWaitsForFallback(r.state)
      && (Matches(r.state, AskedAfter(asked, r.commands)) <==> !(s.pending && s.output.selected.Wired? && Rehashes(s, slot, c)))
      && (s.pending && s.output.selected.Wired? && Rehashes(s, slot, c) ==>
            r.commands == [] && r.state.pending && r.state.output.selected.Wired? && HashAt(r.state, r.state.transition) == Some(c.hash))
  {
    var s1 := Registered(s, slot, c);
    if s.output.selected.Wired? && Effective(s1) == Some(slot) {
      assert !Replaces(s, slot, c);
      BeginMatches(s1, Some(slot), asked);
    } else if s.output.selected.Wired? && Replaces(s, slot, c) {
      BeginMatches(s1, None, asked);
      assert [] + BeginIfWired(s1, None).commands == BeginIfWired(s1, None).commands;
    } else {
      assert Accepted(s, slot, c).commands == [];
      assert Accepted(s, slot, c).state == s1;
    }
  }

  lemma ClearedMatchesIff(s: State, slot: nat, asked: Asked)
    requires BleWaitsForFallback(s) && Matches(s, asked)
    ensures var r := OnCleared(s, slot);
      && BleWaitsForFallback(r.state)
      && (Matches(r.state, AskedAfter(asked, r.commands)) <==> !Loses(s, CandidateCleared(slot)))
      && (Loses(s, CandidateCleared(slot)) ==>
            r.commands == [] && r.state.pending && r.state.output.selected.Wired? && HashAt(r.state, r.state.transition).None?)
  {
    var s1 := s.(registry := Cleared(s.registry, slot), waiting := None);
    if SelectedCandidate(s) == Some(slot) && s.output.selected.Wired? {
      BeginMatches(s1, None, asked);
    } else {
      assert OnCleared(s, slot) == Outcome(s1, []);
    }
  }

  /** A lost request stays open to the rule while the runtime waits for another
      presentation. */
  predicate Lost(s: State, asked: Asked) {
    && s.pending && s.output.selected.Wired? && asked.Some? && asked.value != HashAt(s, s.transition)
  }

  /** What one input does: the runtime waits for what was asked, unless the input
      loses the request. */
  predicate StepIff(s: State, i: Input, asked: Asked) {
    var after := AskedAfter(Heard(asked, i), Step(s, i).commands);
    && BleWaitsForFallback(Step(s, i).state)
    && (Loses(s, i) ==> Lost(Step(s, i).state, after))
    && (!Loses(s, i) ==> Matches(Step(s, i).state, after))
  }

  lemma RegisteredIff(s: State, slot: nat, c: Candidate, asked: Asked)
    requires BleWaitsForFallback(s) && Matches(s, asked)
    ensures StepIff(s, CandidateRegistered(slot, c), asked)
  {
    if IsAccepted(s.lastResult, c.hash) && slot < |s.registry| {
      SameRegistry(s, s.(waiting := None), slot, c);
      AcceptedMatchesIff(s.(waiting := None), slot, c, asked);
    }
  }

  lemma ProfileIff(s: State, p: ProfileResult, asked: Asked)
    requires BleWaitsForFallback(s) && Matches(s, asked)
    ensures StepIff(s, ProfileAnswered(p), asked)
  {
    if s.waiting.Some? && s.waiting.value.candidate.hash == p.hash && p.accepted {
      var w := s.waiting.value;
      var s2 := s.(lastResult := Some(p), waiting := None);
      SameRegistry(s, s2, w.slot, w.candidate);
      AcceptedMatchesIff(s2, w.slot, w.candidate, asked);
    }
  }

  lemma SameRegistry(s: State, s': State, slot: nat, c: Candidate)
    requires s'.registry == s.registry && s'.setting == s.setting && s'.devices == s.devices && s'.transition == s.transition
    ensures Rehashes(s', slot, c) <==> Rehashes(s, slot, c)
  {
    assert Effective(Registered(s', slot, c)) == Effective(Registered(s, slot, c));
  }

  lemma SettingMatches(s: State, setting: Option<int>, asked: Asked)
    requires BleWaitsForFallback(s) && Matches(s, asked)
    ensures var s1 := s.(setting := setting);
      var r := BeginIfWired(s1, Effective(s1));
      BleWaitsForFallback(r.state) && Matches(r.state, AskedAfter(asked, r.commands))
  {
    var s1 := s.(setting := setting);
    if s.output.selected.Wired? {
      BeginMatches(s1, Effective(s1), asked);
    }
  }

  lemma SourceGoneMatches(s: State, d: int, asked: Asked)
    requires BleWaitsForFallback(s) && Matches(s, asked)
    ensures var r := OnSourceGone(s, d);
      BleWaitsForFallback(r.state) && Matches(r.state, AskedAfter(asked, r.commands))
  {
    var drop := s.waiting.Some? && s.waiting.value.candidate.source == Some(d);
    ReconcileMatches(s, s.(registry := WithoutSource(s.registry, d), waiting := if drop then None else s.waiting), asked);
  }

  lemma DeviceStepMatches(s: State, i: Input, asked: Asked)
    requires BleWaitsForFallback(s) && Matches(s, asked) && AboutDevices(i)
    ensures BleWaitsForFallback(Step(s, i).state) && Matches(Step(s, i).state, AskedAfter(asked, Step(s, i).commands))
  {
    match i
    case DeviceArrived(d) => ReconcileMatches(s, s.(devices := s.devices + {d}), asked);
    case DeviceLeft(d) =>
      ReconcileMatches(s, s.(devices := s.devices - {d}, registry := WithoutSource(s.registry, d)), asked);
    case MirrorChosen(slot) => SettingMatches(s, StableAt(s, slot), asked);
    case MirrorCleared =>
      assert Effective(s.(setting := None)) == None;
      SettingMatches(s, None, asked);
  }

  lemma MirrorStepIff(s: State, i: Input, asked: Asked)
    requires BleWaitsForFallback(s) && Matches(s, asked) && AboutMirrors(i)
    ensures StepIff(s, i, asked)
  {
    if AboutDevices(i) {
      DeviceStepMatches(s, i, asked);
    } else {
      match i
      case CandidateRegistered(slot, c) => RegisteredIff(s, slot, c, asked);
      case CandidateCleared(slot) => ClearedMatchesIff(s, slot, asked);
      case ProfileAnswered(r) => ProfileIff(s, r, asked);
      case SourceGone(d) => SourceGoneMatches(s, d, asked);
    }
  }

  lemma StepMatchesIff(s: State, i: Input, asked: Asked)
    requires BleWaitsForFallback(s) && Matches(s, asked)
    ensures StepIff(s, i, asked)
  {
    if AboutMirrors(i) {
      MirrorStepIff(s, i, asked);
    } else if OnlyReports(i) {
      ReportStepMatches(s, i, asked);
    } else {
      match i
      case LinksChanged(links) => UndisturbedMatches(s, Refreshed(s, links), asked);
      case LinkLost(h, links, fallback) =>
        UndisturbedMatches(s, Refreshed(s, links), asked);
        if fallback.Some? { SwitchMatches(Refreshed(s, links), fallback.value, false, links, asked); }
      case SelectTarget(t, links) => SwitchMatches(s, t, true, links, asked);
      case UsbStateReported(u) => UsbStateMatches(s, u, asked);
      case Elsewhere =>
    }
  }

  // ----------------------------------------------------------------- the rule

  lemma MatchingObeys(s: State, asked: Asked)
    requires Safe(s) && Matches(s, asked)
    ensures Obeys(s, asked)
  {
    forall next ensures Allowed(Heard(asked, next).Some?, Step(s, next).commands) {
      StepIsAllowed(s, next, asked.Some?);
      assert asked.Some? ==> (Confirms(s, next) <==> ConfirmsExactly(asked, next));
    }
  }

  function Showing(hash: Option<int>): UsbState {
    UsbState(true, true, true, hash.None?, if hash.Some? then hash.value else 0)
  }

  /** After a loss the presentation that the runtime waits for passes as the
      confirmation of another one, and reports go out. */
  lemma LostBreaksRule(s: State, asked: Asked)
    requires Lost(s, asked)
    ensures !Obeys(s, asked)
  {
    var next := UsbStateReported(Showing(HashAt(s, s.transition)));
    assert !ConfirmsExactly(asked, next);
    assert Step(s, next).commands == Reports(3);
    assert !Allowed(Heard(asked, next).Some?, Step(s, next).commands);
  }

  // ---------------------------------------------------------------------- runs

  function AskedIn(start: State, inputs: seq<Input>): Asked {
    if inputs == [] then None
    else
      var before, last := inputs[..|inputs| - 1], inputs[|inputs| - 1];
      AskedAfter(Heard(AskedIn(start, before), last), Step(Run(start, before), last).commands)
  }

  /** The rule is kept at the start and after every input. */
  ghost predicate ObeysThroughout(start: State, inputs: seq<Input>) {
    && Obeys(Run(start, inputs), AskedIn(start, inputs))
    && (inputs == [] || ObeysThroughout(start, inputs[..|inputs| - 1]))
  }

  predicate NeverLoses(start: State, inputs: seq<Input>) {
    inputs == [] ||
    (NeverLoses(start, inputs[..|inputs| - 1]) && !Loses(Run(start, inputs[..|inputs| - 1]), inputs[|inputs| - 1]))
  }

  lemma {:induction false} RunMatches(selected: Target, setting: Option<int>, inputs: seq<Input>)
    requires NeverLoses(Booted(selected, setting), inputs)
    ensures var s := Run(Booted(selected, setting), inputs);
      Safe(s) && BleWaitsForFallback(s) && Matches(s, AskedIn(Booted(selected, setting), inputs))
    decreases |inputs|
  {
    var start := Booted(selected, setting);
    if inputs != [] {
      var before, last := inputs[..|inputs| - 1], inputs[|inputs| - 1];
      RunMatches(selected, setting, before);
      StepIsSafe(Run(start, before), last);
      StepMatchesIff(Run(start, before), last, AskedIn(start, before));
    }
  }

  /** Over every run after the boot restore: no report is ever sent between a
      request and a USB state that shows exactly what was requested, whatever
      comes next, if and only if no input loses a request. */
  lemma {:induction false} HandshakeIsExactIff(selected: Target, setting: Option<int>, inputs: seq<Input>)
    ensures var start := Booted(selected, setting); ObeysThroughout(start, inputs) <==> NeverLoses(start, inputs)
    decreases |inputs|
  {
    var start := Booted(selected, setting);
    if inputs == [] {
      RunMatches(selected, setting, inputs);
      MatchingObeys(start, None);
    } else {
      var before, last := inputs[..|inputs| - 1], inputs[|inputs| - 1];
      HandshakeIsExactIff(selected, setting, before);
      if NeverLoses(start, before) {
        RunMatches(selected, setting, before);
        StepMatchesIff(Run(start, before), last, AskedIn(start, before));
        StepIsSafe(Run(start, before), last);
        if Loses(Run(start, before), last) {
          LostBreaksRule(Run(start, inputs), AskedIn(start, inputs));
        } else {
          MatchingObeys(Run(start, inputs), AskedIn(start, inputs));
        }
      }
    }
  }

  // ----------------------------------------------------- two with one identity

  // Slot 0 is requested with hash 1; slot 1 takes the same identity; then slot 0
  // gets hash 2 without a new request, and hash 2 passes as the confirmation.

  function Requested(): State {
    Booted(Wired, Some(7)).(
      output := Output(Wired, None, ConnectedNotReady, 1), wired := ConnectedNotReady, pending := true, transition := Some(0),
      registry := [Some(Candidate(7, 1, None)), None, None, None], lastResult := Some(ProfileResult(1, true)))
  }

  function Ambiguous(): State {
    Requested().(registry := [Some(Candidate(7, 1, None)), Some(Candidate(7, 1, None)), None, None],
                 lastResult := Some(ProfileResult(2, true)))
  }

  function Rehashed(): State {
    Ambiguous().(registry := [Some(Candidate(7, 2, None)), Some(Candidate(7, 1, None)), None, None])
  }

  function Accepting(): State {
    Booted(Wired, Some(7)).(lastResult := Some(ProfileResult(1, true)))
  }

  function Doubled(): State {
    Requested().(registry := [Some(Candidate(7, 1, None)), Some(Candidate(7, 1, None)), None, None])
  }

  function Bare(): State {
    Requested().(registry := [None, Some(Candidate(7, 1, None)), None, None])
  }

  lemma OneCandidateSelected()
    ensures var s := Accepting().(registry := [Some(Candidate(7, 1, None)), None, None, None]); Effective(s) == Some(0)
    ensures SelectedCandidate(Accepting()).None?
  {
    var registry := [Some(Candidate(7, 1, None)), None, None, None];
    assert FirstAt(registry, 7, 0) == 0 && FirstAt(registry, 7, 1) == -1;
  }

  lemma FirstRequest()
    ensures var a := Step(Booted(Wired, Some(7)), ProfileAnswered(ProfileResult(1, true)));
      var b := Step(a.state, CandidateRegistered(0, Candidate(7, 1, None)));
      && a == Outcome(Accepting(), []) && b.state == Requested() && AskedAfter(None, b.commands) == Some(Some(1))
  {
    var c := Candidate(7, 1, None);
    var s1 := Registered(Accepting(), 0, c);
    assert s1.registry == [Some(c), None, None, None];
    OneCandidateSelected();
    assert Begin(s1, Some(0)) == Outcome(Requested(), [ReleaseAll, Activation(1, Some(1))]);
    ActivationAsks(None, 1, Some(1));
  }

  lemma AmbiguousNeverSelected(s: State, a: Candidate, b: Candidate)
    requires s.registry == [Some(a), Some(b), None, None] && a.stable == b.stable && s.setting == Some(a.stable)
    ensures SelectedCandidate(s).None? && Effective(s).None?
  {
    assert FirstAt(s.registry, a.stable, 0) == 0;
    assert FirstAt(s.registry, a.stable, 1) == 1;
  }

  lemma ThenAmbiguous()
    ensures var a := Step(Requested(), CandidateRegistered(1, Candidate(7, 1, None)));
      var b := Step(a.state, ProfileAnswered(ProfileResult(2, true)));
      && a == Outcome(Doubled(), [])
      && b == Outcome(Ambiguous(), [])
  {
    var c := Candidate(7, 1, None);
    var s1 := Registered(Requested(), 1, c);
    assert s1.registry == [Some(c), Some(c), None, None];
    AmbiguousNeverSelected(s1, c, c);
    assert FirstAt(Requested().registry, 7, 0) == 0;
    assert SelectedCandidate(Requested()) != Some(1);
  }

  lemma ThenRehashed()
    ensures Step(Ambiguous(), CandidateRegistered(0, Candidate(7, 2, None))) == Outcome(Rehashed(), [])
  {
    var s1 := Registered(Ambiguous(), 0, Candidate(7, 2, None));
    AmbiguousNeverSelected(Ambiguous(), Candidate(7, 1, None), Candidate(7, 1, None));
    AmbiguousNeverSelected(s1, Candidate(7, 2, None), Candidate(7, 1, None));
  }

  /** The second way: the entry that is waited for is cleared while its identity is
      ambiguous, nothing is requested, and the fallback passes for the mirror. */
  lemma ClearingLosesRequest()
    ensures var s1 := Step(Booted(Wired, Some(7)), ProfileAnswered(ProfileResult(1, true))).state;
      var request := Step(s1, CandidateRegistered(0, Candidate(7, 1, None)));
      var s3 := Step(request.state, CandidateRegistered(1, Candidate(7, 1, None))).state;
      var cleared := Step(s3, CandidateCleared(0));
      var usb := UsbStateReported(UsbState(true, true, true, true, 0));
      && AskedAfter(None, request.commands) == Some(Some(1)) && cleared.commands == []
      && !ConfirmsExactly(Some(Some(1)), usb) && Step(cleared.state, usb).commands == Reports(3)
  {
    FirstRequest();
    ThenAmbiguous();
    ThenCleared();
    FallbackPasses();
  }

  lemma ThenCleared()
    ensures Step(Doubled(), CandidateCleared(0)) == Outcome(Bare(), [])
  {
    AmbiguousNeverSelected(Doubled(), Candidate(7, 1, None), Candidate(7, 1, None));
    assert Doubled().registry[0 := None] == Bare().registry;
  }

  lemma FallbackPasses()
    ensures Step(Bare(), UsbStateReported(UsbState(true, true, true, true, 0))).commands == Reports(3)
  {
    assert HashAt(Bare(), Some(0)).None?;
  }

  /** With two candidates of one identity, reports can flow before the requested
      presentation was ever shown: hash 1 is requested, hash 2 is taken for it. */
  lemma AmbiguityLosesRequest()
    ensures var s1 := Step(Booted(Wired, Some(7)), ProfileAnswered(ProfileResult(1, true))).state;
      var request := Step(s1, CandidateRegistered(0, Candidate(7, 1, None)));
      var s3 := Step(request.state, CandidateRegistered(1, Candidate(7, 1, None))).state;
      var s4 := Step(s3, ProfileAnswered(ProfileResult(2, true))).state;
      var s5 := Step(s4, CandidateRegistered(0, Candidate(7, 2, None)));
      var usb := UsbStateReported(UsbState(true, true, true, false, 2));
      && AskedAfter(None, request.commands) == Some(Some(1)) && s5.commands == []
      && !ConfirmsExactly(Some(Some(1)), usb) && Step(s5.state, usb).commands == Reports(3)
  {
    FirstRequest();
    ThenAmbiguous();
    ThenRehashed();
    assert HashAt(Rehashed(), Some(0)) == Some(2);
  }
}
