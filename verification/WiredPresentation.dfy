/** The wired build's presentation handshake with the second chip.

  The wired computer sees a fallback keyboard and mouse, or a mirror of one USB
  device. Changing what it sees is a request to the second chip that its USB
  state has to confirm. The state here is the part of runtime and bridge that
  takes part in it; which BLE computers are connected and ready comes with the
  inputs.
 */
module WiredPresentation {
  import opened Options

  datatype Target = Wired | Ble(host: int)

  datatype Availability = Ready | ConnectedNotReady | Unavailable

  datatype Output = Output(selected: Target, active: Option<Target>, availability: Availability, operation: nat)

  /** A device that can be mirrored. */
  datatype Candidate = Candidate(stable: int, hash: int, source: Option<int>)

  datatype ProfileResult = ProfileResult(hash: int, accepted: bool)

  datatype Waiting = Waiting(slot: nat, candidate: Candidate)

  datatype State = State(
    output: Output,
    wired: Availability,
    pending: bool,
    transition: Option<nat>,
    mirror: Option<nat>,
    registry: seq<Option<Candidate>>,
    setting: Option<int>,
    devices: set<int>,
    lastResult: Option<ProfileResult>,
    waiting: Option<Waiting>)

  /** Commands to the second chip. */
  datatype DeviceCommand =
    | StandardReport
    | RawEndpointIn
    | ReleaseAll
    | ControlResponse
    | ActivateFallback(operation: nat)
    | ActivateMirror(operation: nat, hash: int)

  /** BLE computers that are connected and that are ready. */
  datatype Links = Links(connected: set<int>, ready: set<int>)

  datatype UsbState = UsbState(healthy: bool, attached: bool, configured: bool, fallback: bool, hash: int)

  datatype Input =
    | LinksChanged(links: Links)
    | LinkLost(host: int, links: Links, fallback: Option<Target>)
    | SelectTarget(target: Target, links: Links)
    | AvailabilityReported(availability: Availability)
    | UsbStateReported(usb: UsbState)
    | StandardFrame(reports: nat)
    | RealtimeFrame(reports: nat)
    | EndpointIn(device: int, standard: Option<nat>)
    | ControlCompleted
    | CandidateRegistered(slot: nat, candidate: Candidate)
    | CandidateCleared(slot: nat)
    | ProfileAnswered(result: ProfileResult)
    | SourceGone(device: int)
    | DeviceArrived(device: int)
    | DeviceLeft(device: int)
    | MirrorChosen(slot: nat)
    | MirrorCleared
    | Elsewhere

  datatype Outcome = Outcome(state: State, commands: seq<DeviceCommand>)

  const SLOTS: nat := 4
  const WRAP: nat := 0x1_0000_0000

  /** After the boot restore: nothing is known about the second chip yet. */
  function Booted(selected: Target, setting: Option<int>): State {
    State(Output(selected, None, Unavailable, 0), Unavailable, false, None, None, [None, None, None, None], setting,
          {}, None, None)
  }

  // ------------------------------------------------------------ output target

  predicate ValidTarget(t: Target) {
    t.Wired? || 1 <= t.host <= 4
  }

  function SetAvailability(o: Output, a: Availability): Output {
    o.(availability := a, active := if a.Ready? then Some(o.selected) else None)
  }

  function Select(o: Output, t: Target): Output {
    Output(t, None, Unavailable, (o.operation + 1) % WRAP)
  }

  function BeginTransition(o: Output): Output {
    o.(active := None, availability := ConnectedNotReady, operation := (o.operation + 1) % WRAP)
  }

  function BleAvailability(h: int, links: Links): Availability {
    if h in links.ready then Ready else if h in links.connected then ConnectedNotReady else Unavailable
  }

  /** The availability of the selected target is looked at again. */
  function Refreshed(s: State, links: Links): State {
    s.(output := SetAvailability(s.output,
         if s.output.selected.Wired? then s.wired else BleAvailability(s.output.selected.host, links)))
  }

  // ---------------------------------------------------------------- candidates

  function FirstAt(registry: seq<Option<Candidate>>, stable: int, from: nat): (i: int)
    requires from <= |registry|
    ensures i == -1 || (from <= i < |registry| && registry[i].Some? && registry[i].value.stable == stable)
    ensures forall j :: from <= j < (if i < 0 then |registry| else i) && registry[j].Some? ==>
      registry[j].value.stable != stable
    decreases |registry| - from
  {
    if from == |registry| then -1
    else if registry[from].Some? && registry[from].value.stable == stable then from
    else FirstAt(registry, stable, from + 1)
  }

  /** The candidate with this identity, unless two have it. */
  function Resolve(registry: seq<Option<Candidate>>, stable: int): (r: Option<nat>)
    ensures r.Some? ==> r.value < |registry| && registry[r.value].Some? && registry[r.value].value.stable == stable
  {
    var i := FirstAt(registry, stable, 0);
    if i < 0 then None else if FirstAt(registry, stable, i + 1) >= 0 then None else Some(i)
  }

  function SelectedCandidate(s: State): (r: Option<nat>)
    ensures r.Some? ==> r.value < |s.registry| && s.registry[r.value].Some?
  {
    if s.setting.None? then None else Resolve(s.registry, s.setting.value)
  }

  /** A physical device is mirrored only while it is alone. */
  function Effective(s: State): (r: Option<nat>)
    ensures r.Some? ==> r == SelectedCandidate(s)
  {
    var c := SelectedCandidate(s);
    if c.None? then None
    else if s.registry[c.value].value.source.Some? && |s.devices| > 1 then None
    else c
  }

  function HashAt(s: State, slot: Option<nat>): Option<int> {
    if slot.Some? && slot.value < |s.registry| && s.registry[slot.value].Some?
    then Some(s.registry[slot.value].value.hash) else None
  }

  function StableAt(s: State, slot: nat): Option<int> {
    if slot < |s.registry| && s.registry[slot].Some? then Some(s.registry[slot].value.stable) else None
  }

  function Activation(operation: nat, hash: Option<int>): DeviceCommand {
    if hash.Some? then ActivateMirror(operation, hash.value) else ActivateFallback(operation)
  }

  // --------------------------------------------------------------- transitions

  function Reports(n: nat): (r: seq<DeviceCommand>)
    ensures |r| == n && forall i :: 0 <= i < n ==> r[i] == StandardReport
  {
    seq(n, _ => StandardReport)
  }

  /** Reports for the wired computer are dropped while a request is open. */
  function WiredReports(s: State, n: nat): seq<DeviceCommand> {
    if s.pending then [] else Reports(n)
  }

  /** Asks the second chip for a new presentation. */
  function Begin(s: State, target: Option<nat>): Outcome {
    if target.Some? && HashAt(s, target).None? then Outcome(s, [])
    else
      var s' := s.(output := BeginTransition(s.output), wired := ConnectedNotReady, pending := true, transition := target);
      Outcome(s', [ReleaseAll, Activation(s'.output.operation, HashAt(s, target))])
  }

  function BeginIfWired(s: State, target: Option<nat>): Outcome {
    if s.output.selected.Wired? then Begin(s, target) else Outcome(s, [])
  }

  function Reconcile(s: State): Outcome {
    var current := if s.pending then s.transition else s.mirror;
    if current == Effective(s) then Outcome(s, []) else BeginIfWired(s, Effective(s))
  }

  function HeldForActivation(s: State): State {
    if s.wired.Unavailable? then s
    else s.(wired := ConnectedNotReady, output := SetAvailability(s.output, ConnectedNotReady))
  }

  /** Changes the selected target. The releases to a wired computer go out before
      the request; its neutral reports afterwards are dropped. */
  function SwitchTo(s: State, t: Target, release: bool, links: Links): Outcome {
    if !ValidTarget(t) || s.output.selected == t then Outcome(s, [])
    else
      var releases := if release && s.output.active == Some(Wired) then WiredReports(s, 3) else [];
      var o := Select(s.output, t);
      match t
      case Wired =>
        var s1 := s.(output := SetAvailability(o, s.wired), pending := true, transition := Effective(s));
        Outcome(HeldForActivation(s1), releases + [Activation(o.operation, HashAt(s, Effective(s)))])
      case Ble(h) =>
        var s1 := s.(output := SetAvailability(o, BleAvailability(h, links)), pending := true, transition := None, mirror := None);
        Outcome(s1, releases + [ActivateFallback(o.operation)])
  }

  function WiredAvailability(s: State, a: Availability): Outcome {
    var s' := s.(wired := a, output := if s.output.selected.Wired? then SetAvailability(s.output, a) else s.output);
    Outcome(s', if s.output.selected.Wired? && a.Ready? then WiredReports(s', 3) else [])
  }

  // ------------------------------------------------------------------ USB state

  predicate Available(u: UsbState) {
    u.healthy && u.attached && u.configured
  }

  /** The presentation that the runtime waits for or wants. */
  function Expected(s: State): Option<nat> {
    if s.pending then s.transition else if s.output.selected.Wired? then Effective(s) else None
  }

  predicate Shows(u: UsbState, hash: Option<int>) {
    if hash.Some? then !u.fallback && u.hash == hash.value else u.fallback
  }

  function OnUsbState(s: State, u: UsbState): Outcome {
    if !Available(u) then
      WiredAvailability(s.(mirror := None), if u.healthy && u.attached then ConnectedNotReady else Unavailable)
    else
      var expected := Expected(s);
      var hash := HashAt(s, expected);
      if Shows(u, hash) then
        WiredAvailability(s.(pending := false, transition := None,
                             mirror := if s.output.selected.Wired? then expected else None), Ready)
      else
        var a := WiredAvailability(s.(pending := true, transition := expected, mirror := None), ConnectedNotReady);
        Outcome(a.state, a.commands + [Activation(a.state.output.operation, hash)])
  }

  // --------------------------------------------------------------------- input

  /** The physical device whose reports go to the wired computer as they are. */
  function MirrorSource(s: State): Option<int> {
    if s.pending || s.output.active != Some(Wired) || s.mirror.None? then None
    else if s.mirror.value < |s.registry| && s.registry[s.mirror.value].Some?
    then s.registry[s.mirror.value].value.source else None
  }

  function OnFrame(s: State, n: nat): Outcome {
    Outcome(s, if s.output.active == Some(Wired) then WiredReports(s, n) else [])
  }

  /** The fast path does not look at the open request when it hands reports over. */
  function OnRealtimeFrame(s: State, n: nat): Outcome {
    if (s.pending && s.output.selected.Wired?) || (s.output.active == Some(Wired) && s.mirror.Some?) then Outcome(s, [])
    else Outcome(s, if s.output.active == Some(Wired) then Reports(n) else [])
  }

  // ------------------------------------------------------------------- mirrors

  function Registered(s: State, slot: nat, c: Candidate): State {
    if slot < |s.registry| then s.(registry := s.registry[slot := Some(c)]) else s
  }

  predicate Replaces(s: State, slot: nat, c: Candidate) {
    SelectedCandidate(s) == Some(slot) && StableAt(s, slot) != Some(c.stable)
  }

  /** A candidate whose profile the second chip has accepted. */
  function Accepted(s: State, slot: nat, c: Candidate): Outcome {
    var s1 := Registered(s, slot, c);
    var a := if Effective(s1) == Some(slot) then BeginIfWired(s1, Some(slot)) else Outcome(s1, []);
    if Replaces(s, slot, c) then
      var b := BeginIfWired(a.state, None);
      Outcome(b.state, a.commands + b.commands)
    else a
  }

  predicate IsAccepted(r: Option<ProfileResult>, hash: int) {
    r.Some? && r.value.hash == hash && r.value.accepted
  }

  function OnRegistered(s: State, slot: nat, c: Candidate): Outcome {
    if !IsAccepted(s.lastResult, c.hash) then Outcome(s.(waiting := Some(Waiting(slot, c))), [])
    else if slot >= |s.registry| then Outcome(s, [])
    else Accepted(s.(waiting := None), slot, c)
  }

  function OnProfile(s: State, r: ProfileResult): Outcome {
    var s1 := s.(lastResult := Some(r));
    if s.waiting.Some? && s.waiting.value.candidate.hash == r.hash then
      var w := s.waiting.value;
      var s2 := s1.(waiting := None);
      if r.accepted then Accepted(s2, w.slot, w.candidate) else Outcome(s2, [])
    else Outcome(s1, [])
  }

  function Cleared(registry: seq<Option<Candidate>>, slot: nat): seq<Option<Candidate>> {
    if slot < |registry| then registry[slot := None] else registry
  }

  function OnCleared(s: State, slot: nat): Outcome {
    var s1 := s.(registry := Cleared(s.registry, slot), waiting := None);
    if SelectedCandidate(s) == Some(slot) then BeginIfWired(s1, None) else Outcome(s1, [])
  }

  function WithoutSource(registry: seq<Option<Candidate>>, device: int): (r: seq<Option<Candidate>>)
    ensures |r| == |registry|
    ensures forall i :: 0 <= i < |r| ==>
      r[i] == if registry[i].Some? && registry[i].value.source == Some(device) then None else registry[i]
  {
    seq(|registry|, i requires 0 <= i < |registry| =>
      if registry[i].Some? && registry[i].value.source == Some(device) then None else registry[i])
  }

  function OnSourceGone(s: State, device: int): Outcome {
    var drop := s.waiting.Some? && s.waiting.value.candidate.source == Some(device);
    Reconcile(s.(registry := WithoutSource(s.registry, device), waiting := if drop then None else s.waiting))
  }

  // ---------------------------------------------------------------------- steps

  function Step(s: State, i: Input): Outcome {
    match i
    case LinksChanged(links) => Outcome(Refreshed(s, links), [])
    case LinkLost(h, links, fallback) =>
      var s1 := Refreshed(s, links);
      if s.output.active == Some(Ble(h)) && fallback.Some? then SwitchTo(s1, fallback.value, false, links) else Outcome(s1, [])
    case SelectTarget(t, links) => SwitchTo(s, t, true, links)
    case AvailabilityReported(a) => WiredAvailability(s, if a.Ready? && s.pending then ConnectedNotReady else a)
    case UsbStateReported(u) => OnUsbState(s, u)
    case StandardFrame(n) => OnFrame(s, n)
    case RealtimeFrame(n) => OnRealtimeFrame(s, n)
    case EndpointIn(d, standard) =>
      if MirrorSource(s) == Some(d) then Outcome(s, [RawEndpointIn])
      else if standard.Some? then OnRealtimeFrame(s, standard.value) else Outcome(s, [])
    case ControlCompleted => Outcome(s, [ControlResponse])
    case CandidateRegistered(slot, c) => OnRegistered(s, slot, c)
    case CandidateCleared(slot) => OnCleared(s, slot)
    case ProfileAnswered(r) => OnProfile(s, r)
    case SourceGone(d) => OnSourceGone(s, d)
    case DeviceArrived(d) => Reconcile(s.(devices := s.devices + {d}))
    case DeviceLeft(d) => Reconcile(s.(devices := s.devices - {d}, registry := WithoutSource(s.registry, d)))
    case MirrorChosen(slot) =>
      var stable := StableAt(s, slot);
      if stable.None? then Outcome(s, [])
      else
        var s1 := s.(setting := stable);
        BeginIfWired(s1, Effective(s1))
    case MirrorCleared => BeginIfWired(s.(setting := None), None)
    case Elsewhere => Outcome(s, [])
  }
}
