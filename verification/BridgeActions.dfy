/** The actions of the bridge: how many one event needs, and what they say
    about the pairing window. */
module BridgeActions {
  import opened Options
  import opened StorageImage
  import opened Keyboard
  import opened HostState
  import opened Bridge
  import opened BridgeInput

  // ----------------------------------------------------------------- capacity

  /** The most actions that one event can need. */
  function Need(s: State, e: Event): nat {
    match e
    case InputFrame(_, _, _) => 3
    case HostDisconnected(_) => |s.sinks| + 3
    case InterfaceConnected(_, _, _) => SINKS_MAX
    case HostLedsChanged(_, _) => |s.sinks|
    case ClearHost(_) => |s.sinks| + 7
    case SwitchTarget(_) => |s.sinks| + 6
    case InterfaceRemoved(_, _) => 4
    case _ => 3
  }

  lemma ActionsNeeded(s: State, e: Event)
    requires Sound(s)
    ensures |Step(s, e).actions| <= Need(s, e)
  {
  }

  /** No event of any run needs more room than the action vector has. */
  lemma ActionsFit(hs: seq<Happening>, e: Event)
    ensures |Step(Run(Initial(), hs), e).actions| < ACTIONS_MAX
  {
    NoStuckInput(hs, 0);
    ActionsNeeded(Run(Initial(), hs), e);
  }

  // ------------------------------------------------------------------ pairing

  /** The hosts that may pair, according to the actions. */
  function Pairing(open: set<int>, actions: seq<Action>): set<int>
    decreases |actions|
  {
    if actions == [] then open else Pairing(PairingAfter(open, actions[0]), actions[1..])
  }

  function PairingAfter(open: set<int>, a: Action): set<int> {
    match a
    case AllowPairing(h) => open + {h}
    case RejectPairing(h) => open - {h}
    case _ => open
  }

  function OpenFor(pairable: Option<int>): set<int> {
    if pairable.Some? then {pairable.value} else {}
  }

  ghost predicate NoPairing(actions: seq<Action>) {
    forall i :: 0 <= i < |actions| ==> !actions[i].AllowPairing? && !actions[i].RejectPairing?
  }

  lemma {:induction false} PairingAppend(open: set<int>, a: seq<Action>, b: seq<Action>)
    ensures Pairing(open, a + b) == Pairing(Pairing(open, a), b)
    decreases |a|
  {
    if a == [] {
      assert a + b == b;
    } else {
      assert (a + b)[1..] == a[1..] + b;
      PairingAppend(PairingAfter(open, a[0]), a[1..], b);
    }
  }

  lemma {:induction false} PairingQuiet(open: set<int>, actions: seq<Action>)
    requires NoPairing(actions)
    ensures Pairing(open, actions) == open
    decreases |actions|
  {
    if actions != [] {
      PairingQuiet(open, actions[1..]);
    }
  }

  lemma Around(open: set<int>, a: seq<Action>, b: seq<Action>, c: seq<Action>)
    requires NoPairing(a) && NoPairing(c)
    ensures Pairing(open, a + (b + c)) == Pairing(open, b)
  {
    PairingAppend(open, a, b + c);
    PairingQuiet(open, a);
    PairingAppend(open, b, c);
    PairingQuiet(Pairing(open, b), c);
  }

  lemma NoPairingJoin(a: seq<Action>, b: seq<Action>)
    requires NoPairing(a) && NoPairing(b)
    ensures NoPairing(a + b)
  {
  }

  lemma FramesDoNotPair(s: State, keyboard: Option<Keys>, mouse: Option<MouseFrame>, consumer: Option<Option<int>>)
    ensures var e := Frame(s, keyboard, mouse, consumer); NoPairing(e.actions) && e.state.pairable == s.pairable
  {
    FrameOnlyNotifies(s, keyboard, mouse, consumer);
  }

  lemma ReleasesDoNotPair(hosts: Hosts, host: int, reason: Reason)
    ensures NoPairing(ReleaseReports(hosts, host, reason))
  {
  }

  lemma TransitionsDoNotPair(s: State, target: int, release: Option<Reason>)
    requires TransitionWithStatus(s, target, release).Done?
    ensures var e := TransitionWithStatus(s, target, release).effect;
      NoPairing(e.actions) && e.state.pairable == s.pairable
  {
    if s.hosts.active.Some? && release.Some? {
      ReleasesDoNotPair(s.hosts, s.hosts.active.value, release.value);
    }
    var e := Transition(s, target, release).effect;
    if s.hosts.active != Some(target) {
      NoPairingJoin(ReleasesFor(s, release), [ActivateInput(target)] + ActiveLeds(e.state) + [PersistProfiles]);
    }
    NoPairingJoin(e.actions, [Status(e.state)]);
  }

  lemma DetachDoesNotPair(s: State, now: Input)
    ensures var e := Detached(s, now); NoPairing(e.actions) && NoPairing(WithStatus(e).actions) && e.state.pairable == s.pairable
  {
    NoPairingJoin(Detached(s, now).actions, [Status(Detached(s, now).state)]);
  }

  /** Events that do not concern pairing leave the window alone. */
  lemma NoPairingActions(s: State, e: Event)
    requires !e.EnterPairingMode? && !e.PairingModeExpired? && !e.ClearHost? && !e.HostSecurityChanged?
    ensures NoPairing(Step(s, e).actions) && Step(s, e).state.pairable == s.pairable
  {
    if Handle(s, e).Done? {
      match e
      case InputFrame(keyboard, mouse, consumer) => FramesDoNotPair(s, keyboard, mouse, consumer);
      case HostDisconnected(h) =>
        if Fallback(s, h).Some? { TransitionsDoNotPair(Unlinked(s, h), Fallback(s, h).value, None); }
      case SwitchTarget(h) => TransitionsDoNotPair(s, h, Some(SwitchRelease));
      case InterfaceRemoved(i, aggregate) => DetachDoesNotPair(s.(sinks := Unregistered(s.sinks, i)), aggregate);
      case DeviceReset(aggregate) => if aggregate.Some? { DetachDoesNotPair(s, aggregate.value); }
      case _ =>
    }
  }

  lemma ClearPairs(s: State, h: int)
    ensures Moves(s, Cleared(s, h))
  {
    var releases := if s.hosts.active == Some(h) then ReleaseReports(s.hosts, h, SafetyRelease) else [];
    var ends := if s.pairable == Some(h) then [RejectPairing(h)] else [];
    ReleasesDoNotPair(s.hosts, h, SafetyRelease);
    Around(OpenFor(s.pairable), releases, ends, ClearActions(s, h));
  }

  lemma SecurityPairs(s: State, h: int, encrypted: bool, bonded: bool, bond: Option<StoredBond>)
    requires Bridge.Secured(s, h, encrypted, bonded, bond).Done?
    ensures Moves(s, Bridge.Secured(s, h, encrypted, bonded, bond).effect)
  {
    var e := Bridge.Secured(s, h, encrypted, bonded, bond).effect;
    var c := Secure(encrypted, bonded, bond);
    var persist := if Persists(HostOrNew(s.hosts, h), c) then [PersistProfiles] else [];
    var ends := if bonded && s.pairable == Some(h) then [RejectPairing(h)] else [];
    var status := [Status(e.state)];
    assert persist + ends + status == persist + (ends + status);
    Around(OpenFor(s.pairable), persist, ends, status);
  }

  lemma EnterPairs(s: State, h: int)
    ensures Pairing(OpenFor(s.pairable), EnterPairing(s, h).actions) == {h}
  {
    var open := OpenFor(s.pairable);
    var ends := if s.pairable.Some? && s.pairable.value != h then [RejectPairing(s.pairable.value)] else [];
    PairingAppend(open, ends + [AllowPairing(h)], [Status(s.(pairable := Some(h)))]);
    PairingAppend(open, ends, [AllowPairing(h)]);
  }

  ghost predicate Moves(s: State, e: Effect) {
    Pairing(OpenFor(s.pairable), e.actions) == OpenFor(e.state.pairable)
  }

  lemma ExpiryPairs(s: State, h: int)
    ensures Moves(s, Step(s, PairingModeExpired(h)))
  {
    PairingAppend(OpenFor(s.pairable), [RejectPairing(h)], [Status(s.(pairable := None))]);
  }

  lemma QuietPairs(s: State, e: Event)
    requires !e.EnterPairingMode? && !e.PairingModeExpired? && !e.ClearHost? && !e.HostSecurityChanged?
    ensures Moves(s, Step(s, e))
  {
    NoPairingActions(s, e);
    PairingQuiet(OpenFor(s.pairable), Step(s, e).actions);
  }

  /** The actions of one event move the window exactly as the state does. */
  lemma StepPairs(s: State, e: Event)
    ensures Moves(s, Step(s, e))
  {
    match e
    case EnterPairingMode(h) => EnterPairs(s, h);
    case PairingModeExpired(h) => ExpiryPairs(s, h);
    case ClearHost(h) => ClearPairs(s, h);
    case HostSecurityChanged(h, encrypted, bonded, bond) =>
      if Bridge.Secured(s, h, encrypted, bonded, bond).Done? {
        SecurityPairs(s, h, encrypted, bonded, bond);
      }
    case _ => QuietPairs(s, e);
  }

  function RunEvents(s: State, es: seq<Event>): Effect
    decreases |es|
  {
    if es == [] then Effect(s, [])
    else
      var before := RunEvents(s, es[..|es| - 1]);
      var last := Step(before.state, es[|es| - 1]);
      Effect(last.state, before.actions + last.actions)
  }

  /** Over every run without a restore, the hosts that the actions allow to pair
      are exactly the pairable host: at most one. */
  lemma {:induction false} PairingFollows(s: State, es: seq<Event>)
    ensures Pairing(OpenFor(s.pairable), RunEvents(s, es).actions) == OpenFor(RunEvents(s, es).state.pairable)
    decreases |es|
  {
    if es != [] {
      var before := RunEvents(s, es[..|es| - 1]);
      PairingFollows(s, es[..|es| - 1]);
      PairingAppend(OpenFor(s.pairable), before.actions, Step(before.state, es[|es| - 1]).actions);
      StepPairs(before.state, es[|es| - 1]);
    }
  }
}
