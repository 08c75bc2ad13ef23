/** Pointer movement through the bridge: the reports to a computer carry exactly the
    movement of the frames that came while it was active and took mouse reports. */
module BridgeMovement {
  import opened Options
  import opened StorageImage
  import opened Keyboard
  import opened HostState
  import opened HostMachine
  import opened Bridge
  import opened BridgeInput
  import MouseSink

  function Along(m: Movement, d: MouseSink.Direction): int {
    match d
    case X => m.x
    case Y => m.y
    case Wheel => m.wheel
    case Pan => m.pan
  }

  // ------------------------------------------------------- movement of actions

  /** What an action moves the pointer of host `g`. */
  function Carried(a: Action, g: int, d: MouseSink.Direction): int {
    if a.Notify? && a.target == g && a.report.MouseReport? then Along(a.report.movement, d) else 0
  }

  function Moved(actions: seq<Action>, g: int, d: MouseSink.Direction): int {
    if actions == [] then 0 else Moved(actions[..|actions| - 1], g, d) + Carried(actions[|actions| - 1], g, d)
  }

  lemma {:induction false} MovedAppend(a: seq<Action>, b: seq<Action>, g: int, d: MouseSink.Direction)
    ensures Moved(a + b, g, d) == Moved(a, g, d) + Moved(b, g, d)
    decreases |b|
  {
    if b == [] {
      assert a + b == a;
    } else {
      var n := |b| - 1;
      assert (a + b)[..|a + b| - 1] == a + b[..n];
      MovedAppend(a, b[..n], g, d);
    }
  }

  /** None of the actions moves a pointer. */
  predicate Still(actions: seq<Action>) {
    forall i :: 0 <= i < |actions| && actions[i].Notify? && actions[i].report.MouseReport? ==>
      actions[i].report.movement == NO_MOVEMENT
  }

  lemma {:induction false} StillMovesNothing(actions: seq<Action>, g: int, d: MouseSink.Direction)
    requires Still(actions)
    ensures Moved(actions, g, d) == 0
    decreases |actions|
  {
    if actions != [] {
      StillMovesNothing(actions[..|actions| - 1], g, d);
    }
  }

  lemma StillJoin(a: seq<Action>, b: seq<Action>)
    requires Still(a) && Still(b)
    ensures Still(a + b)
  {
  }

  // -------------------------------------------------------------- one event

  /** What an event asks the pointer of host `g` to move: the movement of a frame, if
      the host is active and takes mouse reports when the frame comes. */
  function Pointed(s: State, e: Event, g: int, d: MouseSink.Direction): int {
    if e.InputFrame? && e.mouse.Some? && s.hosts.active == Some(g) && CanSend(s.hosts, g, MouseKind)
    then Along(e.mouse.value.movement, d) else 0
  }

  lemma KeyboardPartIsStill(s: State, now: Keys, g: int, d: MouseSink.Direction)
    ensures Moved(KeyboardPart(s, now).actions, g, d) == 0 && KeyboardPart(s, now).state.hosts == s.hosts
  {
    assert Still(KeyboardPart(s, now).actions);
    StillMovesNothing(KeyboardPart(s, now).actions, g, d);
  }

  lemma ConsumerPartIsStill(s: State, now: Option<int>, g: int, d: MouseSink.Direction)
    ensures Moved(ConsumerPart(s, now).actions, g, d) == 0
  {
    assert Still(ConsumerPart(s, now).actions);
    StillMovesNothing(ConsumerPart(s, now).actions, g, d);
  }

  lemma MousePartMoves(s: State, mouse: MouseFrame, g: int, d: MouseSink.Direction)
    ensures Moved(MousePart(s, mouse).actions, g, d) ==
      if s.hosts.active == Some(g) && CanSend(s.hosts, g, MouseKind) then Along(mouse.movement, d) else 0
  {
    var actions := MousePart(s, mouse).actions;
    if actions != [] {
      assert actions[..0] == [];
    }
  }

  lemma FrameMoves(s: State, keyboard: Option<Keys>, mouse: Option<MouseFrame>, consumer: Option<Option<int>>, g: int,
                   d: MouseSink.Direction)
    ensures Moved(Frame(s, keyboard, mouse, consumer).actions, g, d) == Pointed(s, InputFrame(keyboard, mouse, consumer), g, d)
  {
    var a := if keyboard.Some? then KeyboardPart(s, keyboard.value) else Effect(s, []);
    var b := if mouse.Some? then MousePart(a.state, mouse.value) else Effect(a.state, []);
    var c := if consumer.Some? then ConsumerPart(b.state, consumer.value) else Effect(b.state, []);
    if keyboard.Some? { KeyboardPartIsStill(s, keyboard.value, g, d); }
    if mouse.Some? { MousePartMoves(a.state, mouse.value, g, d); }
    if consumer.Some? { ConsumerPartIsStill(b.state, consumer.value, g, d); }
    MovedAppend(a.actions + b.actions, c.actions, g, d);
    MovedAppend(a.actions, b.actions, g, d);
  }

  lemma TransitionIsStill(s: State, target: int, release: Option<Reason>)
    requires Transition(s, target, release).Done?
    ensures Still(Transition(s, target, release).effect.actions)
  {
    if s.hosts.active != Some(target) {
      var e := Transition(s, target, release).effect;
      assert Still([ActivateInput(target)] + ActiveLeds(e.state) + [PersistProfiles]);
      StillJoin(ReleasesFor(s, release), [ActivateInput(target)] + ActiveLeds(e.state) + [PersistProfiles]);
    }
  }

  lemma ClearedIsStill(s: State, host: int)
    ensures Still(Cleared(s, host).actions)
  {
    var releases := if s.hosts.active == Some(host) then ReleaseReports(s.hosts, host, SafetyRelease) else [];
    var ends := if s.pairable == Some(host) then [RejectPairing(host)] else [];
    StillJoin(ends, ClearActions(s, host));
    StillJoin(releases, ends + ClearActions(s, host));
  }

  lemma DetachedIsStill(s: State, now: Input)
    ensures Still(Detached(s, now).actions) && Still(WithStatus(Detached(s, now)).actions)
  {
  }

  lemma DisconnectedIsStill(s: State, h: int)
    requires Disconnected(s, h).Done?
    ensures Still(Disconnected(s, h).effect.actions)
  {
    if Fallback(s, h).Some? {
      TransitionIsStill(Unlinked(s, h), Fallback(s, h).value, None);
    }
  }

  lemma HarmlessIsStill(s: State, e: Event)
    requires Harmless(e)
    ensures Still(Step(s, e).actions)
  {
  }

  /** Whatever is not a frame moves no pointer: releases and the reports about a
      removal carry no movement. */
  lemma OtherEventsAreStill(s: State, e: Event)
    requires !e.InputFrame?
    ensures Still(Step(s, e).actions)
  {
    if Handle(s, e).Done? {
      match e
      case HostDisconnected(h) => DisconnectedIsStill(s, h);
      case SwitchTarget(h) => TransitionIsStill(s, h, Some(SwitchRelease));
      case ClearHost(h) => ClearedIsStill(s, h);
      case InterfaceRemoved(i, aggregate) => DetachedIsStill(s.(sinks := Unregistered(s.sinks, i)), aggregate);
      case DeviceReset(aggregate) => if aggregate.Some? { DetachedIsStill(s, aggregate.value); }
      case _ => HarmlessIsStill(s, e);
    }
  }

  /** One event moves the pointer of each host exactly as it asks. */
  lemma StepMoves(s: State, e: Event, g: int, d: MouseSink.Direction)
    ensures Moved(Step(s, e).actions, g, d) == Pointed(s, e, g, d)
  {
    match e
    case InputFrame(keyboard, mouse, consumer) => FrameMoves(s, keyboard, mouse, consumer, g, d);
    case _ =>
      OtherEventsAreStill(s, e);
      StillMovesNothing(Step(s, e).actions, g, d);
  }

  // -------------------------------------------------------------------- runs

  function MovedIn(hs: seq<Happening>, g: int, d: MouseSink.Direction): int {
    if hs == [] then 0
    else MovedIn(hs[..|hs| - 1], g, d) + Moved(Next(Run(Initial(), hs[..|hs| - 1]), hs[|hs| - 1]).actions, g, d)
  }

  function PointedIn(hs: seq<Happening>, g: int, d: MouseSink.Direction): int {
    if hs == [] then 0
    else
      var last := hs[|hs| - 1];
      PointedIn(hs[..|hs| - 1], g, d)
      + if last.On? then Pointed(Run(Initial(), hs[..|hs| - 1]), last.event, g, d) else 0
  }

  /** Over every run the reports to a host add up, in every direction, to the frames
      that came while it was active and took mouse reports: none is lost, doubled or
      sent to another host. */
  lemma {:induction false} MovementIsRouted(hs: seq<Happening>, g: int, d: MouseSink.Direction)
    ensures MovedIn(hs, g, d) == PointedIn(hs, g, d)
    decreases |hs|
  {
    if hs != [] {
      var before, last := hs[..|hs| - 1], hs[|hs| - 1];
      MovementIsRouted(before, g, d);
      if last.On? {
        StepMoves(Run(Initial(), before), last.event, g, d);
      }
    }
  }
}
