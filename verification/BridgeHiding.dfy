/** What was held across a target switch stays hidden until it is released. */
module BridgeHiding {
  import opened Options
  import opened StorageImage
  import opened Keyboard
  import opened HostState
  import opened HostMachine
  import HostHistory
  import opened Bridge
  import opened BridgeInput

  // --------------------------------------------------- nothing hidden is shown

  /** The view shows nothing that is hidden. */
  predicate Apart(v: Input, hidden: Input) {
    && v.keyboard.modifiers !! hidden.keyboard.modifiers
    && (forall k :: k in v.keyboard.keys ==> k !in hidden.keyboard.keys)
    && v.buttons !! hidden.buttons
    && (v.consumer.None? || v.consumer != hidden.consumer)
  }

  /** While a computer is active, only held input is hidden; and what is hidden
      is not shown. */
  predicate Hides(s: State, v: Input) {
    (s.hosts.active.Some? ==> Within(s.hidden, s.input)) && Apart(v, s.hidden)
  }

  lemma ForgetApart(v: Input, hidden: Input, hosts: Hosts, g: int)
    requires Apart(v, hidden)
    ensures Apart(Forget(v, hosts, g), hidden)
  {
  }

  lemma KeyboardPartHides(s: State, now: Keys, v: Input, g: int)
    requires Clean(s, v, g) && Hides(s, v)
    ensures var e := KeyboardPart(s, now); Hides(e.state, Deliver(v, e.actions, g))
  {
    var down := Snapshot(s.input.keyboard, now);
    var hidden := HiddenKeys(s.hidden.keyboard, down);
    var reason := if KeyReleased(s.input.keyboard, down) then Release else Plain;
    ReadyDelivers(v, s, KeyboardKind, KeyboardReport(Shown(down, hidden)), reason, g);
  }

  lemma MousePartHides(s: State, mouse: MouseFrame, v: Input, g: int)
    requires Clean(s, v, g) && Hides(s, v)
    ensures var e := MousePart(s, mouse); Hides(e.state, Deliver(v, e.actions, g))
  {
    var hidden := s.hidden.buttons * mouse.buttons;
    var reason := if s.input.buttons != mouse.buttons then Edge else Plain;
    ReadyDelivers(v, s, MouseKind, MouseReport(mouse.buttons - hidden, mouse.movement), reason, g);
  }

  lemma ConsumerPartHides(s: State, now: Option<int>, v: Input, g: int)
    requires Clean(s, v, g) && Hides(s, v)
    ensures var e := ConsumerPart(s, now); Hides(e.state, Deliver(v, e.actions, g))
  {
    var hidden := StillHiddenUsage(s.hidden.consumer, now);
    var reason := if s.input.consumer.Some? && now.None? then Release else Plain;
    ReadyDelivers(v, s, ConsumerKind, ConsumerReport(VisibleUsage(now, hidden)), reason, g);
  }

  lemma FrameHides(s: State, keyboard: Option<Keys>, mouse: Option<MouseFrame>, consumer: Option<Option<int>>, v: Input, g: int)
    requires Clean(s, v, g) && Hides(s, v)
    ensures var e := Frame(s, keyboard, mouse, consumer); Hides(e.state, ViewAfter(v, e, g))
  {
    var a := if keyboard.Some? then KeyboardPart(s, keyboard.value) else Effect(s, []);
    var b := if mouse.Some? then MousePart(a.state, mouse.value) else Effect(a.state, []);
    var c := if consumer.Some? then ConsumerPart(b.state, consumer.value) else Effect(b.state, []);
    var va := Deliver(v, a.actions, g);
    var vb := Deliver(va, b.actions, g);
    if keyboard.Some? { KeyboardPartClean(s, keyboard.value, v, g); KeyboardPartHides(s, keyboard.value, v, g); }
    if mouse.Some? { MousePartClean(a.state, mouse.value, va, g); MousePartHides(a.state, mouse.value, va, g); }
    if consumer.Some? { ConsumerPartHides(b.state, consumer.value, vb, g); }
    DeliverAppend(v, a.actions + b.actions, c.actions, g);
    DeliverAppend(v, a.actions, b.actions, g);
    ForgetApart(Deliver(v, a.actions + b.actions + c.actions, g), c.state.hidden, c.state.hosts, g);
  }

  /** The unfiltered consumer report on a removal is right, because only held
      usages are hidden. */
  lemma DetachViewApart(hosts: Hosts, before: Input, now: Input, hidden: Input, v: Input, g: int)
    requires Within(hidden, before) && Apart(v, hidden)
    ensures var hidden' := HiddenAfterDetach(hidden, now);
      Within(hidden', now) && Apart(DetachView(hosts, before, now, hidden', v, g), hidden')
  {
  }

  lemma DetachedHides(s: State, now: Input, v: Input, g: int)
    requires Clean(s, v, g) && Hides(s, v)
    ensures var e := Detached(s, now); Hides(e.state, ViewAfter(v, e, g)) && Hides(e.state, ViewAfter(v, WithStatus(e), g))
  {
    DetachedView(s, now, v, g);
    if s.hosts.active.Some? {
      DetachViewApart(s.hosts, s.input, now, s.hidden, v, g);
    }
  }

  // ------------------------------------------------------------ captures

  /** A new target starts with everything held hidden. */
  lemma SwitchCaptures(s: State, e: Event)
    requires Sound(s) && Step(s, e).state.hosts.active.Some?
    requires Step(s, e).state.hosts.active != s.hosts.active
    ensures Step(s, e).state.hidden == s.input && Step(s, e).state.input == s.input
  {
    if Harmless(e) {
      HarmlessStep(s, e, 0);
    } else if e.HostDisconnected? {
      TouchChanges(s.hosts, e.host, Disconnect);
    } else if e.ClearHost? {
      RemoveChanges(s.hosts, e.host);
    }
  }

  /** An event other than a frame or a removal keeps both input and what is
      hidden, unless it changes the target. */
  lemma KeepsHidden(s: State, e: Event)
    requires Sound(s) && !e.InputFrame? && !e.InterfaceRemoved? && !e.DeviceReset?
    ensures Step(s, e).state.input == s.input
    ensures Step(s, e).state.hidden == s.hidden || Step(s, e).state.hidden == s.input
    ensures Step(s, e).state.hosts.active == s.hosts.active ==> Step(s, e).state.hidden == s.hidden
  {
    if Harmless(e) {
      HarmlessStep(s, e, 0);
    } else if e.HostDisconnected? {
      TouchChanges(s.hosts, e.host, Disconnect);
      if Fallback(s, e.host).Some? {
        ActivateChanges(Unlinked(s, e.host).hosts, Fallback(s, e.host).value);
      }
    } else if e.SwitchTarget? {
      ActivateChanges(s.hosts, e.host);
    }
  }

  lemma StepHides(s: State, e: Event, v: Input, g: int)
    requires Sound(s) && Clean(s, v, g) && Hides(s, v)
    ensures Hides(Step(s, e).state, ViewAfter(v, Step(s, e), g))
  {
    match e
    case InputFrame(keyboard, mouse, consumer) => FrameHides(s, keyboard, mouse, consumer, v, g);
    case InterfaceRemoved(i, aggregate) => DetachedHides(s.(sinks := Unregistered(s.sinks, i)), aggregate, v, g);
    case DeviceReset(aggregate) =>
      if aggregate.Some? { DetachedHides(s, aggregate.value, v, g); }
    case _ =>
      KeepsHidden(s, e);
      QuietView(s, e, v, g);
      ForgetApart(v, s.hidden, Step(s, e).state.hosts, g);
  }

  /** An event that is no frame and no removal leaves a view as it was, up to
      what is forgotten, or makes it neutral; a new target makes it neutral. */
  lemma QuietView(s: State, e: Event, v: Input, g: int)
    requires Sound(s) && Clean(s, v, g) && !e.InputFrame? && !e.InterfaceRemoved? && !e.DeviceReset?
    ensures var r := Step(s, e);
      && (r.state.hosts.active.Some? ==> r.state.hosts.active == s.hosts.active || r.state.hidden == s.input)
      && (|| ViewAfter(v, r, g) == NEUTRAL
          || (ViewAfter(v, r, g) == Forget(v, r.state.hosts, g) && r.state.hidden == s.hidden))
  {
    if Handle(s, e).Failed? || Harmless(e) {
      if Harmless(e) { HarmlessStep(s, e, g); }
      TableChange(s, Step(s, e).state, Step(s, e).actions, v, g);
    } else {
      if Step(s, e).state.hosts.active.Some? && Step(s, e).state.hosts.active != s.hosts.active {
        SwitchCaptures(s, e);
      }
      match e
      case HostDisconnected(h) => DisconnectedClean(s, h, v, g);
      case ClearHost(h) => ClearedClean(s, h, v, g);
      case SwitchTarget(h) => TransitionClean(s, h, Some(SwitchRelease), v, g);
    }
  }

  // ----------------------------------------------------------------- runs

  /** The bridge as it is after the boot restore. */
  function Booted(stored: seq<StoredHost>, lastActive: Option<int>): State {
    Restored(Initial(), stored, lastActive)
  }

  /** What can happen between two restarts, but for the capture before a quiesce. */
  predicate Ordinary(h: Happening) {
    h.On? || h.NameDiscovered? || h.LinkDropped?
  }

  /** In every run after boot, a computer is shown only what is held and not
      hidden, and only held input is hidden while a computer is active. */
  lemma {:induction false} OnlyVisibleShown(stored: seq<StoredHost>, lastActive: Option<int>, hs: seq<Happening>, g: int)
    requires forall i :: 0 <= i < |hs| ==> Ordinary(hs[i])
    ensures var s, v := Run(Booted(stored, lastActive), hs), View(Booted(stored, lastActive), hs, g);
      && Sound(s) && Clean(s, v, g) && Hides(s, v)
    decreases |hs|
  {
    var boot := Booted(stored, lastActive);
    if hs == [] {
      HostHistory.NothingAtFirst(None);
      RestoredIsDormant(Initial(), stored, lastActive, NEUTRAL, g);
    } else {
      var before, h := hs[..|hs| - 1], hs[|hs| - 1];
      OnlyVisibleShown(stored, lastActive, before, g);
      var s, v := Run(boot, before), View(boot, before, g);
      NextClean(s, h, v, g);
      if h.On? {
        StepHides(s, h.event, v, g);
      } else {
        TouchChanges(s.hosts, h.host, if h.LinkDropped? then Disconnect else Discover(h.name));
        ForgetApart(v, s.hidden, Next(s, h).state.hosts, g);
      }
    }
  }

  /** Only held input is hidden while a computer is active, and that in every run
      between two restores, the captures before a quiesce included. */
  lemma {:induction false} HiddenIsHeld(stored: seq<StoredHost>, lastActive: Option<int>, hs: seq<Happening>)
    requires forall i :: 0 <= i < |hs| ==> !hs[i].StorageRestored?
    ensures var s := Run(Booted(stored, lastActive), hs);
      Sound(s) && (s.hosts.active.Some? ==> Within(s.hidden, s.input))
    decreases |hs|
  {
    var boot := Booted(stored, lastActive);
    if hs == [] {
      HostHistory.NothingAtFirst(None);
      RestoredIsDormant(Initial(), stored, lastActive, NEUTRAL, 0);
    } else {
      var before, h := hs[..|hs| - 1], hs[|hs| - 1];
      HiddenIsHeld(stored, lastActive, before);
      var s := Run(boot, before);
      NeutralIsClean(s);
      NextClean(s, h, NEUTRAL, 0);
      match h
      case On(e) => StepHides(s, e, NEUTRAL, 0);
      case PrepareForQuiesce =>
      case LinkDropped(host) => TouchChanges(s.hosts, host, Disconnect);
      case NameDiscovered(host, name) => TouchChanges(s.hosts, host, Discover(name));
    }
  }

  lemma NeutralIsClean(s: State)
    ensures Clean(s, NEUTRAL, 0) && Apart(NEUTRAL, s.hidden)
  {
  }

  // --------------------------------------------------- exactly what is hidden

  function After(s: State, es: seq<Event>): State {
    if es == [] then s else Step(After(s, es[..|es| - 1]), es[|es| - 1]).state
  }

  /** The same computer stays active during the events. */
  ghost predicate Steady(s: State, es: seq<Event>, t: int) {
    forall i :: 0 <= i <= |es| ==> After(s, es[..i]).hosts.active == Some(t)
  }

  /** What one event leaves hidden. */
  ghost predicate HiddenFollows(hidden: Input, now: Input, hidden': Input) {
    && hidden'.buttons == hidden.buttons * now.buttons
    && hidden'.keyboard.modifiers == hidden.keyboard.modifiers * now.keyboard.modifiers
    && (forall k :: k in hidden.keyboard.keys && k in now.keyboard.keys ==> k in hidden'.keyboard.keys)
    && hidden'.consumer == StillHiddenUsage(hidden.consumer, now.consumer)
  }

  lemma HiddenStep(s: State, e: Event, t: int)
    requires Sound(s) && Within(s.hidden, s.input)
    requires s.hosts.active == Some(t) && Step(s, e).state.hosts.active == Some(t)
    ensures var s' := Step(s, e).state; HiddenFollows(s.hidden, s'.input, s'.hidden) && Within(s'.hidden, s'.input)
  {
    match e
    case InputFrame(keyboard, mouse, consumer) => FrameHiddenStep(s, keyboard, mouse, consumer);
    case InterfaceRemoved(_, aggregate) =>
    case DeviceReset(aggregate) =>
    case _ => KeepsHidden(s, e);
  }

  lemma FrameHiddenStep(s: State, keyboard: Option<Keys>, mouse: Option<MouseFrame>, consumer: Option<Option<int>>)
    requires Within(s.hidden, s.input)
    ensures var s' := Frame(s, keyboard, mouse, consumer).state;
      HiddenFollows(s.hidden, s'.input, s'.hidden) && Within(s'.hidden, s'.input)
  {
  }

  /** The aggregates seen during the events, from the first state on. */
  function Inputs(s: State, es: seq<Event>): seq<Input> {
    if es == [] then [s.input] else Inputs(s, es[..|es| - 1]) + [After(s, es).input]
  }

  predicate ButtonHeld(xs: seq<Input>, b: nat) {
    forall i :: 0 <= i < |xs| ==> b in xs[i].buttons
  }

  predicate ModifierHeld(xs: seq<Input>, m: nat) {
    forall i :: 0 <= i < |xs| ==> m in xs[i].keyboard.modifiers
  }

  predicate KeyHeld(xs: seq<Input>, k: int) {
    forall i :: 0 <= i < |xs| ==> k in xs[i].keyboard.keys
  }

  predicate UsageHeld(xs: seq<Input>, usage: Option<int>) {
    forall i :: 0 <= i < |xs| ==> xs[i].consumer == usage
  }

  /** Hidden is exactly what is held in all of `xs`, where the first one is
      what was captured. */
  ghost predicate HidesHeld(hidden: Input, xs: seq<Input>, captured: Input) {
    && (forall b :: b in hidden.buttons <==> ButtonHeld(xs, b))
    && (forall m :: m in hidden.keyboard.modifiers <==> ModifierHeld(xs, m))
    && (forall k :: KeyHeld(xs, k) ==> k in hidden.keyboard.keys)
    && hidden.consumer == if UsageHeld(xs, captured.consumer) then captured.consumer else None
  }

  lemma HeldSplits(xs: seq<Input>, now: Input)
    ensures forall b :: ButtonHeld(xs + [now], b) <==> ButtonHeld(xs, b) && b in now.buttons
    ensures forall m :: ModifierHeld(xs + [now], m) <==> ModifierHeld(xs, m) && m in now.keyboard.modifiers
    ensures forall k :: KeyHeld(xs + [now], k) <==> KeyHeld(xs, k) && k in now.keyboard.keys
    ensures forall u :: UsageHeld(xs + [now], u) <==> UsageHeld(xs, u) && now.consumer == u
  {
    var all := xs + [now];
    assert all[|xs|] == now && forall i :: 0 <= i < |xs| ==> all[i] == xs[i];
  }

  lemma HidesOneMore(hidden: Input, xs: seq<Input>, captured: Input, now: Input, hidden': Input)
    requires HidesHeld(hidden, xs, captured) && HiddenFollows(hidden, now, hidden')
    ensures HidesHeld(hidden', xs + [now], captured)
  {
    HeldSplits(xs, now);
  }

  lemma SteadyBefore(s: State, es: seq<Event>, t: int)
    requires es != [] && Steady(s, es, t)
    ensures Steady(s, es[..|es| - 1], t)
    ensures After(s, es[..|es| - 1]).hosts.active == Some(t) && After(s, es).hosts.active == Some(t)
  {
    var before := es[..|es| - 1];
    assert es[..|es|] == es && es[..|before|] == before;
    forall i | 0 <= i <= |before| ensures After(s, before[..i]).hosts.active == Some(t) {
      assert before[..i] == es[..i];
    }
  }

  /** Held-input suppression: from the capture on, while the target stays, what is
      hidden is what was held then and has been held in every aggregate since. */
  lemma {:induction false} HeldStaysHidden(s: State, es: seq<Event>, t: int)
    requires Sound(s) && s.hidden == s.input && Steady(s, es, t)
    ensures Sound(After(s, es)) && Within(After(s, es).hidden, After(s, es).input)
    ensures HidesHeld(After(s, es).hidden, Inputs(s, es), s.input)
    decreases |es|
  {
    if es == [] {
      assert [s.input][0] == s.input;
    } else {
      var before, e := es[..|es| - 1], es[|es| - 1];
      SteadyBefore(s, es, t);
      HeldStaysHidden(s, before, t);
      StepSound(After(s, before), e);
      HiddenStep(After(s, before), e, t);
      HidesOneMore(After(s, before).hidden, Inputs(s, before), s.input, After(s, es).input, After(s, es).hidden);
    }
  }

  /** The same from the capture before links go down on purpose: what is held then
      stays hidden from the active computer until it is released. */
  lemma QuiesceHides(s: State, es: seq<Event>, t: int)
    requires Sound(s) && Steady(Next(s, PrepareForQuiesce).state, es, t)
    ensures var start := Next(s, PrepareForQuiesce).state;
      HidesHeld(After(start, es).hidden, Inputs(start, es), s.input)
  {
    HeldStaysHidden(Next(s, PrepareForQuiesce).state, es, t);
  }

  lemma KeyboardShows(s: State, now: Keys, v: Input, t: int)
    requires ReadyTarget(s, KeyboardKind) == Some(t)
    ensures var e := KeyboardPart(s, now);
      Deliver(v, e.actions, t) == v.(keyboard := Visible(e.state.input.keyboard, e.state.hidden.keyboard))
  {
    var down := Snapshot(s.input.keyboard, now);
    var still := StillHidden(s.hidden.keyboard, down);
    HideAfterFits(still.keys, down.keys, 0, VISIBLE_MAX);
    var hidden := HiddenKeys(s.hidden.keyboard, down);
    var reason := if KeyReleased(s.input.keyboard, down) then Release else Plain;
    ReadyDelivers(v, s, KeyboardKind, KeyboardReport(Shown(down, hidden)), reason, t);
  }

  /** What a frame tells a ready active computer: exactly what is held and not
      hidden, for every kind in the frame, and no report is cut off. */
  lemma FrameShows(s: State, e: Event, v: Input, t: int)
    requires e.InputFrame? && s.hosts.active == Some(t)
    ensures var r := Step(s, e);
      var v' := ViewAfter(v, r, t);
      && (e.keyboard.Some? && CanSend(s.hosts, t, KeyboardKind) ==>
            v'.keyboard == Visible(r.state.input.keyboard, r.state.hidden.keyboard) && |v'.keyboard.keys| <= VISIBLE_MAX)
      && (e.mouse.Some? && CanSend(s.hosts, t, MouseKind) ==>
            v'.buttons == r.state.input.buttons - r.state.hidden.buttons)
      && (e.consumer.Some? && CanSend(s.hosts, t, ConsumerKind) ==>
            v'.consumer == VisibleUsage(r.state.input.consumer, r.state.hidden.consumer))
  {
    var a := if e.keyboard.Some? then KeyboardPart(s, e.keyboard.value) else Effect(s, []);
    var b := if e.mouse.Some? then MousePart(a.state, e.mouse.value) else Effect(a.state, []);
    var c := if e.consumer.Some? then ConsumerPart(b.state, e.consumer.value) else Effect(b.state, []);
    var va := Deliver(v, a.actions, t);
    var vb := Deliver(va, b.actions, t);
    DeliverAppend(v, a.actions + b.actions, c.actions, t);
    DeliverAppend(v, a.actions, b.actions, t);
    if e.keyboard.Some? && CanSend(s.hosts, t, KeyboardKind) { KeyboardShows(s, e.keyboard.value, v, t); }
    MousePartOnly(a.state, e.mouse, va, t);
    ConsumerPartOnly(b.state, e.consumer, vb, t);
  }

  lemma MousePartOnly(s: State, mouse: Option<MouseFrame>, v: Input, t: int)
    ensures var e := if mouse.Some? then MousePart(s, mouse.value) else Effect(s, []);
      Deliver(v, e.actions, t) ==
        if mouse.Some? && ReadyTarget(s, MouseKind) == Some(t)
        then v.(buttons := e.state.input.buttons - e.state.hidden.buttons) else v
  {
    if mouse.Some? {
      var hidden := s.hidden.buttons * mouse.value.buttons;
      var reason := if s.input.buttons != mouse.value.buttons then Edge else Plain;
      ReadyDelivers(v, s, MouseKind, MouseReport(mouse.value.buttons - hidden, mouse.value.movement), reason, t);
    }
  }

  lemma ConsumerPartOnly(s: State, now: Option<Option<int>>, v: Input, t: int)
    ensures var e := if now.Some? then ConsumerPart(s, now.value) else Effect(s, []);
      Deliver(v, e.actions, t) ==
        if now.Some? && ReadyTarget(s, ConsumerKind) == Some(t)
        then v.(consumer := VisibleUsage(e.state.input.consumer, e.state.hidden.consumer)) else v
  {
    if now.Some? {
      var hidden := StillHiddenUsage(s.hidden.consumer, now.value);
      var reason := if s.input.consumer.Some? && now.value.None? then Release else Plain;
      ReadyDelivers(v, s, ConsumerKind, ConsumerReport(VisibleUsage(now.value, hidden)), reason, t);
    }
  }

  /** A switch to `t`, and then events during which `t` stays active. */
  ghost predicate SwitchedTo(s: State, switch: Event, es: seq<Event>, t: int) {
    Sound(s) && s.hosts.active != Some(t) && Steady(Step(s, switch).state, es, t)
  }

  lemma SwitchedHides(s: State, switch: Event, es: seq<Event>, t: int)
    requires SwitchedTo(s, switch, es, t)
    ensures var start := Step(s, switch).state;
      && start.input == s.input && Sound(After(start, es)) && After(start, es).hosts.active == Some(t)
      && HidesHeld(After(start, es).hidden, Inputs(start, es), s.input)
  {
    var start := Step(s, switch).state;
    assert es[..0] == [] && es[..|es|] == es;
    assert After(start, es[..0]).hosts.active == Some(t) && After(start, es[..|es|]).hosts.active == Some(t);
    SwitchCaptures(s, switch);
    StepSound(s, switch);
    HeldStaysHidden(start, es, t);
  }

  /** The reports after a switch: of the buttons held now, the computer is told
      exactly those that were not held all the time since the switch; the usage
      is told unless it is the one held all the time. */
  lemma SwitchedReport(s: State, switch: Event, es: seq<Event>, frame: Event, v: Input, t: int)
    requires SwitchedTo(s, switch, es + [frame], t) && frame.InputFrame?
    ensures var start := Step(s, switch).state;
      var last, xs := After(start, es), Inputs(start, es + [frame]);
      var v' := ViewAfter(v, Step(last, frame), t);
      && (frame.mouse.Some? && CanSend(last.hosts, t, MouseKind) ==>
            forall b :: b in v'.buttons <==> b in frame.mouse.value.buttons && !ButtonHeld(xs, b))
      && (frame.consumer.Some? && CanSend(last.hosts, t, ConsumerKind) ==>
            v'.consumer == if UsageHeld(xs, s.input.consumer) then None else frame.consumer.value)
  {
    var start := Step(s, switch).state;
    var all := es + [frame];
    assert all[..|all| - 1] == es;
    SteadyBefore(start, all, t);
    SwitchedHides(s, switch, es, t);
    SwitchedHides(s, switch, all, t);
    var last, xs := After(start, es), Inputs(start, all);
    assert After(start, all) == Step(last, frame).state;
    FrameShows(last, frame, v, t);
    FrameInput(last, frame);
    LastUsage(Inputs(start, es), After(start, all).input, s.input.consumer);
  }

  lemma FrameInput(s: State, e: Event)
    requires e.InputFrame?
    ensures e.mouse.Some? ==> Step(s, e).state.input.buttons == e.mouse.value.buttons
    ensures e.consumer.Some? ==> Step(s, e).state.input.consumer == e.consumer.value
  {
  }

  lemma LastUsage(xs: seq<Input>, now: Input, u: Option<int>)
    ensures UsageHeld(xs + [now], u) ==> now.consumer == u
  {
    assert (xs + [now])[|xs|] == now;
  }
}
