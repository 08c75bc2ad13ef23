/** The firmware's own way through the runtime: messages are handled in place, and
    a message that fails is rolled back, except for input frames. There only the
    outboxes are cleared, so a shortcut frame whose switch is refused leaves the
    new input and the new target behind and loses every report. */
module RuntimeOwner {
  import opened Options
  import opened Clock
  import opened StorageImage
  import opened Keyboard
  import opened HostState
  import opened HostMachine
  import HostHistory
  import opened Bridge
  import opened BridgeInput
  import opened Runtime
  import opened RuntimePairing
  import opened RuntimeSafety
  import opened RuntimeViews

  predicate ShortcutFrame(i: RuntimeInput) {
    i.OnEvent? && i.event.InputFrame? && i.shortcut
  }

  /** What a refused shortcut frame leaves: the frame is in, and the bridge has made
      the switch whose commands could not be dispatched. */
  function HalfDone(r: Runtime, e: Event): Runtime {
    var a := OnBridge(r, e);
    if a.Refused? || NextConnectedTarget(a.runtime).None? then r
    else
      var reply := Handle(a.runtime.bridge, SwitchTarget(NextConnectedTarget(a.runtime).value));
      if reply.Failed? then a.runtime.(pending := None, bridge := a.runtime.bridge.(hidden := a.runtime.bridge.input))
      else a.runtime.(pending := None, bridge := reply.effect.state)
  }

  /** One message. A plain frame takes the fast path, which leaves the bus alone. */
  function Serve(r: Runtime, i: RuntimeInput): (p: Progress)
    ensures p.Going?
  {
    if i.OnEvent? && i.event.InputFrame? && !i.shortcut then
      FrameGoes(r, i.event);
      OnBridge(r, i.event)
    else if ShortcutFrame(i) && Process(r, i).Refused? then Going(HalfDone(r, i.event), [])
    else Advance(r, i)
  }

  /** The switch would change the target and cannot be dispatched. */
  predicate RefusesSwitch(r: Runtime) {
    && NextConnectedTarget(r).Some? && r.settings.delay == 0 && NextConnectedTarget(r) != r.bridge.hosts.active
    && !(r.writable && LedsKnown(r))
  }

  /** What a message leaves stuck: as before, and everything that the old target
      was shown when its releases are lost. */
  predicate SticksInPlace(r: Runtime, i: RuntimeInput, v: Input) {
    Sticks(r, i, v) || (ShortcutFrame(i) && RefusesSwitch(r) && v != NEUTRAL)
  }

  lemma TargetIsValid(r: Runtime)
    requires Sound(r.bridge) && NextConnectedTarget(r).Some?
    ensures ValidId(NextConnectedTarget(r).value)
  {
  }

  /** A shortcut frame is refused exactly when its switch is. */
  lemma FrameRefusedIff(r: Runtime, e: Event)
    requires Sound(r.bridge) && e.InputFrame?
    ensures Process(r, OnEvent(e, true)).Refused? <==> RefusesSwitch(r)
  {
    FrameGoes(r, e);
    OnBridgeKeeps(r, e, NEUTRAL, 0);
    var a := OnBridge(r, e).runtime;
    assert NextConnectedTarget(a) == NextConnectedTarget(r);
    if NextConnectedTarget(r).Some? && r.settings.delay == 0 {
      var target := NextConnectedTarget(r).value;
      TargetIsValid(r);
      FrameKeepsKnown(r, e);
      SwitchRefused(a.(pending := None), target);
    }
  }

  lemma FrameKeepsKnown(r: Runtime, e: Event)
    requires Sound(r.bridge) && e.InputFrame?
    ensures OnBridge(r, e).Going?
    ensures var a := OnBridge(r, e).runtime;
      Sound(a.bridge) && a.writable == r.writable && (LedsKnown(a.(pending := None)) <==> LedsKnown(r))
  {
    FrameGoes(r, e);
    StepSound(r.bridge, e);
  }

  /** After a refusal the target is new and nobody was told anything. */
  lemma HalfDoneIs(r: Runtime, e: Event)
    requires Sound(r.bridge) && e.InputFrame? && RefusesSwitch(r)
    ensures var s := HalfDone(r, e).bridge;
      && Sound(s) && s.hosts.active == NextConnectedTarget(r)
      && forall g :: Lookup(s.hosts, g) == Lookup(r.bridge.hosts, g)
  {
    FrameGoes(r, e);
    var a := OnBridge(r, e).runtime;
    var target := NextConnectedTarget(r).value;
    assert NextConnectedTarget(a) == Some(target);
    TargetIsValid(r);
    StepSound(r.bridge, e);
    StepSound(a.bridge, SwitchTarget(target));
    ActivateChanges(a.bridge.hosts, target);
    TargetIsKnown(r);
  }

  lemma TargetIsKnown(r: Runtime)
    requires Sound(r.bridge) && NextConnectedTarget(r).Some?
    ensures Lookup(r.bridge.hosts, NextConnectedTarget(r).value).Some?
  {
    var i := NextSlot(r.bridge.hosts.slots, r.bridge.hosts.active, Wanted.AnyConnected);
    assert Holds(r.bridge.hosts.slots, i, NextConnectedTarget(r).value);
  }

  /** A refused shortcut frame leaves a view clean exactly if it shows nothing. */
  lemma RefusedFrameIff(r: Runtime, e: Event, v: Input, g: int)
    requires Sound(r.bridge) && Clean(r.bridge, v, g) && e.InputFrame? && RefusesSwitch(r)
    ensures var p := Going(HalfDone(r, e), []);
      && Sound(p.runtime.bridge)
      && (Clean(p.runtime.bridge, ViewOf(v, p, g), g) <==> v == NEUTRAL)
  {
    HalfDoneIs(r, e);
    var s := HalfDone(r, e).bridge;
    assert Forget(v, s.hosts, g) == v;
  }

  lemma ServeIff(r: Runtime, i: RuntimeInput, v: Input, g: int)
    requires Sound(r.bridge) && Clean(r.bridge, v, g)
    ensures Sound(Serve(r, i).runtime.bridge)
    ensures Clean(Serve(r, i).runtime.bridge, ViewOf(v, Serve(r, i), g), g) <==> !SticksInPlace(r, i, v)
  {
    if i.OnEvent? && i.event.InputFrame? && !i.shortcut {
      FrameGoes(r, i.event);
      OnBridgeKeeps(r, i.event, v, g);
    } else {
      RuntimeViews.StepIff(r, i, v, g);
      if ShortcutFrame(i) {
        FrameRefusedIff(r, i.event);
        if RefusesSwitch(r) {
          RefusedFrameIff(r, i.event, v, g);
        }
      }
    }
  }

  // ------------------------------------------------------------------- runs

  function Served(xs: seq<RuntimeInput>): Runtime {
    if xs == [] then Fresh() else Serve(Served(xs[..|xs| - 1]), xs[|xs| - 1]).runtime
  }

  function ViewServed(xs: seq<RuntimeInput>, g: int): Input {
    if xs == [] then NEUTRAL
    else ViewOf(ViewServed(xs[..|xs| - 1], g), Serve(Served(xs[..|xs| - 1]), xs[|xs| - 1]), g)
  }

  predicate CleanWhileServing(xs: seq<RuntimeInput>, g: int) {
    Clean(Served(xs).bridge, ViewServed(xs, g), g) && (xs == [] || CleanWhileServing(xs[..|xs| - 1], g))
  }

  predicate NeverSticksInPlace(xs: seq<RuntimeInput>, g: int) {
    xs == [] ||
    (NeverSticksInPlace(xs[..|xs| - 1], g)
     && !SticksInPlace(Served(xs[..|xs| - 1]), xs[|xs| - 1], ViewServed(xs[..|xs| - 1], g)))
  }

  lemma {:induction false} ServedIsSound(xs: seq<RuntimeInput>, g: int)
    requires NeverSticksInPlace(xs, g)
    ensures Sound(Served(xs).bridge) && Clean(Served(xs).bridge, ViewServed(xs, g), g)
    decreases |xs|
  {
    if xs == [] {
      HostHistory.NothingAtFirst(None);
    } else {
      ServedIsSound(xs[..|xs| - 1], g);
      ServeIff(Served(xs[..|xs| - 1]), xs[|xs| - 1], ViewServed(xs[..|xs| - 1], g), g);
    }
  }

  /** No stuck input on the firmware's path: over every run every computer's view
      stays clean if and only if no shortcut frame sticks, dropped or refused. */
  lemma {:induction false} NoStuckInputInPlaceIff(xs: seq<RuntimeInput>, g: int)
    ensures CleanWhileServing(xs, g) <==> NeverSticksInPlace(xs, g)
    decreases |xs|
  {
    if xs == [] {
      ServedIsSound(xs, g);
    } else {
      var before := xs[..|xs| - 1];
      NoStuckInputInPlaceIff(before, g);
      if NeverSticksInPlace(before, g) {
        ServedIsSound(before, g);
        ServeIff(Served(before), xs[|xs| - 1], ViewServed(before, g), g);
      }
    }
  }

  // ----------------------------------------------------- a refused switch, in a run

  // The run of the stuck button with no switch delay, a second computer that
  // connects, and storage that stops being writable. Chord and frames are as there.

  const NO_DELAY := Settings(0, true, 0, 1, 2, 3)

  function TwoHosts(): Hosts {
    Hosts(Some(1), [Some(Subscribed()), Some(NewHost(2).(connected := true)), None, None])
  }

  function Joined(): Runtime {
    Pressed(NO_DELAY).(bridge := Pressed(NO_DELAY).bridge.(hosts := TwoHosts()))
  }

  lemma SettingsStep()
    ensures Serve(Fresh(), RestoreStorage([], None, NO_DELAY)).runtime == Start(NO_DELAY)
  {
    assert BootTarget(NO_DELAY, [], None) == None;
    assert HostState.Restore([], None) == NoHosts();
  }

  lemma JoinStep()
    ensures Serve(Pressed(NO_DELAY), OnEvent(HostConnected(2), false)).runtime == Joined()
  {
    var hs := Table(Some(1), Subscribed());
    assert Find(hs.slots, 2) == -1 && FirstFree(hs.slots) == 1;
    var u := Upsert(hs, 2).value;
    assert u.slots == [Some(Subscribed()), Some(NewHost(2)), None, None];
    assert Find(u.slots, 2) == 1;
    assert Changed(NewHost(2), Connect) == NewHost(2).(connected := true);
    assert u.slots[1 := Some(NewHost(2).(connected := true))] == TwoHosts().slots;
    assert Touch(hs, 2, Connect) == Ok(TwoHosts());
    assert !Persists(NewHost(2), Connect);
    AdvanceIs(Pressed(NO_DELAY), HostConnected(2), false);
  }

  lemma SecondIsNext()
    ensures NextConnectedTarget(Joined()) == Some(2) && Sound(Joined().bridge)
    ensures CanSend(TwoHosts(), 1, MouseKind) && !CanSend(TwoHosts(), 1, KeyboardKind) && !CanSend(TwoHosts(), 1, ConsumerKind)
  {
    var slots := TwoHosts().slots;
    assert Find(slots, 1) == 0;
    assert Candidate(slots, 0, Wanted.AnyConnected) && Candidate(slots, 1, Wanted.AnyConnected);
    assert FirstCandidate(slots, Wanted.AnyConnected, 1) == 1;
  }

  /** The switch is made, its releases are lost, and the first computer goes on
      believing that the button is down, though it is no longer the active one. */
  lemma RefusedSwitchSticksButton()
    ensures var r1 := Serve(Fresh(), RestoreStorage([], None, NO_DELAY)).runtime;
      var r2 := Serve(r1, OnEvent(HostConnected(1), false)).runtime;
      var r3 := Serve(r2, OnEvent(HostSecurityChanged(1, true, true, None), false)).runtime;
      var r4 := Serve(r3, OnEvent(CccdChanged(1, MouseKind, true), false)).runtime;
      var r5 := Serve(r4, OnEvent(SwitchTarget(1), false)).runtime;
      var press := Serve(r5, OnEvent(PressFrame(), false));
      var r7 := Serve(press.runtime, OnEvent(HostConnected(2), false)).runtime;
      var r8 := Serve(r7, HealthChanged(false)).runtime;
      var last := Serve(r8, OnEvent(ReleaseFrame(), Chord().triggered));
      && ViewOf(NEUTRAL, press, 1).buttons == {0}
      && last.commands == [] && last.runtime.bridge.hosts.active == Some(2)
      && ViewOf(ButtonDown(), last, 1).buttons == {0}
  {
    SettingsStep();
    ConnectStep(NO_DELAY);
    PairStep(NO_DELAY);
    SubscribeStep(NO_DELAY);
    SelectStep(NO_DELAY);
    PressStep(NO_DELAY);
    JoinStep();
    HealthStep();
    RefusedStep();
  }

  lemma HealthStep()
    ensures Serve(Joined(), HealthChanged(false)).runtime == Joined().(writable := false)
  {
  }

  lemma RefusedStep()
    ensures var last := Serve(Joined().(writable := false), OnEvent(ReleaseFrame(), Chord().triggered));
      && last.commands == [] && last.runtime.bridge.hosts.active == Some(2)
      && ViewOf(ButtonDown(), last, 1).buttons == {0}
  {
    var r := Joined().(writable := false);
    ChordTriggers();
    SecondIsNext();
    assert NextConnectedTarget(r) == Some(2);
    assert RefusesSwitch(r);
    FrameRefusedIff(r, ReleaseFrame());
    HalfDoneIs(r, ReleaseFrame());
    var s := HalfDone(r, ReleaseFrame()).bridge;
    assert Lookup(s.hosts, 1) == Lookup(TwoHosts(), 1);
  }
}
