/** No stuck input, told by the commands of the runtime: over every run, and up to
    exactly those shortcut frames that release something and lose their reports. */
module RuntimeViews {
  import opened Options
  import opened Clock
  import opened StorageImage
  import opened Keyboard
  import InputShortcut
  import opened HostState
  import opened HostMachine
  import HostHistory
  import opened Bridge
  import opened BridgeInput
  import opened Runtime
  import opened RuntimePairing

  // ------------------------------------------------------------------- views

  function ToldBy(v: Input, commands: seq<Command>, g: int): Input
    decreases |commands|
  {
    if commands == [] then v
    else ToldBy(if commands[0].Act? then Told(v, commands[0].action, g) else v, commands[1..], g)
  }

  lemma {:induction false} ToldByActs(v: Input, actions: seq<Action>, g: int)
    ensures ToldBy(v, Acts(actions), g) == Deliver(v, actions, g)
    decreases |actions|
  {
    if actions != [] {
      assert Acts(actions)[1..] == Acts(actions[1..]);
      ToldByActs(Told(v, actions[0], g), actions[1..], g);
    }
  }

  lemma {:induction false} ToldByAppend(v: Input, a: seq<Command>, b: seq<Command>, g: int)
    ensures ToldBy(v, a + b, g) == ToldBy(ToldBy(v, a, g), b, g)
    decreases |a|
  {
    if a == [] {
      assert a + b == b;
    } else {
      assert (a + b)[1..] == a[1..] + b;
      ToldByAppend(if a[0].Act? then Told(v, a[0].action, g) else v, a[1..], b, g);
    }
  }

  /** What host `g` knows after an input. */
  function ViewOf(v: Input, p: Progress, g: int): Input
    requires p.Going?
  {
    Forget(ToldBy(v, p.commands, g), p.runtime.bridge.hosts, g)
  }

  /** The input is refused, or leaves a clean view clean. */
  ghost predicate Keeps(v: Input, p: Progress, g: int) {
    p.Going? ==> Sound(p.runtime.bridge) && Clean(p.runtime.bridge, ViewOf(v, p, g), g)
  }

  // ----------------------------------------------------------- single inputs

  lemma OnBridgeKeeps(r: Runtime, e: Event, v: Input, g: int)
    requires Sound(r.bridge) && Clean(r.bridge, v, g)
    ensures Keeps(v, OnBridge(r, e), g)
  {
    var reply := Handle(r.bridge, e);
    if reply.Done? {
      StepSound(r.bridge, e);
      StepClean(r.bridge, e, v, g);
      ToldByActs(v, reply.effect.actions, g);
    }
  }

  /** Commands that are no actions tell nobody anything. */
  lemma MoreKeeps(v: Input, p: Progress, more: seq<Command>, g: int)
    requires Keeps(v, p, g) && (more == [] || (|more| == 1 && !more[0].Act?))
    ensures Keeps(v, Extended(p, more), g)
    ensures p.Going? ==> ViewOf(v, Extended(p, more), g) == ViewOf(v, p, g)
  {
    if p.Going? {
      ToldByAppend(v, p.commands, more, g);
    }
  }

  lemma RequestKeeps(r: Runtime, target: int, now: nat, v: Input, g: int)
    requires Sound(r.bridge) && Clean(r.bridge, v, g)
    ensures Keeps(v, RequestSwitch(r, target, now), g)
  {
    if r.settings.delay == 0 {
      OnBridgeKeeps(r.(pending := None), SwitchTarget(target), v, g);
    }
  }

  lemma OpenKeeps(r: Runtime, host: int, now: nat, v: Input, g: int)
    requires Sound(r.bridge) && Clean(r.bridge, v, g)
    ensures Keeps(v, OpenWindow(r, host, now), g)
  {
    OnBridgeKeeps(r.(window := Some(Window(host, Later(now, PAIRING_MODE_TIMEOUT)))), Event.EnterPairingMode(host), v, g);
  }

  /** Closing a window tells no computer anything. */
  lemma CloseTellsNothing(r: Runtime, v: Input, g: int)
    requires CloseWindow(r).Going?
    ensures ToldBy(v, CloseWindow(r).commands, g) == v
    ensures var b := CloseWindow(r).runtime.bridge; b.hosts == r.bridge.hosts && b.input == r.bridge.input && b.sinks == r.bridge.sinks
  {
    if r.window.Some? {
      var e := ExpirePairing(r.bridge, r.window.value.host);
      assert Silent(e.actions, g);
      DeliverSilent(v, e.actions, g);
      ToldByActs(v, e.actions, g);
    }
  }

  lemma CloseKeeps(r: Runtime, v: Input, g: int)
    requires Sound(r.bridge) && Clean(r.bridge, v, g)
    ensures Keeps(v, CloseWindow(r), g)
  {
    if CloseWindow(r).Going? {
      CloseTellsNothing(r, v, g);
    }
  }

  lemma TickKeeps(r: Runtime, now: nat, v: Input, g: int)
    requires Sound(r.bridge) && Clean(r.bridge, v, g)
    ensures Keeps(v, OnTick(r, now), g)
  {
    var a := FireSwitch(r.(now := now), now);
    if SwitchDue(r, now) {
      OnBridgeKeeps(r.(now := now, pending := None), SwitchTarget(r.pending.value.target), v, g);
    }
    assert Keeps(v, a, g);
    if a.Going? {
      var b := ExpireWindow(a.runtime, now);
      if b.Going? {
        ToldByAppend(v, a.commands, b.commands, g);
        if WindowDue(a.runtime, now) {
          CloseTellsNothing(a.runtime, ToldBy(v, a.commands, g), g);
        }
      }
    }
  }

  lemma ButtonKeeps(r: Runtime, intent: Intent, now: nat, v: Input, g: int)
    requires Sound(r.bridge) && Clean(r.bridge, v, g)
    ensures Keeps(v, OnButton(r, intent, now), g)
  {
    match ConfiguredIntent(r.settings, intent)
    case None =>
    case Some(NextConnected) =>
      if NextConnectedTarget(r).Some? { RequestKeeps(r, NextConnectedTarget(r).value, now, v, g); }
    case Some(EnterPairingMode) =>
      if PairingCandidate(r.bridge.hosts).Some? { OpenKeeps(r, PairingCandidate(r.bridge.hosts).value, now, v, g); }
    case Some(ClearActiveHost) =>
      if r.bridge.hosts.active.Some? {
        var h := r.bridge.hosts.active.value;
        OnBridgeKeeps(Unwindowed(r, h), ClearHost(h), v, g);
      }
  }

  lemma ManagedKeeps(r: Runtime, i: RuntimeInput, v: Input, g: int)
    requires Sound(r.bridge) && Clean(r.bridge, v, g)
    ensures Keeps(v, Managed(r, i), g)
  {
    match i
    case SelectHost(h, now) => RequestKeeps(r, h, now, v, g);
    case StartPairing(h, now) => OpenKeeps(r, h, now, v, g);
    case CancelPairing => CloseKeeps(r, v, g);
    case ForgetHost(h) => OnBridgeKeeps(r, ClearHost(h), v, g);
    case _ =>
  }

  lemma RegisterKeeps(r: Runtime, x: Interface, v: Input, g: int)
    requires Sound(r.bridge) && Clean(r.bridge, v, g)
    ensures Keeps(v, Register(r, x), g)
  {
    var j := InterfaceIndex(r.interfaces, x.interface);
    var xs := if j >= 0 then r.interfaces[j := x] else r.interfaces + [x];
    OnBridgeKeeps(r.(interfaces := xs), InterfaceConnected(x.interface, x.device, x.hasLeds), v, g);
  }

  lemma UnregisterKeeps(r: Runtime, interface: int, aggregate: Input, idle: bool, v: Input, g: int)
    requires Sound(r.bridge) && Clean(r.bridge, v, g)
    ensures Keeps(v, Unregister(r, interface, aggregate, idle), g)
  {
    var p := OnBridge(Dropped(r, interface), InterfaceRemoved(interface, aggregate));
    OnBridgeKeeps(Dropped(r, interface), InterfaceRemoved(interface, aggregate), v, g);
    MoreKeeps(v, p, if InterfaceIndex(r.interfaces, interface) >= 0 && idle && r.writable then [PersistNow] else [], g);
  }

  lemma NameKeeps(r: Runtime, h: int, name: FixedName, v: Input, g: int)
    requires Sound(r.bridge) && Clean(r.bridge, v, g)
    ensures Keeps(v, Core(r, NameFound(h, name)), g)
  {
    TouchChanges(r.bridge.hosts, h, Discover(name));
    var t := Touch(r.bridge.hosts, h, Discover(name));
    if t.Ok? {
      TableChange(r.bridge, r.bridge.(hosts := t.value), [], v, g);
    }
  }

  lemma RestoreKeepsViews(r: Runtime, stored: seq<StoredHost>, lastActive: Option<int>, settings: Settings, v: Input, g: int)
    requires Sound(r.bridge)
    ensures Keeps(v, OnRestore(r, stored, lastActive, settings), g)
  {
    var target := BootTarget(settings, stored, lastActive);
    RestoredIsDormant(r.bridge, stored, target, v, g);
    assert [SetLogLevel][1..] == [];
  }

  lemma DropKeeps(r: Runtime, h: int, v: Input, g: int)
    requires Sound(r.bridge) && Clean(r.bridge, v, g)
    ensures Keeps(v, Core(r, QuiesceDrop(h)), g)
  {
    TouchChanges(r.bridge.hosts, h, Disconnect);
    UnlinkedForgets(r.bridge, h, v, g);
  }

  /** Every input but a frame with a shortcut keeps a clean view clean. */
  lemma PlainKeeps(r: Runtime, i: RuntimeInput, v: Input, g: int)
    requires Sound(r.bridge) && Clean(r.bridge, v, g)
    requires !(i.OnEvent? && i.event.InputFrame? && i.shortcut)
    ensures Keeps(v, Core(r, i), g)
  {
    match i
    case OnEvent(e, _) => OnBridgeKeeps(r, e, v, g);
    case Button(intent, now) => ButtonKeeps(r, intent, now, v, g);
    case Tick(now) => TickKeeps(r, now, v, g);
    case InterfaceUp(interface, device, hasLeds) => RegisterKeeps(r, Interface(interface, device, hasLeds), v, g);
    case InterfaceDown(interface, aggregate, idle) => UnregisterKeeps(r, interface, aggregate, idle, v, g);
    case Metadata(isNew) => assert [PersistNow][1..] == [];
    case NameFound(h, name) => NameKeeps(r, h, name, v, g);
    case HealthChanged(_) =>
    case RestoreStorage(stored, lastActive, settings) => RestoreKeepsViews(r, stored, lastActive, settings, v, g);
    case QuiescePrepare =>
    case QuiesceDrop(h) => DropKeeps(r, h, v, g);
    case _ =>
      ManagedKeeps(r, i, v, g);
      MoreKeeps(v, Managed(r, i), [Respond], g);
  }

  // ------------------------------------------------------------ shortcut frames

  /** The frame no longer holds something that the view shows, of a kind that is
      in the frame. */
  predicate ReleasesShown(v: Input, e: Event)
    requires e.InputFrame?
  {
    || (e.keyboard.Some? && (|| !(v.keyboard.modifiers <= e.keyboard.value.modifiers)
                             || exists k :: k in v.keyboard.keys && k !in e.keyboard.value.keys))
    || (e.mouse.Some? && !(v.buttons <= e.mouse.value.buttons))
    || (e.consumer.Some? && v.consumer.Some? && v.consumer != e.consumer.value)
  }

  /** The shortcut neither releases at once nor keeps the frame's reports: the
      switch is delayed, or there is no other computer to switch to. */
  predicate DropsReports(r: Runtime) {
    NextConnectedTarget(r).Some? && (r.settings.delay > 0 || NextConnectedTarget(r) == r.bridge.hosts.active)
  }

  /** The input leaves a computer believing that something is held that is not. */
  predicate Sticks(r: Runtime, i: RuntimeInput, v: Input) {
    i.OnEvent? && i.event.InputFrame? && i.shortcut && DropsReports(r) && ReleasesShown(v, i.event)
  }

  lemma FrameGoes(r: Runtime, e: Event)
    requires e.InputFrame?
    ensures OnBridge(r, e).Going?
    ensures var a := OnBridge(r, e).runtime;
      a.bridge.hosts == r.bridge.hosts && a.bridge.sinks == r.bridge.sinks && a.settings == r.settings && a.now == r.now
  {
    FrameOnlyNotifies(r.bridge, e.keyboard, e.mouse, e.consumer);
  }

  /** The input after a frame: the kinds in it are as it says, the others as before. */
  ghost predicate TakesOver(before: Input, now: Input, e: Event)
    requires e.InputFrame?
  {
    && (if e.keyboard.Some?
        then && now.keyboard.modifiers == e.keyboard.value.modifiers
             && forall k :: k in now.keyboard.keys <==> k in e.keyboard.value.keys
        else now.keyboard == before.keyboard)
    && now.buttons == (if e.mouse.Some? then e.mouse.value.buttons else before.buttons)
    && now.consumer == (if e.consumer.Some? then e.consumer.value else before.consumer)
  }

  lemma FrameTakesOver(s: State, e: Event)
    requires e.InputFrame?
    ensures TakesOver(s.input, Frame(s, e.keyboard, e.mouse, e.consumer).state.input, e)
  {
  }

  lemma WithinIff(v: Input, before: Input, now: Input, e: Event)
    requires e.InputFrame? && Within(v, before) && TakesOver(before, now, e)
    ensures Within(v, now) <==> !ReleasesShown(v, e)
  {
  }

  /** What a frame leaves in the view is held exactly if the frame released nothing of it. */
  lemma HeldAfterFrame(s: State, e: Event, v: Input)
    requires e.InputFrame? && Within(v, s.input)
    ensures Within(v, Frame(s, e.keyboard, e.mouse, e.consumer).state.input) <==> !ReleasesShown(v, e)
  {
    FrameTakesOver(s, e);
    WithinIff(v, s.input, Frame(s, e.keyboard, e.mouse, e.consumer).state.input, e);
  }

  /** A switch releases the old target whatever the input is by now. */
  lemma SwitchViews(s: State, target: int, v: Input, g: int)
    requires ForgetsUnready(v, s.hosts, g) && (s.hosts.active != Some(g) ==> v == NEUTRAL)
    requires TransitionWithStatus(s, target, Some(SwitchRelease)).Done?
    ensures var e := TransitionWithStatus(s, target, Some(SwitchRelease)).effect;
      && e.state.input == s.input
      && Deliver(v, e.actions, g) == (if s.hosts.active == Some(target) then v else NEUTRAL)
      && (s.hosts.active == Some(target) ==> e.state == s)
  {
    // The view is clean for a state that holds what the view shows.
    var s0 := s.(input := v);
    assert Transition(s0, target, Some(SwitchRelease)).Done?;
    var e0 := Transition(s0, target, Some(SwitchRelease)).effect;
    var e := Transition(s, target, Some(SwitchRelease)).effect;
    SilentAfter(v, e.actions, [Bridge.Status(e.state)], g);
    if s.hosts.active != Some(target) {
      TransitionDelivers(s0, target, Some(SwitchRelease), v, g);
      assert ReleasesFor(s0, Some(SwitchRelease)) == ReleasesFor(s, Some(SwitchRelease));
      assert ActiveLeds(e0.state) == ActiveLeds(e.state);
      assert e0.actions == e.actions;
    }
  }

  /** The frame is in, its reports are gone, and the switch is asked for. */
  lemma RequestAfterFrame(a: Runtime, target: int, v: Input, g: int)
    requires Sound(a.bridge) && ForgetsUnready(v, a.bridge.hosts, g) && (a.bridge.hosts.active != Some(g) ==> v == NEUTRAL)
    requires RequestSwitch(a, target, a.now).Going?
    ensures var p := RequestSwitch(a, target, a.now);
      var drops := a.settings.delay > 0 || a.bridge.hosts.active == Some(target);
      && Sound(p.runtime.bridge) && p.runtime.bridge.input == a.bridge.input
      && (drops ==> ViewOf(v, p, g) == v && p.runtime.bridge.hosts == a.bridge.hosts)
      && (!drops ==> ViewOf(v, p, g) == NEUTRAL)
  {
    if a.settings.delay == 0 {
      StepSound(a.bridge, SwitchTarget(target));
      var reply := Handle(a.bridge, SwitchTarget(target));
      ToldByActs(v, reply.effect.actions, g);
      SwitchViews(a.bridge, target, v, g);
    }
  }

  lemma DroppingGoes(a: Runtime, target: int)
    requires a.settings.delay > 0 || a.bridge.hosts.active == Some(target)
    ensures RequestSwitch(a, target, a.now).Going?
  {
    if a.settings.delay == 0 {
      var e := WithStatus(Effect(a.bridge, []));
      assert Handle(a.bridge, SwitchTarget(target)) == Done(e);
      assert e.actions == [Bridge.Status(a.bridge)];
    }
  }

  /** With a computer to switch to, the frame's own commands give way to the request. */
  lemma TargetedFrameIff(r: Runtime, e: Event, v: Input, g: int)
    requires Sound(r.bridge) && Clean(r.bridge, v, g) && e.InputFrame? && NextConnectedTarget(r).Some?
    ensures OnBridge(r, e).Going?
    ensures var a, target := OnBridge(r, e).runtime, NextConnectedTarget(r).value;
      && a.settings == r.settings && NextConnectedTarget(a) == Some(target) && OnEventInput(r, e, true) == RequestSwitch(a, target, a.now)
      && Sound(a.bridge) && a.bridge.hosts == r.bridge.hosts
      && (Within(v, a.bridge.input) <==> !ReleasesShown(v, e))
  {
    FrameGoes(r, e);
    OnBridgeKeeps(r, e, v, g);
    HeldAfterFrame(r.bridge, e, v);
  }

  /** A shortcut frame leaves a clean view clean, unless it drops its reports and
      released something that the view shows. A refused one changes nothing. */
  lemma ShortcutFrameIff(r: Runtime, e: Event, v: Input, g: int)
    requires Sound(r.bridge) && Clean(r.bridge, v, g) && e.InputFrame?
    ensures var p := OnEventInput(r, e, true);
      && (DropsReports(r) ==> p.Going? && ViewOf(v, p, g) == v)
      && (p.Going? ==>
            && Sound(p.runtime.bridge)
            && (Clean(p.runtime.bridge, ViewOf(v, p, g), g) <==> !(DropsReports(r) && ReleasesShown(v, e))))
  {
    if NextConnectedTarget(r).Some? {
      var target := NextConnectedTarget(r).value;
      TargetedFrameIff(r, e, v, g);
      var a := OnBridge(r, e).runtime;
      if DropsReports(r) {
        DroppingGoes(a, target);
      }
      if RequestSwitch(a, target, a.now).Going? {
        RequestAfterFrame(a, target, v, g);
      }
    } else {
      FrameGoes(r, e);
      OnBridgeKeeps(r, e, v, g);
    }
  }

  // ------------------------------------------------------------------ all inputs

  lemma CoreIff(r: Runtime, i: RuntimeInput, v: Input, g: int)
    requires Sound(r.bridge) && Clean(r.bridge, v, g) && Core(r, i).Going?
    ensures Sound(Core(r, i).runtime.bridge)
    ensures Clean(Core(r, i).runtime.bridge, ViewOf(v, Core(r, i), g), g) <==> !Sticks(r, i, v)
  {
    if i.OnEvent? && i.event.InputFrame? && i.shortcut {
      ShortcutFrameIff(r, i.event, v, g);
    } else {
      PlainKeeps(r, i, v, g);
    }
  }

  lemma StepIff(r: Runtime, i: RuntimeInput, v: Input, g: int)
    requires Sound(r.bridge) && Clean(r.bridge, v, g)
    ensures Sound(Advance(r, i).runtime.bridge)
    ensures Clean(Advance(r, i).runtime.bridge, ViewOf(v, Advance(r, i), g), g) <==> !Sticks(r, i, v)
  {
    var core := Core(r, i);
    if core.Going? {
      CoreIff(r, i, v, g);
      ReconcileTellsNothing(v, core, g);
    } else {
      RefusedDoesNotStick(r, i, v, g);
    }
  }

  /** The bus command tells no computer anything. */
  lemma ReconcileTellsNothing(v: Input, p: Progress, g: int)
    requires p.Going?
    ensures Reconciled(p).Going? && Reconciled(p).runtime.bridge == p.runtime.bridge
    ensures ViewOf(v, Reconciled(p), g) == ViewOf(v, p, g)
  {
    var power := Reconciled(p).runtime.power;
    var more := if power.suspended != p.runtime.power.suspended then [SetBusSuspended(power.suspended)] else [];
    ToldByAppend(v, p.commands, more, g);
  }

  lemma RefusedDoesNotStick(r: Runtime, i: RuntimeInput, v: Input, g: int)
    requires Sound(r.bridge) && Clean(r.bridge, v, g) && Core(r, i).Refused?
    ensures !Sticks(r, i, v)
  {
    if i.OnEvent? && i.event.InputFrame? && i.shortcut {
      ShortcutFrameIff(r, i.event, v, g);
    }
  }

  // ------------------------------------------------------------------------ runs

  function ViewIn(xs: seq<RuntimeInput>, g: int): Input {
    if xs == [] then NEUTRAL
    else ViewOf(ViewIn(xs[..|xs| - 1], g), Advance(RunInputs(xs[..|xs| - 1]), xs[|xs| - 1]), g)
  }

  /** No computer believes anything stuck, at the start and after every input. */
  predicate CleanThroughout(xs: seq<RuntimeInput>, g: int) {
    Clean(RunInputs(xs).bridge, ViewIn(xs, g), g) && (xs == [] || CleanThroughout(xs[..|xs| - 1], g))
  }

  predicate NeverSticks(xs: seq<RuntimeInput>, g: int) {
    xs == [] ||
    (NeverSticks(xs[..|xs| - 1], g) && !Sticks(RunInputs(xs[..|xs| - 1]), xs[|xs| - 1], ViewIn(xs[..|xs| - 1], g)))
  }

  lemma {:induction false} RunIsSound(xs: seq<RuntimeInput>, g: int)
    requires NeverSticks(xs, g)
    ensures Sound(RunInputs(xs).bridge) && Clean(RunInputs(xs).bridge, ViewIn(xs, g), g)
    decreases |xs|
  {
    if xs == [] {
      HostHistory.NothingAtFirst(None);
    } else {
      RunIsSound(xs[..|xs| - 1], g);
      StepIff(RunInputs(xs[..|xs| - 1]), xs[|xs| - 1], ViewIn(xs[..|xs| - 1], g), g);
    }
  }

  /** No stuck input, for the runtime: over every run, every computer's view stays
      clean if and only if no shortcut frame sticks. */
  lemma {:induction false} NoStuckInputIff(xs: seq<RuntimeInput>, g: int)
    ensures CleanThroughout(xs, g) <==> NeverSticks(xs, g)
    decreases |xs|
  {
    if xs == [] {
      RunIsSound(xs, g);
    } else {
      var before := xs[..|xs| - 1];
      NoStuckInputIff(before, g);
      if NeverSticks(before, g) {
        RunIsSound(before, g);
        StepIff(RunInputs(before), xs[|xs| - 1], ViewIn(before, g), g);
      }
    }
  }

  // ------------------------------------------------------------- a stuck button

  // A run from power-up: one computer connects, pairs, subscribes to mouse reports
  // and is selected; a button goes down; and the frame that completes the shortcut
  // also releases the button.

  function Table(active: Option<int>, h: Host): Hosts {
    Hosts(active, [Some(h), None, None, None])
  }

  /** Powered up, with settings that may have been stored. */
  function Start(st: Settings): Runtime {
    Fresh().(settings := st)
  }

  function With(st: Settings, h: Host): Runtime {
    Start(st).(bridge := Initial().(hosts := Table(None, h)))
  }

  function Linked(): Host {
    NewHost(1).(connected := true)
  }

  function Paired(): Host {
    Linked().(encrypted := true, bonded := true)
  }

  function Subscribed(): Host {
    Paired().(stored := ReportReady(false, true, false, false), session := ReportReady(false, true, false, false))
  }

  function Selected(st: Settings): Runtime {
    Start(st).(bridge := Initial().(hosts := Table(Some(1), Subscribed())))
  }

  function ButtonDown(): Input {
    Input(NO_KEYS, {0}, None)
  }

  function Pressed(st: Settings): Runtime {
    Selected(st).(bridge := Selected(st).bridge.(input := ButtonDown()))
  }

  function PressFrame(): Event {
    InputFrame(None, Some(MouseFrame({0}, NO_MOVEMENT)), None)
  }

  /** What capturing makes of exactly the shortcut being down. */
  function Chord(): InputShortcut.Captured {
    InputShortcut.Capture(InputShortcut.Shortcut({0}, 14), true, Keys({0}, [14]))
  }

  function ReleaseFrame(): Event {
    InputFrame(Some(Chord().frame), Some(MouseFrame({}, NO_MOVEMENT)), None)
  }

  lemma ChordTriggers()
    ensures Chord().triggered && Chord().frame == NO_KEYS
  {
    assert Drop([14], [14]) == [] by { assert [14][1..] == []; }
  }

  lemma TouchOnly(active: Option<int>, h: Host, c: HostChange)
    requires h.id == 1 && !c.Disconnect?
    ensures Touch(Table(active, h), 1, c) == Ok(Table(active, Changed(h, c))) && HostOrNew(Table(active, h), 1) == h
  {
    var hs := Table(active, h);
    assert Find(hs.slots, 1) == 0;
    assert hs.slots[0 := Some(Changed(h, c))] == Table(active, Changed(h, c)).slots;
  }

  /** With nothing plugged in, an event's commands are all there is. */
  lemma AdvanceIs(r: Runtime, e: Event, shortcut: bool)
    requires r.interfaces == [] && r.power == Power(false, None)
    requires OnEventInput(r, e, shortcut).Going?
    requires var p := OnEventInput(r, e, shortcut).runtime; p.interfaces == r.interfaces && p.power == r.power
    ensures Advance(r, OnEvent(e, shortcut)) == OnEventInput(r, e, shortcut)
  {
    var p := OnEventInput(r, e, shortcut);
    assert p.commands + [] == p.commands;
  }

  lemma ConnectStep(st: Settings)
    ensures Advance(Start(st), OnEvent(HostConnected(1), false)).runtime == With(st, Linked())
  {
    FirstConnect();
    assert !Persists(NewHost(1), Connect);
    AdvanceIs(Start(st), HostConnected(1), false);
  }

  lemma FirstConnect()
    ensures Touch(NoHosts(), 1, Connect) == Ok(Table(None, Linked())) && HostOrNew(NoHosts(), 1) == NewHost(1)
  {
    assert Find(NoHosts().slots, 1) == -1 && FirstFree(NoHosts().slots) == 0;
    var u := Upsert(NoHosts(), 1).value;
    assert u.slots == Table(None, NewHost(1)).slots;
    TouchOnly(None, NewHost(1), Connect);
    assert Changed(NewHost(1), Connect) == Linked();
  }

  lemma PairStep(st: Settings)
    ensures Advance(With(st, Linked()), OnEvent(HostSecurityChanged(1, true, true, None), false)).runtime == With(st, Paired())
  {
    TouchOnly(None, Linked(), Secure(true, true, None));
    assert Changed(Linked(), Secure(true, true, None)) == Paired();
    AdvanceIs(With(st, Linked()), HostSecurityChanged(1, true, true, None), false);
  }

  lemma SubscribeStep(st: Settings)
    ensures Advance(With(st, Paired()), OnEvent(CccdChanged(1, MouseKind, true), false)).runtime == With(st, Subscribed())
  {
    TouchOnly(None, Paired(), Cccd(MouseKind, true));
    assert Changed(Paired(), Cccd(MouseKind, true)) == Subscribed();
    AdvanceIs(With(st, Paired()), CccdChanged(1, MouseKind, true), false);
  }

  lemma SelectStep(st: Settings)
    ensures Advance(With(st, Subscribed()), OnEvent(SwitchTarget(1), false)).runtime == Selected(st)
  {
    var hs := Table(None, Subscribed());
    assert Find(hs.slots, 1) == 0;
    assert Activate(hs, 1) == Ok(Table(Some(1), Subscribed()));
    AdvanceIs(With(st, Subscribed()), SwitchTarget(1), false);
  }

  lemma MouseReady()
    ensures CanSend(Table(Some(1), Subscribed()), 1, MouseKind)
    ensures !CanSend(Table(Some(1), Subscribed()), 1, KeyboardKind) && !CanSend(Table(Some(1), Subscribed()), 1, ConsumerKind)
  {
    assert Find(Table(Some(1), Subscribed()).slots, 1) == 0;
  }

  lemma PressStep(st: Settings)
    ensures var p := OnBridge(Selected(st), PressFrame());
      && p.Going? && p.runtime == Pressed(st) && ViewOf(NEUTRAL, p, 1) == ButtonDown()
      && Advance(Selected(st), OnEvent(PressFrame(), false)) == p
  {
    MouseReady();
    var a := Notify(1, MouseReport({0}, NO_MOVEMENT), Edge);
    var f := Frame(Selected(st).bridge, None, Some(MouseFrame({0}, NO_MOVEMENT)), None);
    var none: set<nat> := {};
    assert none * {0} == {} && {0} - none == {0} && none != {0};
    var part := MousePart(Selected(st).bridge, MouseFrame({0}, NO_MOVEMENT));
    assert part.actions == [a];
    assert f.actions == [] + part.actions + [];
    assert f.state == Pressed(st).bridge;
    AdvanceIs(Selected(st), PressFrame(), false);
    DeliverOne(NEUTRAL, a, 1);
    ToldByActs(NEUTRAL, f.actions, 1);
  }

  lemma OnlyTarget()
    ensures NextConnectedTarget(Pressed(DEFAULT_SETTINGS)) == Some(1)
  {
    var slots := Table(Some(1), Subscribed()).slots;
    assert Candidate(slots, 0, Wanted.AnyConnected);
    assert !Candidate(slots, 1, Wanted.AnyConnected) && !Candidate(slots, 2, Wanted.AnyConnected) && !Candidate(slots, 3, Wanted.AnyConnected);
    assert FirstCandidate(slots, Wanted.AnyConnected, 0) == 0;
    assert FirstCandidate(slots, Wanted.AnyConnected, 1) == -1;
  }

  /** After these six inputs no button is held, and the computer believes that one is. */
  lemma ShortcutSticksButton()
    ensures var r4 := Advance(Advance(Advance(Advance(Fresh(), OnEvent(HostConnected(1), false)).runtime,
                                              OnEvent(HostSecurityChanged(1, true, true, None), false)).runtime,
                                      OnEvent(CccdChanged(1, MouseKind, true), false)).runtime,
                              OnEvent(SwitchTarget(1), false)).runtime;
      var press := Advance(r4, OnEvent(PressFrame(), false));
      var v := ViewOf(NEUTRAL, press, 1);
      var last := Advance(press.runtime, OnEvent(ReleaseFrame(), Chord().triggered));
      && v.buttons == {0} && press.runtime.bridge.input.buttons == {0}
      && ViewOf(v, last, 1).buttons == {0} && last.runtime.bridge.input.buttons == {}
  {
    assert Start(DEFAULT_SETTINGS) == Fresh();
    ConnectStep(DEFAULT_SETTINGS);
    PairStep(DEFAULT_SETTINGS);
    SubscribeStep(DEFAULT_SETTINGS);
    SelectStep(DEFAULT_SETTINGS);
    PressStep(DEFAULT_SETTINGS);
    StickStep();
  }

  lemma ReleaseIsTaken()
    ensures OnBridge(Pressed(DEFAULT_SETTINGS), ReleaseFrame()).Going?
    ensures var a := OnBridge(Pressed(DEFAULT_SETTINGS), ReleaseFrame()).runtime;
      && a.bridge.input.buttons == {} && a.bridge.hosts == Pressed(DEFAULT_SETTINGS).bridge.hosts && a.now == 0
      && a.interfaces == [] && a.power == Power(false, None) && a.settings == DEFAULT_SETTINGS
  {
    FrameGoes(Pressed(DEFAULT_SETTINGS), ReleaseFrame());
    FrameTakesOver(Pressed(DEFAULT_SETTINGS).bridge, ReleaseFrame());
  }

  lemma ReleaseIsDropped()
    ensures OnBridge(Pressed(DEFAULT_SETTINGS), ReleaseFrame()).Going?
    ensures var a := OnBridge(Pressed(DEFAULT_SETTINGS), ReleaseFrame()).runtime;
      OnEventInput(Pressed(DEFAULT_SETTINGS), ReleaseFrame(), true) == Going(a.(pending := Some(Pending(1, 20))), [])
  {
    ReleaseIsTaken();
    OnlyTarget();
    var a := OnBridge(Pressed(DEFAULT_SETTINGS), ReleaseFrame()).runtime;
    assert NextConnectedTarget(a) == Some(1);
    assert RequestSwitch(a, 1, 0) == Going(a.(pending := Some(Pending(1, 20))), []);
  }

  lemma StickStep()
    ensures var last := Advance(Pressed(DEFAULT_SETTINGS), OnEvent(ReleaseFrame(), Chord().triggered));
      ViewOf(ButtonDown(), last, 1) == ButtonDown() && last.runtime.bridge.input.buttons == {}
  {
    ChordTriggers();
    MouseReady();
    ReleaseIsTaken();
    ReleaseIsDropped();
    AdvanceIs(Pressed(DEFAULT_SETTINGS), ReleaseFrame(), true);
  }
}
