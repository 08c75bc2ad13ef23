/** What the runtime promises about time and settings: delayed switches, pairing
    windows, the button and the boot target. */
module RuntimeTimers {
  import opened Options
  import opened Bits
  import opened Clock
  import opened StorageImage
  import opened HostState
  import opened HostMachine
  import HostHistory
  import opened Bridge
  import opened BridgeInput
  import opened BridgeTargets
  import opened Runtime
  import opened RuntimePairing
  import opened RuntimeSafety
  import opened RuntimeViews

  lemma AdvanceStaysSound(r: Runtime, i: RuntimeInput)
    requires Sound(r.bridge)
    ensures Sound(Advance(r, i).runtime.bridge)
  {
    RuntimeViews.StepIff(r, i, NEUTRAL, 0);
  }

  // --------------------------------------------------------- delayed switches

  /** The input asks for a switch. */
  predicate AsksForSwitch(r: Runtime, i: RuntimeInput) {
    match i
    case OnEvent(e, shortcut) => e.InputFrame? && shortcut && NextConnectedTarget(r).Some?
    case Button(intent, _) => ConfiguredIntent(r.settings, intent) == Some(NextConnected)
    case SelectHost(_, _) => true
    case _ => false
  }

  lemma DispatchKeepsPending(r: Runtime, actions: seq<Action>)
    ensures Dispatch(r, actions).Going? ==>
      var r' := Dispatch(r, actions).runtime;
      r'.pending == r.pending && r'.settings == r.settings && r'.now == r.now && r'.writable == r.writable && r'.bridge == r.bridge
  {
  }

  lemma OnBridgeKeepsPending(r: Runtime, e: Event)
    ensures OnBridge(r, e).Going? ==>
      var r' := OnBridge(r, e).runtime;
      r'.pending == r.pending && r'.settings == r.settings && r'.now == r.now && r'.writable == r.writable
      && r'.bridge == Step(r.bridge, e).state
  {
    var reply := Handle(r.bridge, e);
    if reply.Done? {
      DispatchKeepsPending(Observed(r, e).(bridge := reply.effect.state), reply.effect.actions);
    }
  }

  lemma ButtonKeepsPending(r: Runtime, intent: Intent, now: nat)
    requires ConfiguredIntent(r.settings, intent) != Some(NextConnected)
    ensures OnButton(r, intent, now).Going? ==> OnButton(r, intent, now).runtime.pending == r.pending
  {
    match ConfiguredIntent(r.settings, intent)
    case None =>
    case Some(EnterPairingMode) =>
      var host := PairingCandidate(r.bridge.hosts);
      if host.Some? { OpenKeepsPending(r, host.value, now); }
    case Some(ClearActiveHost) =>
      if r.bridge.hosts.active.Some? {
        OnBridgeKeepsPending(Unwindowed(r, r.bridge.hosts.active.value), ClearHost(r.bridge.hosts.active.value));
      }
  }

  lemma OpenKeepsPending(r: Runtime, host: int, now: nat)
    ensures OpenWindow(r, host, now).Going? ==> OpenWindow(r, host, now).runtime.pending == r.pending
  {
    OnBridgeKeepsPending(r.(window := Some(Window(host, Later(now, PAIRING_MODE_TIMEOUT)))), Event.EnterPairingMode(host));
  }

  lemma CloseKeepsPending(r: Runtime)
    ensures CloseWindow(r).Going? ==>
      CloseWindow(r).runtime.pending == r.pending && CloseWindow(r).runtime.bridge.hosts == r.bridge.hosts
  {
    if r.window.Some? {
      OnBridgeKeepsPending(r.(window := None), PairingModeExpired(r.window.value.host));
    }
  }

  lemma ManagedKeepsPending(r: Runtime, i: RuntimeInput)
    requires !i.SelectHost?
    ensures Managed(r, i).Going? ==> Managed(r, i).runtime.pending == r.pending
  {
    match i
    case StartPairing(h, now) => OpenKeepsPending(r, h, now);
    case CancelPairing => CloseKeepsPending(r);
    case ForgetHost(h) => OnBridgeKeepsPending(r, ClearHost(h));
    case _ =>
  }

  /** An input that asks for no switch, and is no tick at which one is due, leaves the
      switch that waits alone. */
  lemma PendingWaits(r: Runtime, i: RuntimeInput)
    requires !AsksForSwitch(r, i) && !(i.Tick? && SwitchDue(r, i.now))
    ensures Advance(r, i).runtime.pending == r.pending
  {
    match i
    case OnEvent(e, shortcut) =>
      OnBridgeKeepsPending(r, e);
      if e.InputFrame? && shortcut { FrameGoes(r, e); }
    case Button(intent, now) => ButtonKeepsPending(r, intent, now);
    case Tick(now) => CloseKeepsPending(r.(now := now));
    case InterfaceUp(interface, device, hasLeds) => RegisterKeepsPending(r, Interface(interface, device, hasLeds));
    case InterfaceDown(interface, aggregate, idle) =>
      OnBridgeKeepsPending(Dropped(r, interface), InterfaceRemoved(interface, aggregate));
    case _ => ManagedKeepsPending(r, i);
  }

  lemma RegisterKeepsPending(r: Runtime, x: Interface)
    ensures Register(r, x).Going? ==> Register(r, x).runtime.pending == r.pending
  {
    var at := InterfaceIndex(r.interfaces, x.interface);
    var xs := if at >= 0 then r.interfaces[at := x] else r.interfaces + [x];
    OnBridgeKeepsPending(r.(interfaces := xs), InterfaceConnected(x.interface, x.device, x.hasLeds));
  }

  ghost predicate WaitsThrough(r: Runtime, xs: seq<RuntimeInput>)
    decreases |xs|
  {
    xs == [] ||
    (!AsksForSwitch(r, xs[0]) && !(xs[0].Tick? && SwitchDue(r, xs[0].now))
     && WaitsThrough(Advance(r, xs[0]).runtime, xs[1..]))
  }

  function AdvanceAll(r: Runtime, xs: seq<RuntimeInput>): Runtime
    decreases |xs|
  {
    if xs == [] then r else AdvanceAll(Advance(r, xs[0]).runtime, xs[1..])
  }

  lemma {:induction false} PendingLasts(r: Runtime, xs: seq<RuntimeInput>)
    requires Sound(r.bridge) && WaitsThrough(r, xs)
    ensures Sound(AdvanceAll(r, xs).bridge) && AdvanceAll(r, xs).pending == r.pending
    decreases |xs|
  {
    if xs != [] {
      AdvanceStaysSound(r, xs[0]);
      PendingWaits(r, xs[0]);
      PendingLasts(Advance(r, xs[0]).runtime, xs[1..]);
    }
  }

  /** A tick before the time switches nothing. */
  lemma EarlyTickKeepsTarget(r: Runtime, now: nat)
    requires Sound(r.bridge) && !SwitchDue(r, now)
    ensures Advance(r, Tick(now)).runtime.bridge.hosts == r.bridge.hosts
  {
    CloseKeepsPending(r.(now := now));
  }

  /** A tick from the time on makes the target active, or is refused as a whole. */
  lemma DueTickSwitches(r: Runtime, now: nat)
    requires Synced(r) && Sound(r.bridge) && SwitchDue(r, now)
    ensures var r', target := Advance(r, Tick(now)).runtime, r.pending.value.target;
      if CanSwitch(r, target) then r'.bridge.hosts.active == Some(target) && r'.pending.None? else r' == r
  {
    TickClosesWindow(r, now);
    var r0 := r.(now := now, pending := None);
    SwitchRefused(r0, r.pending.value.target);
    OnBridgeKeepsPending(r0, SwitchTarget(r.pending.value.target));
    OthersKeepTarget(r0.bridge, SwitchTarget(r.pending.value.target));
    var a := FireSwitch(r.(now := now), now);
    if a.Going? {
      CloseKeepsPending(a.runtime);
    }
  }

  /** A switch that is asked for with a delay waits for exactly that long, through
      every run of inputs that ask for no other: ticks before that change no target,
      and the first one after it makes the switch if it can be made. */
  lemma DelayedSwitch(r: Runtime, target: int, asked: nat, xs: seq<RuntimeInput>, now: nat)
    requires Sound(r.bridge) && r.settings.delay > 0 && asked + r.settings.delay <= TIME_MAX
    requires WaitsThrough(RequestSwitch(r, target, asked).runtime, xs)
    requires Synced(AdvanceAll(RequestSwitch(r, target, asked).runtime, xs))
    ensures var r1 := AdvanceAll(RequestSwitch(r, target, asked).runtime, xs);
      var r2 := Advance(r1, Tick(now)).runtime;
      && RequestSwitch(r, target, asked).runtime.bridge == r.bridge
      && (now < asked + r.settings.delay ==> r2.bridge.hosts.active == r1.bridge.hosts.active)
      && (now >= asked + r.settings.delay ==>
            if CanSwitch(r1, target) then r2.bridge.hosts.active == Some(target) && r2.pending.None? else r2 == r1)
  {
    var r0 := RequestSwitch(r, target, asked).runtime;
    PendingLasts(r0, xs);
    var r1 := AdvanceAll(r0, xs);
    if now < asked + r.settings.delay {
      EarlyTickKeepsTarget(r1, now);
    } else {
      DueTickSwitches(r1, now);
    }
  }

  // ------------------------------------------------------------------ windows

  /** A pairing window is open for exactly a minute: no tick closes it earlier (and
      when one does later is the matter of `TickClosesWindow`). */
  lemma WindowStaysOpen(r: Runtime, host: int, from: nat, now: nat)
    requires Synced(r) && Sound(r.bridge) && r.window == Some(Window(host, from + 60_000)) && now < from + 60_000
    ensures Advance(r, Tick(now)).runtime.window == r.window
  {
    if SwitchDue(r, now) {
      var r0 := r.(now := now, pending := None);
      if OnBridge(r0, SwitchTarget(r.pending.value.target)).Going? {
        SwitchKeepsWindow(r0, r.pending.value.target);
      }
    }
  }

  lemma SwitchKeepsWindow(r: Runtime, target: int)
    requires Synced(r) && OnBridge(r, SwitchTarget(target)).Going?
    ensures OnBridge(r, SwitchTarget(target)).runtime.window == r.window
  {
    StatusTellsPairable(r.bridge, SwitchTarget(target));
    var e := Step(r.bridge, SwitchTarget(target));
    assert e.state.pairable == r.bridge.pairable;
    if r.window.Some? {
      forall i | 0 <= i < |e.actions| ensures !EndsWindow(e.actions[i]) {
        assert e.actions[i].StatusChanged? ==> e.actions[i].pairable == r.bridge.pairable;
      }
    }
  }

  lemma OpeningWindow(r: Runtime, host: int, now: nat)
    requires OpenWindow(r, host, now).Going? && now + 60_000 <= TIME_MAX
    ensures var r' := OpenWindow(r, host, now).runtime;
      && r'.window == Some(Window(host, now + 60_000)) && r'.bridge.pairable == Some(host)
      && r'.bridge.hosts == r.bridge.hosts && r'.pending == r.pending
  {
    var r0 := r.(window := Some(Window(host, Later(now, PAIRING_MODE_TIMEOUT))));
    OnBridgeKeepsPending(r0, Event.EnterPairingMode(host));
    var e := EnterPairing(r.bridge, host);
    StatusTellsPairable(r.bridge, Event.EnterPairingMode(host));
    forall i | 0 <= i < |e.actions| ensures !EndsWindow(e.actions[i]) {
      assert e.actions[i].StatusChanged? ==> e.actions[i].pairable == Some(host);
    }
  }

  // ------------------------------------------------------------------- button

  /** The number configured for a press: short, long or very long. */
  predicate Configured(s: Settings, intent: Intent, n: nat) {
    n == (if intent.NextConnected? then s.short else if intent.EnterPairingMode? then s.long else s.veryLong)
  }

  /** Number 1 goes to the next connected computer, at once or after the delay, and
      touches nothing else. */
  lemma ButtonSwitches(r: Runtime, intent: Intent, now: nat)
    requires Sound(r.bridge) && Configured(r.settings, intent, 1) && OnButton(r, intent, now).Going?
    ensures var r', next := OnButton(r, intent, now).runtime, NextConnectedTarget(r);
      && (next.None? ==> r' == r)
      && (next.Some? && r.settings.delay == 0 ==> r'.bridge.hosts.active == next && r'.pending.None?)
      && (next.Some? && r.settings.delay > 0 ==>
            r' == r.(pending := Some(Pending(next.value, Later(now, r.settings.delay)))))
      && (forall g :: Lookup(r'.bridge.hosts, g) == Lookup(r.bridge.hosts, g))
  {
    var next := NextConnectedTarget(r);
    if next.Some? && r.settings.delay == 0 {
      NextIsKnown(r.bridge.hosts);
      OnBridgeKeepsPending(r.(pending := None), SwitchTarget(next.value));
      OthersKeepTarget(r.bridge, SwitchTarget(next.value));
      ActivateChanges(r.bridge.hosts, next.value);
    }
  }

  lemma NextIsKnown(hs: Hosts)
    requires WellFormed(hs) && NextTarget(hs, hs.active, AnyConnected).Some?
    ensures var next := NextTarget(hs, hs.active, AnyConnected).value; ValidId(next) && Lookup(hs, next).Some?
  {
    var i := NextSlot(hs.slots, hs.active, AnyConnected);
    assert Holds(hs.slots, i, hs.slots[i].value.id);
  }

  /** Number 2 opens a window for a computer without a bond, and forgets nobody. */
  lemma ButtonPairs(r: Runtime, intent: Intent, now: nat)
    requires Configured(r.settings, intent, 2) && OnButton(r, intent, now).Going? && now + 60_000 <= TIME_MAX
    ensures var r', host := OnButton(r, intent, now).runtime, PairingCandidate(r.bridge.hosts);
      && r'.bridge.hosts == r.bridge.hosts && r'.pending == r.pending
      && (host.None? ==> r' == r)
      && (host.Some? ==> !HasBond(r.bridge.hosts, host.value) && r'.window == Some(Window(host.value, now + 60_000)))
  {
    var host := PairingCandidate(r.bridge.hosts);
    if host.Some? {
      OpeningWindow(r, host.value, now);
    }
  }

  /** Number 3 forgets the active computer and no other, and opens no window. */
  lemma ButtonForgets(r: Runtime, intent: Intent, now: nat)
    requires Sound(r.bridge) && Configured(r.settings, intent, 3) && OnButton(r, intent, now).Going?
    ensures var r', active := OnButton(r, intent, now).runtime, r.bridge.hosts.active;
      && (active.None? ==> r' == r)
      && (active.Some? ==> Lookup(r'.bridge.hosts, active.value).None?)
      && (forall g :: active != Some(g) ==> Lookup(r'.bridge.hosts, g) == Lookup(r.bridge.hosts, g))
      && (r'.window == r.window || r'.window.None?) && r'.pending == r.pending
  {
    if r.bridge.hosts.active.Some? {
      var h := r.bridge.hosts.active.value;
      OnBridgeKeepsPending(Unwindowed(r, h), ClearHost(h));
      RemoveChanges(r.bridge.hosts, h);
    }
  }

  /** Any other number does nothing. */
  lemma ButtonIgnores(r: Runtime, intent: Intent, now: nat, n: nat)
    requires Configured(r.settings, intent, n) && (n == 0 || n > 3)
    ensures OnButton(r, intent, now) == Going(r, [])
  {
  }

  /** As delivered: a short press switches, a long one pairs, a very long one forgets. */
  lemma DefaultButton()
    ensures Configured(DEFAULT_SETTINGS, NextConnected, 1)
    ensures Configured(DEFAULT_SETTINGS, Intent.EnterPairingMode, 2)
    ensures Configured(DEFAULT_SETTINGS, ClearActiveHost, 3)
  {
  }

  /** The next connected computer is the one met first when going round the table from
      the active one, or from the top when that is not connected. */
  lemma NextConnectedIsNearest(r: Runtime)
    ensures var slots := r.bridge.hosts.slots;
      var c := CurrentSlot(slots, r.bridge.hosts.active, AnyConnected);
      && (NextConnectedTarget(r).None? <==>
            forall i :: 0 <= i < |slots| ==> !(slots[i].Some? && slots[i].value.connected))
      && (NextConnectedTarget(r).Some? ==>
            exists i :: 0 <= i < |slots| && slots[i].Some? && slots[i].value.connected
              && NextConnectedTarget(r) == Some(slots[i].value.id)
              && forall j :: 0 <= j < |slots| && slots[j].Some? && slots[j].value.connected ==>
                   StepsRound(c, i, |slots|) <= StepsRound(c, j, |slots|))
      && (c >= 0 ==> slots[c].Some? && slots[c].value.connected && Some(slots[c].value.id) == r.bridge.hosts.active)
      && (c < 0 && r.bridge.hosts.active.Some? ==>
            Lookup(r.bridge.hosts, r.bridge.hosts.active.value).None?
            || !Lookup(r.bridge.hosts, r.bridge.hosts.active.value).value.connected)
  {
    var slots := r.bridge.hosts.slots;
    NextIsNearest(slots, r.bridge.hosts.active, AnyConnected);
    assert forall i :: Candidate(slots, i, AnyConnected) <==>
      0 <= i < |slots| && slots[i].Some? && slots[i].value.connected;
  }

  /** The shortcut asks for the next connected computer, as of the runtime's clock; the
      frame that completes it is taken in first. */
  lemma ShortcutSwitches(r: Runtime, e: Event)
    requires Sound(r.bridge) && e.InputFrame? && Core(r, OnEvent(e, true)).Going?
    ensures var r', next := Core(r, OnEvent(e, true)).runtime, NextConnectedTarget(r);
      && (next.None? ==> r'.bridge.hosts == r.bridge.hosts && r'.pending == r.pending)
      && (next.Some? && r.settings.delay == 0 ==> r'.bridge.hosts.active == next && r'.pending.None?)
      && (next.Some? && r.settings.delay > 0 ==>
            r'.pending == Some(Pending(next.value, Later(r.now, r.settings.delay))) && r'.bridge.hosts == r.bridge.hosts)
  {
    FrameGoes(r, e);
    OnBridgeKeepsPending(r, e);
    StepSound(r.bridge, e);
    var a := OnBridge(r, e).runtime;
    assert NextConnectedTarget(a) == NextConnectedTarget(r);
    if NextConnectedTarget(r).Some? && r.settings.delay == 0 {
      var target := NextConnectedTarget(r).value;
      NextIsKnown(r.bridge.hosts);
      OnBridgeKeepsPending(a.(pending := None), SwitchTarget(target));
      OthersKeepTarget(a.bridge, SwitchTarget(target));
    }
  }

  // --------------------------------------------------------------------- boot

  lemma {:induction false} RestoreKeepsActive(hs: Hosts, stored: seq<StoredHost>)
    ensures RestoreHosts(hs, stored).active == hs.active
    decreases |stored|
  {
    if stored != [] {
      var u := Upsert(hs, stored[0].hostId);
      if u.Ok? && Find(u.value.slots, stored[0].hostId) >= 0 {
        RestoreKeepsActive(Put(u.value, Revived(stored[0])), stored[1..]);
      }
    }
  }

  /** After boot the configured computer is active if it is stored; without one it is
      the last active computer if that is to be restored; else there is none. */
  lemma BootPicksTarget(r: Runtime, stored: seq<StoredHost>, lastActive: Option<int>, st: Settings)
    requires forall i :: 0 <= i < |stored| ==> ValidId(stored[i].hostId)
    ensures var r' := Advance(r, RestoreStorage(stored, lastActive, st)).runtime;
      var active := r'.bridge.hosts.active;
      && (st.bootTarget != 0 && (exists i :: 0 <= i < |stored| && stored[i].hostId == st.bootTarget) ==>
            active == Some(st.bootTarget))
      && (st.bootTarget != 0 && (forall i :: 0 <= i < |stored| ==> stored[i].hostId != st.bootTarget) ==> active.None?)
      && (st.bootTarget == 0 ==> active == if st.restoreLast then lastActive else None)
      && r'.settings == st && r'.window.None? && r'.bridge.pairable.None?
  {
    RestoreKeepsActive(NoHosts().(active := BootTarget(st, stored, lastActive)), stored);
  }
}
