/** What the requests over the management channel do, and that profiles are persisted
    when they change. */
module RuntimeManagement {
  import opened Options
  import opened Clock
  import opened StorageImage
  import opened HostState
  import opened HostMachine
  import opened Bridge
  import opened BridgeInput
  import opened BridgeTargets
  import opened Runtime
  import opened RuntimePairing
  import opened RuntimeTimers

  predicate Request(i: RuntimeInput) {
    i.SelectHost? || i.StartPairing? || i.CancelPairing? || i.ForgetHost?
  }

  /** Every request that goes through is answered, once and last. */
  lemma RequestIsAnswered(r: Runtime, i: RuntimeInput)
    requires Request(i) && Core(r, i).Going?
    ensures var cs := Core(r, i).commands;
      cs != [] && cs[|cs| - 1] == Respond && forall k :: 0 <= k < |cs| - 1 ==> cs[k] != Respond
  {
    NoAnswerInside(r, i);
  }

  lemma NoAnswerInside(r: Runtime, i: RuntimeInput)
    ensures Managed(r, i).Going? ==> forall c :: c in Managed(r, i).commands ==> c != Respond
  {
  }

  /** The number is one of a computer with an entry. */
  predicate Known(r: Runtime, h: int) {
    1 <= h <= 4 && Lookup(r.bridge.hosts, h).Some?
  }

  /** Selecting a known computer while storage can be written makes it active, at once
      or after the delay; otherwise nothing changes. */
  lemma SelectingSwitches(r: Runtime, h: int, now: nat)
    requires Sound(r.bridge) && Core(r, SelectHost(h, now)).Going?
    ensures var r' := Core(r, SelectHost(h, now)).runtime;
      && (!(r.writable && Known(r, h)) ==> r' == r)
      && (r.writable && Known(r, h) && r.settings.delay == 0 ==> r'.bridge.hosts.active == Some(h) && r'.pending.None?)
      && (r.writable && Known(r, h) && r.settings.delay > 0 ==>
            r' == r.(pending := Some(Pending(h, Later(now, r.settings.delay)))))
  {
    OnBridgeKeepsPending(r.(pending := None), SwitchTarget(h));
    OthersKeepTarget(r.bridge, SwitchTarget(h));
  }

  /** Pairing opens a window of a minute for a computer that has no bond, and leaves
      every entry alone; a computer with a bond, or a wrong number, changes nothing. */
  lemma PairingOpensWindow(r: Runtime, h: int, now: nat)
    requires Core(r, StartPairing(h, now)).Going? && now + 60_000 <= TIME_MAX
    ensures var r' := Core(r, StartPairing(h, now)).runtime;
      if r.writable && 1 <= h <= 4 && !HasBond(r.bridge.hosts, h)
      then r'.window == Some(Window(h, now + 60_000)) && r'.bridge.pairable == Some(h) && r'.bridge.hosts == r.bridge.hosts
      else r' == r
  {
    if OpenWindow(r, h, now).Going? {
      OpeningWindow(r, h, now);
    }
  }

  /** Cancelling closes the window. */
  lemma CancellingCloses(r: Runtime)
    requires Synced(r) && Core(r, CancelPairing).Going?
    ensures var r' := Core(r, CancelPairing).runtime;
      r'.window.None? && r'.bridge.pairable.None? && r'.bridge.hosts == r.bridge.hosts
  {
    CloseSyncs(r);
    CloseKeepsPending(r);
  }

  /** Forgetting removes that entry and no other. */
  lemma ForgettingRemoves(r: Runtime, h: int)
    requires Sound(r.bridge) && Core(r, ForgetHost(h)).Going?
    ensures var r' := Core(r, ForgetHost(h)).runtime;
      && (!(r.writable && Known(r, h)) ==> r' == r)
      && (r.writable && Known(r, h) ==> Lookup(r'.bridge.hosts, h).None?)
      && forall g :: g != h ==> Lookup(r'.bridge.hosts, g) == Lookup(r.bridge.hosts, g)
  {
    OnBridgeKeepsPending(r, ClearHost(h));
    RemoveChanges(r.bridge.hosts, h);
  }

  /** A new profile, and one whose last interface went, is persisted while storage can
      be written. */
  lemma ProfilesArePersisted(r: Runtime, interface: int, aggregate: Input)
    ensures r.writable ==> PersistNow in Core(r, Metadata(true)).commands
    ensures var p := Core(r, InterfaceDown(interface, aggregate, true));
      p.Going? && r.writable && (exists i :: 0 <= i < |r.interfaces| && r.interfaces[i].interface == interface) ==>
        PersistNow in p.commands
  {
    IndexFinds(r.interfaces, interface, 0);
    var p := Unregister(r, interface, aggregate, true);
    if p.Going? && r.writable && InterfaceIndex(r.interfaces, interface) >= 0 {
      assert p.commands[|p.commands| - 1] == PersistNow;
    }
  }

  lemma {:induction false} IndexFinds(xs: seq<Interface>, interface: int, from: nat)
    requires from <= |xs|
    ensures InterfaceIndex(xs, interface, from) < 0 ==> forall i :: from <= i < |xs| ==> xs[i].interface != interface
    decreases |xs| - from
  {
    if from < |xs| {
      IndexFinds(xs, interface, from + 1);
    }
  }
}
