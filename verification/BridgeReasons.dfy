/** The reasons that reports carry. A report of the reason `Plain` may be coalesced or
    dropped on its way, because it takes nothing away from the computer. */
module BridgeReasons {
  import opened Options
  import opened StorageImage
  import opened Keyboard
  import opened HostState
  import opened HostMachine
  import opened Bridge
  import opened BridgeInput
  import opened BridgeHiding
  import opened BridgeKeys
  import opened BridgeKeyboard

  /** Nothing that the view shows is taken away by the report; another usage may
      take the place of the one shown. */
  predicate Retains(v: Input, report: Report) {
    match report
    case KeyboardReport(keys) => v.keyboard.modifiers <= keys.modifiers && forall k :: k in v.keyboard.keys ==> k in keys.keys
    case MouseReport(buttons, _) => v.buttons <= buttons
    case ConsumerReport(usage) => v.consumer.Some? ==> usage.Some?
  }

  /** No report to `g` of the reason `Plain` takes anything away. */
  predicate PlainRetains(actions: seq<Action>, v: Input, g: int) {
    forall i :: 0 <= i < |actions| && actions[i].Notify? && actions[i].target == g && actions[i].reason == Plain ==>
      Retains(v, actions[i].report)
  }

  /** The keys shown are among the first six that are not hidden. */
  predicate AmongFirst(s: State, v: Input) {
    forall k :: k in v.keyboard.keys ==> k in First(Unhidden(s.input.keyboard, s.hidden.keyboard), VISIBLE_MAX)
  }

  ghost predicate Regular(s: State, v: Input, g: int) {
    Sound(s) && Clean(s, v, g) && Hides(s, v) && KeysFit(s) && AmongFirst(s, v)
  }

  // ------------------------------------------------------------------ a frame

  /** Keys that all stay down are kept in front, whatever is pressed after them. */
  lemma FirstStay(before: Keys, hidden: Keys, now: Keys)
    requires Distinct(before.keys) && Distinct(now.keys) && forall k :: k in before.keys ==> k in now.keys
    ensures forall k :: k in First(Unhidden(before, hidden), VISIBLE_MAX) ==>
      k in First(Unhidden(Snapshot(before, now), hidden), VISIBLE_MAX)
  {
    var added := Drop(now.keys, before.keys);
    KeepAll(before.keys, now.keys);
    DropAppend(before.keys, added, hidden.keys);
    var a, b := Drop(before.keys, hidden.keys), Drop(added, hidden.keys);
    assert Unhidden(Snapshot(before, now), hidden) == a + b;
    forall k | k in First(a, VISIBLE_MAX) ensures k in First(a + b, VISIBLE_MAX) {
      var i :| 0 <= i < |First(a, VISIBLE_MAX)| && First(a, VISIBLE_MAX)[i] == k;
      assert First(a + b, VISIBLE_MAX)[i] == (a + b)[i] == a[i];
    }
  }

  lemma {:induction false} KeepAll(keys: seq<int>, these: seq<int>)
    requires forall k :: k in keys ==> k in these
    ensures Keep(keys, these) == keys
  {
    if keys != [] {
      var first := keys[0];
      assert first in keys && first in these;
      forall k | k in keys[1..] ensures k in these {
        assert k in keys;
      }
      KeepAll(keys[1..], these);
    }
  }

  /** A keyboard report is a release exactly when a key or modifier went up, and if
      it is none it retains what was shown. */
  lemma KeyboardReason(s: State, now: Keys, v: Input, g: int)
    requires Regular(s, v, g) && FitsVector(now.keys)
    ensures var e := KeyboardPart(s, now);
      && PlainRetains(e.actions, v, g)
      && forall i :: 0 <= i < |e.actions| ==>
           e.actions[i].reason ==
             if s.input.keyboard.modifiers <= now.modifiers && (forall k :: k in s.input.keyboard.keys ==> k in now.keys)
             then Plain else Release
  {
    var before, down := s.input.keyboard, Snapshot(s.input.keyboard, now);
    SnapshotFits(before, now);
    HiddenKeysIsExact(s.hidden.keyboard, down);
    ShownIsVisible(down, HiddenKeys(s.hidden.keyboard, down));
    if !KeyReleased(before, down) {
      forall k | k in before.keys ensures k in now.keys {
        var i :| 0 <= i < |before.keys| && before.keys[i] == k;
      }
      FirstStay(before, s.hidden.keyboard, now);
      NothingLeft(before.modifiers, now.modifiers);
    } else {
      ReleasedGoesUp(before, now);
    }
  }

  lemma ReleasedGoesUp(before: Keys, now: Keys)
    requires KeyReleased(before, Snapshot(before, now))
    ensures !(before.modifiers <= now.modifiers && forall k :: k in before.keys ==> k in now.keys)
  {
    NothingLeft(before.modifiers, now.modifiers);
    if before.modifiers <= now.modifiers {
      var i :| 0 <= i < |before.keys| && before.keys[i] !in Snapshot(before, now).keys;
      var k := before.keys[i];
      assert k in before.keys && k !in now.keys;
    }
  }

  lemma NothingLeft(a: set<nat>, b: set<nat>)
    ensures a - b == {} <==> a <= b
  {
    if a - b == {} {
      forall m | m in a ensures m in b {
        assert m !in a - b;
      }
    }
  }

  lemma ShownIsVisible(down: Keys, hidden: Keys)
    requires |Visible(down, hidden).keys| <= VISIBLE_MAX
    ensures Shown(down, hidden) == Visible(down, hidden)
  {
  }

  /** A mouse report is an edge exactly when the buttons changed. */
  lemma MouseReason(s: State, mouse: MouseFrame, v: Input, g: int)
    requires Clean(s, v, g) && Hides(s, v)
    ensures var e := MousePart(s, mouse);
      && PlainRetains(e.actions, v, g)
      && forall i :: 0 <= i < |e.actions| ==>
           e.actions[i].reason == if s.input.buttons == mouse.buttons then Plain else Edge
  {
  }

  /** A consumer report is a release exactly when the usage ended. */
  lemma ConsumerReason(s: State, now: Option<int>, v: Input, g: int)
    requires Clean(s, v, g) && Hides(s, v)
    ensures var e := ConsumerPart(s, now);
      && PlainRetains(e.actions, v, g)
      && forall i :: 0 <= i < |e.actions| ==>
           e.actions[i].reason == if s.input.consumer.Some? && now.None? then Release else Plain
  {
  }

  /** The parts of a frame look only at their own kind of input. */
  lemma FrameRetains(s: State, e: Event, v: Input, g: int)
    requires Regular(s, v, g) && e.InputFrame? && EventFits(e)
    ensures PlainRetains(Step(s, e).actions, v, g)
  {
    var a := if e.keyboard.Some? then KeyboardPart(s, e.keyboard.value) else Effect(s, []);
    var b := if e.mouse.Some? then MousePart(a.state, e.mouse.value) else Effect(a.state, []);
    var c := if e.consumer.Some? then ConsumerPart(b.state, e.consumer.value) else Effect(b.state, []);
    if e.keyboard.Some? { KeyboardReason(s, e.keyboard.value, v, g); }
    if e.mouse.Some? { MouseAlone(s, a.state, e.mouse.value, v, g); }
    if e.consumer.Some? { ConsumerAlone(s, b.state, e.consumer.value, v, g); }
    RetainsJoin(a.actions, b.actions, v, g);
    RetainsJoin(a.actions + b.actions, c.actions, v, g);
  }

  lemma RetainsJoin(a: seq<Action>, b: seq<Action>, v: Input, g: int)
    requires PlainRetains(a, v, g) && PlainRetains(b, v, g)
    ensures PlainRetains(a + b, v, g)
  {
  }

  lemma MouseAlone(s: State, s1: State, mouse: MouseFrame, v: Input, g: int)
    requires Clean(s, v, g) && Hides(s, v)
    requires s1.hosts == s.hosts && s1.input.buttons == s.input.buttons && s1.hidden.buttons == s.hidden.buttons
    ensures PlainRetains(MousePart(s1, mouse).actions, v, g)
  {
    MouseReason(s, mouse, v, g);
    assert MousePart(s1, mouse).actions == MousePart(s, mouse).actions;
  }

  lemma ConsumerAlone(s: State, s1: State, now: Option<int>, v: Input, g: int)
    requires Clean(s, v, g) && Hides(s, v)
    requires s1.hosts == s.hosts && s1.input.consumer == s.input.consumer && s1.hidden.consumer == s.hidden.consumer
    ensures PlainRetains(ConsumerPart(s1, now).actions, v, g)
  {
    ConsumerReason(s, now, v, g);
    assert ConsumerPart(s1, now).actions == ConsumerPart(s, now).actions;
  }

  // -------------------------------------------------------------- any event

  predicate NeverPlain(actions: seq<Action>) {
    forall i :: 0 <= i < |actions| && actions[i].Notify? ==> actions[i].reason != Plain
  }

  lemma DisconnectIsNotPlain(s: State, h: int)
    requires Disconnected(s, h).Done?
    ensures NeverPlain(Disconnected(s, h).effect.actions)
  {
    if Fallback(s, h).Some? {
      TransitionIsNotPlain(Unlinked(s, h), Fallback(s, h).value, None);
    }
  }

  lemma TransitionIsNotPlain(s: State, target: int, release: Option<Reason>)
    requires release != Some(Plain) && TransitionWithStatus(s, target, release).Done?
    ensures NeverPlain(TransitionWithStatus(s, target, release).effect.actions)
  {
    var e := Transition(s, target, release).effect;
    if s.hosts.active != Some(target) {
      var rest := [ActivateInput(target)] + ActiveLeds(e.state) + [PersistProfiles];
      assert NeverPlain(rest);
      assert e.actions == ReleasesFor(s, release) + rest;
    }
  }

  lemma ClearIsNotPlain(s: State, h: int)
    ensures NeverPlain(Cleared(s, h).actions)
  {
    var releases := if s.hosts.active == Some(h) then ReleaseReports(s.hosts, h, SafetyRelease) else [];
    var ends: seq<Action> := if s.pairable == Some(h) then [RejectPairing(h)] else [];
    assert NeverPlain(releases) && NeverPlain(ends) && NeverPlain(ClearActions(s, h));
    assert NeverPlain(ends + ClearActions(s, h));
  }

  lemma DetachIsNotPlain(s: State, now: Input)
    ensures NeverPlain(Detached(s, now).actions) && NeverPlain(WithStatus(Detached(s, now)).actions)
  {
  }

  lemma StepRetains(s: State, e: Event, v: Input, g: int)
    requires Regular(s, v, g) && EventFits(e)
    ensures PlainRetains(Step(s, e).actions, v, g)
  {
    if Handle(s, e).Done? {
      if Harmless(e) {
        HarmlessStep(s, e, g);
      } else {
        match e
        case InputFrame(_, _, _) => FrameRetains(s, e, v, g);
        case SwitchTarget(h) => TransitionIsNotPlain(s, h, Some(SwitchRelease));
        case HostDisconnected(h) => DisconnectIsNotPlain(s, h);
        case ClearHost(h) => ClearIsNotPlain(s, h);
        case InterfaceRemoved(i, aggregate) => DetachIsNotPlain(s.(sinks := Unregistered(s.sinks, i)), aggregate);
        case DeviceReset(aggregate) => if aggregate.Some? { DetachIsNotPlain(s, aggregate.value); }
      }
    }
  }

  // ------------------------------------------------------------ the invariant

  lemma FrameKeepsFirst(s: State, e: Event, v: Input, g: int)
    requires Regular(s, v, g) && e.InputFrame? && EventFits(e)
    ensures AmongFirst(Step(s, e).state, ViewAfter(v, Step(s, e), g))
  {
    var s', v' := Step(s, e).state, ViewAfter(v, Step(s, e), g);
    if e.keyboard.Some? && s.hosts.active == Some(g) && CanSend(s.hosts, g, KeyboardKind) {
      var down := Snapshot(s.input.keyboard, e.keyboard.value);
      SnapshotFits(s.input.keyboard, e.keyboard.value);
      FrameShowsFirstSix(s, e, v, g);
      FrameKeyboard(s, e);
      HiddenKeysIsExact(s.hidden.keyboard, down);
    } else {
      KeyboardUntold(s, e, v, g);
    }
  }

  lemma KeyboardUntold(s: State, e: Event, v: Input, g: int)
    requires Clean(s, v, g) && e.InputFrame?
    requires e.keyboard.None? || s.hosts.active != Some(g) || !CanSend(s.hosts, g, KeyboardKind)
    ensures var s', v' := Step(s, e).state, ViewAfter(v, Step(s, e), g);
      && (v'.keyboard == v.keyboard || v'.keyboard == NO_KEYS)
      && (e.keyboard.None? ==> s'.input.keyboard == s.input.keyboard && s'.hidden.keyboard == s.hidden.keyboard)
      && (e.keyboard.Some? ==> v'.keyboard == NO_KEYS)
  {
    var a := if e.keyboard.Some? then KeyboardPart(s, e.keyboard.value) else Effect(s, []);
    var b := if e.mouse.Some? then MousePart(a.state, e.mouse.value) else Effect(a.state, []);
    var c := if e.consumer.Some? then ConsumerPart(b.state, e.consumer.value) else Effect(b.state, []);
    DeliverAppend(v, a.actions + b.actions, c.actions, g);
    DeliverAppend(v, a.actions, b.actions, g);
    if e.keyboard.Some? { PartIsSilent(s, e.keyboard.value, v, g); }
    NotKeyboard(v, b.actions, g);
    NotKeyboard(Deliver(v, b.actions, g), c.actions, g);
  }

  lemma PartIsSilent(s: State, now: Keys, v: Input, g: int)
    requires s.hosts.active != Some(g) || !CanSend(s.hosts, g, KeyboardKind)
    ensures Deliver(v, KeyboardPart(s, now).actions, g) == v
  {
    assert Silent(KeyboardPart(s, now).actions, g);
    DeliverSilent(v, KeyboardPart(s, now).actions, g);
  }

  lemma {:induction false} NotKeyboard(v: Input, actions: seq<Action>, g: int)
    requires forall i :: 0 <= i < |actions| && actions[i].Notify? ==> !actions[i].report.KeyboardReport?
    ensures Deliver(v, actions, g).keyboard == v.keyboard
    decreases |actions|
  {
    if actions != [] {
      NotKeyboard(Told(v, actions[0], g), actions[1..], g);
    }
  }

  lemma DetachKeepsFirst(s: State, now: Input, v: Input, g: int)
    requires Regular(s, v, g)
    ensures var e := Detached(s, now);
      AmongFirst(e.state, ViewAfter(v, e, g)) && AmongFirst(e.state, ViewAfter(v, WithStatus(e), g))
  {
    DetachedView(s, now, v, g);
    var e := Detached(s, now);
    if s.hosts.active == Some(g) {
      var hidden := e.state.hidden.keyboard;
      if s.input.keyboard == now.keyboard {
        DropAlike(now.keyboard.keys, hidden.keys, s.hidden.keyboard.keys);
      }
    }
  }

  lemma StepStaysRegular(s: State, e: Event, v: Input, g: int)
    requires Regular(s, v, g) && EventFits(e)
    ensures Regular(Step(s, e).state, ViewAfter(v, Step(s, e), g), g)
  {
    StepSound(s, e);
    StepClean(s, e, v, g);
    StepHides(s, e, v, g);
    StepFits(s, e);
    match e
    case InputFrame(_, _, _) => FrameKeepsFirst(s, e, v, g);
    case InterfaceRemoved(i, aggregate) => DetachKeepsFirst(s.(sinks := Unregistered(s.sinks, i)), aggregate, v, g);
    case DeviceReset(aggregate) => if aggregate.Some? { DetachKeepsFirst(s, aggregate.value, v, g); }
    case _ =>
      KeepsHidden(s, e);
      QuietView(s, e, v, g);
  }

  // ------------------------------------------------------------------- runs

  lemma {:induction false} RunIsRegular(stored: seq<StoredHost>, lastActive: Option<int>, hs: seq<Happening>, g: int)
    requires forall i :: 0 <= i < |hs| ==> Ordinary(hs[i]) && (hs[i].On? ==> EventFits(hs[i].event))
    ensures Regular(Run(Booted(stored, lastActive), hs), View(Booted(stored, lastActive), hs, g), g)
    decreases |hs|
  {
    OnlyVisibleShown(stored, lastActive, hs, g);
    if hs != [] {
      var boot := Booted(stored, lastActive);
      var before, h := hs[..|hs| - 1], hs[|hs| - 1];
      RunIsRegular(stored, lastActive, before, g);
      if h.On? {
        StepStaysRegular(Run(boot, before), h.event, View(boot, before, g), g);
      } else {
        LinkKeepsFirst(Run(boot, before), h, View(boot, before, g), g);
      }
    }
  }

  lemma LinkKeepsFirst(s: State, h: Happening, v: Input, g: int)
    requires Regular(s, v, g) && (h.LinkDropped? || h.NameDiscovered?)
    ensures KeysFit(Next(s, h).state) && AmongFirst(Next(s, h).state, ViewAfter(v, Next(s, h), g))
  {
    assert Next(s, h).actions == [];
  }

  /** Over every run after boot without a quiesce capture, a report of the reason
      `Plain` takes no key, modifier or button away from any computer and ends no usage:
      every release has a reason that is not dropped. */
  lemma PlainTakesNothing(stored: seq<StoredHost>, lastActive: Option<int>, hs: seq<Happening>, e: Event, g: int)
    requires forall i :: 0 <= i < |hs| ==> Ordinary(hs[i]) && (hs[i].On? ==> EventFits(hs[i].event))
    requires EventFits(e)
    ensures var boot := Booted(stored, lastActive);
      PlainRetains(Step(Run(boot, hs), e).actions, View(boot, hs, g), g)
  {
    RunIsRegular(stored, lastActive, hs, g);
    StepRetains(Run(Booted(stored, lastActive), hs), e, View(Booted(stored, lastActive), hs, g), g);
  }
}
