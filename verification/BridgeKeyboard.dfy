/** Exactly which keys a computer is shown: the first six, in press order, of those
    that were not hidden; and what is not shown stays hidden until it is released. */
module BridgeKeyboard {
  import opened Options
  import opened Keyboard
  import opened HostState
  import opened Bridge
  import opened BridgeInput
  import opened BridgeHiding

  /** The keys down that are not hidden, in press order. */
  function Unhidden(down: Keys, hidden: Keys): seq<int> {
    Drop(down.keys, hidden.keys)
  }

  /** After the pass exactly the first six unhidden keys are visible; hidden are
      those that were hidden and the unhidden ones beyond the sixth. */
  lemma HiddenKeysIsExact(hidden: Keys, down: Keys)
    requires Distinct(down.keys)
    ensures var hidden' := HiddenKeys(hidden, down);
      && Visible(down, hidden').keys == First(Unhidden(down, hidden), VISIBLE_MAX)
      && forall k :: k in hidden'.keys <==> k in down.keys && k !in First(Unhidden(down, hidden), VISIBLE_MAX)
  {
    var still := StillHidden(hidden, down);
    var hidden' := HiddenKeys(hidden, down);
    HideAfterIsExact(still.keys, down.keys, 0, VISIBLE_MAX);
    DropAlike(down.keys, still.keys, hidden.keys);
    DropMembers(down.keys, hidden'.keys);
  }

  /** The keyboard report of a frame. */
  lemma FrameShowsFirstSix(s: State, e: Event, v: Input, t: int)
    requires e.InputFrame? && e.keyboard.Some? && s.hosts.active == Some(t) && CanSend(s.hosts, t, KeyboardKind)
    requires Distinct(s.input.keyboard.keys) && Distinct(e.keyboard.value.keys)
    ensures var v' := ViewAfter(v, Step(s, e), t).keyboard;
      && v'.modifiers == e.keyboard.value.modifiers - s.hidden.keyboard.modifiers
      && v'.keys == First(Unhidden(Snapshot(s.input.keyboard, e.keyboard.value), s.hidden.keyboard), VISIBLE_MAX)
  {
    FrameShows(s, e, v, t);
    SnapshotFits(s.input.keyboard, e.keyboard.value);
    HiddenKeysIsExact(s.hidden.keyboard, Snapshot(s.input.keyboard, e.keyboard.value));
    FrameKeyboard(s, e);
  }

  lemma FrameKeyboard(s: State, e: Event)
    requires e.InputFrame? && e.keyboard.Some?
    ensures var s', down := Step(s, e).state, Snapshot(s.input.keyboard, e.keyboard.value);
      s'.input.keyboard == down && s'.hidden.keyboard == HiddenKeys(s.hidden.keyboard, down)
  {
  }

  // ---------------------------------------------------------- a stable window

  lemma {:induction false} KeepCounts(keys: seq<int>, these: seq<int>, hidden: seq<int>)
    ensures |Drop(Keep(keys, these), hidden)| <= |Drop(keys, hidden)|
  {
    if keys != [] {
      var rest := Keep(keys[1..], these);
      KeepCounts(keys[1..], these, hidden);
      DropAppend([keys[0]], rest, hidden);
      DropAppend([keys[0]], keys[1..], hidden);
      assert keys == [keys[0]] + keys[1..];
      assert Keep(keys, these) == if keys[0] in these then [keys[0]] + rest else rest;
    }
  }

  /** A visible key stays visible while it is held, and a hidden one hidden: keys do
      not appear or vanish half-way through a chord. */
  lemma WindowIsStable(before: Keys, hidden: Keys, now: Keys, k: int)
    requires Distinct(before.keys) && Distinct(now.keys)
    requires |Unhidden(before, hidden)| <= VISIBLE_MAX && k in before.keys && k in now.keys
    ensures k in Visible(before, hidden).keys <==>
      k in Visible(Snapshot(before, now), HiddenKeys(hidden, Snapshot(before, now))).keys
  {
    var down := Snapshot(before, now);
    var kept, added := Keep(before.keys, now.keys), Drop(now.keys, before.keys);
    SnapshotFits(before, now);
    HiddenKeysIsExact(hidden, down);
    DropMembers(before.keys, hidden.keys);
    DropMembers(kept, hidden.keys);
    KeepMembers(before.keys, now.keys);
    DropAppend(kept, added, hidden.keys);
    KeepCounts(before.keys, now.keys, hidden.keys);
    StartsWith(Drop(kept, hidden.keys), Drop(added, hidden.keys), k);
    DropMembers(down.keys, hidden.keys);
  }

  lemma StartsWith(a: seq<int>, b: seq<int>, k: int)
    requires |a| <= VISIBLE_MAX
    ensures k in a ==> k in First(a + b, VISIBLE_MAX)
  {
    assert First(a + b, VISIBLE_MAX)[..|a|] == a;
    if k in a {
      var i :| 0 <= i < |a| && a[i] == k;
      assert First(a + b, VISIBLE_MAX)[i] == k;
    }
  }

  // -------------------------------------------------------- after a switch

  /** No aggregate holds more keys than a report. */
  predicate Few(xs: seq<Input>) {
    forall i :: 0 <= i < |xs| ==> Distinct(xs[i].keyboard.keys) && |xs[i].keyboard.keys| <= VISIBLE_MAX
  }

  /** With few keys down, the pass hides nothing new. */
  lemma FewHideNothing(hidden: Keys, down: Keys)
    requires Distinct(down.keys) && |down.keys| <= VISIBLE_MAX
    ensures forall k :: k in HiddenKeys(hidden, down).keys <==> k in hidden.keys && k in down.keys
  {
    HiddenKeysIsExact(hidden, down);
    DropMembers(down.keys, hidden.keys);
  }

  lemma FewHiddenStep(s: State, e: Event, t: int)
    requires Sound(s) && Within(s.hidden, s.input)
    requires s.hosts.active == Some(t) && Step(s, e).state.hosts.active == Some(t)
    requires var now := Step(s, e).state.input.keyboard.keys; Distinct(now) && |now| <= VISIBLE_MAX
    ensures var s' := Step(s, e).state;
      forall k :: k in s'.hidden.keyboard.keys <==> k in s.hidden.keyboard.keys && k in s'.input.keyboard.keys
  {
    match e
    case InputFrame(keyboard, _, _) =>
      if keyboard.Some? {
        FrameKeyboard(s, e);
        FewHideNothing(s.hidden.keyboard, Snapshot(s.input.keyboard, keyboard.value));
      }
    case InterfaceRemoved(_, aggregate) =>
    case DeviceReset(aggregate) =>
    case _ => KeepsHidden(s, e);
  }

  /** While no more keys are down than fit a report, exactly the keys held in every
      aggregate since the capture are hidden. */
  lemma {:induction false} HeldKeysStayHidden(s: State, es: seq<Event>, t: int)
    requires Sound(s) && s.hidden == s.input && Steady(s, es, t) && Few(Inputs(s, es))
    ensures forall k :: k in After(s, es).hidden.keyboard.keys <==> KeyHeld(Inputs(s, es), k)
    decreases |es|
  {
    if es == [] {
      assert Inputs(s, es)[0] == s.input;
    } else {
      var before, e := es[..|es| - 1], es[|es| - 1];
      var xs, now := Inputs(s, before), After(s, es).input;
      assert forall i :: 0 <= i < |xs| ==> Inputs(s, es)[i] == xs[i];
      assert Inputs(s, es)[|xs|] == now;
      SteadyBefore(s, es, t);
      HeldStaysHidden(s, before, t);
      HeldKeysStayHidden(s, before, t);
      FewHiddenStep(After(s, before), e, t);
      HeldSplits(xs, now);
    }
  }

  /** The keyboard reports after a switch, while no more keys are down than fit a
      report: exactly the keys that were not held all the time since. */
  lemma SwitchedKeys(s: State, switch: Event, es: seq<Event>, frame: Event, v: Input, t: int)
    requires SwitchedTo(s, switch, es + [frame], t) && frame.InputFrame? && frame.keyboard.Some?
    requires Few(Inputs(Step(s, switch).state, es + [frame])) && Distinct(frame.keyboard.value.keys)
    requires CanSend(After(Step(s, switch).state, es).hosts, t, KeyboardKind)
    ensures var start := Step(s, switch).state;
      var last, xs := After(start, es), Inputs(start, es + [frame]);
      var v' := ViewAfter(v, Step(last, frame), t);
      && (forall k :: k in v'.keyboard.keys <==> k in frame.keyboard.value.keys && !KeyHeld(xs, k))
      && (forall m :: m in v'.keyboard.modifiers <==> m in frame.keyboard.value.modifiers && !ModifierHeld(xs, m))
  {
    var start := Step(s, switch).state;
    var all := es + [frame];
    assert all[..|all| - 1] == es;
    SteadyBefore(start, all, t);
    SwitchedHides(s, switch, all, t);
    assert all[..0] == [] && After(start, all[..0]) == start;
    assert start.hosts.active == Some(t);
    SwitchCaptures(s, switch);
    StepSound(s, switch);
    HeldKeysStayHidden(start, all, t);
    var last := After(start, es);
    assert After(start, all) == Step(last, frame).state;
    FrameShows(last, frame, v, t);
    FrameKeyboard(last, frame);
  }

  // ---------------------------------------------------------- after a removal

  /** What a removal or reset tells the active computer: of every kind that changed
      exactly what is still held and was not hidden (of the usage, what is held). */
  lemma RemovalShows(s: State, now: Input, v: Input, t: int)
    requires Clean(s, v, t) && s.hosts.active == Some(t)
    ensures var v' := ViewAfter(v, Detached(s, now), t);
      && (CanSend(s.hosts, t, KeyboardKind) ==>
            v'.keyboard == if s.input.keyboard == now.keyboard then v.keyboard
                           else Keys(now.keyboard.modifiers - s.hidden.keyboard.modifiers,
                                     First(Unhidden(now.keyboard, s.hidden.keyboard), VISIBLE_MAX)))
      && (CanSend(s.hosts, t, MouseKind) ==>
            v'.buttons == if s.input.buttons == now.buttons then v.buttons else now.buttons - s.hidden.buttons)
      && (CanSend(s.hosts, t, ConsumerKind) ==>
            v'.consumer == if s.input.consumer == now.consumer then v.consumer else now.consumer)
  {
    DetachedView(s, now, v, t);
    StillHides(s.hidden.keyboard, now.keyboard);
  }

  lemma StillHides(hidden: Keys, now: Keys)
    ensures Shown(now, StillHidden(hidden, now)) ==
      Keys(now.modifiers - hidden.modifiers, First(Unhidden(now, hidden), VISIBLE_MAX))
  {
    DropAlike(now.keys, StillHidden(hidden, now).keys, hidden.keys);
    assert now.modifiers - hidden.modifiers * now.modifiers == now.modifiers - hidden.modifiers;
  }
}
