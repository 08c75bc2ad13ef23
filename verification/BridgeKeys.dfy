/** The key lists of the bridge never outgrow their 32 places, so no event fails
    for want of room for a key. */
module BridgeKeys {
  import opened Options
  import opened Keyboard
  import opened HostState
  import opened Bridge
  import opened BridgeInput
  import opened BridgeHiding

  /** A list that fits its vector and names no key twice. */
  predicate FitsVector(keys: seq<int>) {
    Distinct(keys) && |keys| <= KEY_CAPACITY
  }

  predicate KeysFit(s: State) {
    FitsVector(s.input.keyboard.keys) && FitsVector(s.hidden.keyboard.keys)
  }

  /** The aggregated keyboards that come with an event fit. */
  predicate EventFits(e: Event) {
    match e
    case InputFrame(keyboard, _, _) => keyboard.Some? ==> FitsVector(keyboard.value.keys)
    case InterfaceRemoved(_, aggregate) => FitsVector(aggregate.keyboard.keys)
    case DeviceReset(aggregate) => aggregate.Some? ==> FitsVector(aggregate.value.keyboard.keys)
    case _ => true
  }

  /** Distinct keys among others are no more than those. */
  lemma NoMoreThan(a: seq<int>, b: seq<int>)
    requires Distinct(a) && Distinct(b) && forall k :: k in a ==> k in b
    ensures |a| <= |b|
  {
    DistinctSize(a);
    DistinctSize(b);
    var x, y := set k | k in a, set k | k in b;
    SubsetSize(x, y);
  }

  lemma SubsetSize(x: set<int>, y: set<int>)
    requires x <= y
    ensures |x| <= |y|
  {
    assert x + (y - x) == y && x * (y - x) == {};
  }

  lemma {:induction false} HideAfterDistinct(hidden: seq<int>, keys: seq<int>, seen: nat, limit: nat)
    requires Distinct(hidden)
    ensures Distinct(HideAfter(hidden, keys, seen, limit))
    decreases |keys|
  {
    if keys != [] {
      if keys[0] in hidden {
        HideAfterDistinct(hidden, keys[1..], seen, limit);
      } else if seen < limit {
        HideAfterDistinct(hidden, keys[1..], seen + 1, limit);
      } else {
        HideAfterDistinct(hidden + [keys[0]], keys[1..], seen, limit);
      }
    }
  }

  /** Hiding the keys beyond the sixth never needs more room than the keys down. */
  lemma HiddenKeysFit(hidden: Keys, down: Keys)
    requires FitsVector(hidden.keys) && FitsVector(down.keys)
    ensures FitsVector(StillHidden(hidden, down).keys) && FitsVector(HiddenKeys(hidden, down).keys)
  {
    KeepDistinct(hidden.keys, down.keys);
    HideAfterDistinct(StillHidden(hidden, down).keys, down.keys, 0, VISIBLE_MAX);
    NoMoreThan(HiddenKeys(hidden, down).keys, down.keys);
  }

  lemma FrameFits(s: State, keyboard: Option<Keys>, mouse: Option<MouseFrame>, consumer: Option<Option<int>>)
    requires KeysFit(s) && (keyboard.Some? ==> FitsVector(keyboard.value.keys))
    ensures KeysFit(Frame(s, keyboard, mouse, consumer).state)
  {
    if keyboard.Some? {
      SnapshotFits(s.input.keyboard, keyboard.value);
      HiddenKeysFit(s.hidden.keyboard, Snapshot(s.input.keyboard, keyboard.value));
    }
  }

  lemma DetachFits(s: State, now: Input)
    requires KeysFit(s) && FitsVector(now.keyboard.keys)
    ensures KeysFit(Detached(s, now).state)
  {
    HiddenKeysFit(s.hidden.keyboard, now.keyboard);
  }

  lemma StepFits(s: State, e: Event)
    requires Sound(s) && KeysFit(s) && EventFits(e)
    ensures KeysFit(Step(s, e).state)
  {
    match e
    case InputFrame(keyboard, mouse, consumer) => FrameFits(s, keyboard, mouse, consumer);
    case InterfaceRemoved(i, aggregate) => DetachFits(s.(sinks := Unregistered(s.sinks, i)), aggregate);
    case DeviceReset(aggregate) => if aggregate.Some? { DetachFits(s, aggregate.value); }
    case _ => KeepsHidden(s, e);
  }

  /** In every run whose aggregates fit, held and hidden keys fit: the capacity
      error of the key lists is never raised. */
  lemma {:induction false} KeysAlwaysFit(hs: seq<Happening>)
    requires forall i :: 0 <= i < |hs| && hs[i].On? ==> EventFits(hs[i].event)
    ensures KeysFit(Run(Initial(), hs))
    decreases |hs|
  {
    if hs != [] {
      var before, h := hs[..|hs| - 1], hs[|hs| - 1];
      KeysAlwaysFit(before);
      NoStuckInput(before, 0);
      if h.On? {
        StepFits(Run(Initial(), before), h.event);
      }
    }
  }
}
