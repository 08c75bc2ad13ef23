/** Which computer gets the input: after every event, told by who is connected and
    who takes reports. */
module BridgeTargets {
  import opened Options
  import opened StorageImage
  import opened HostState
  import opened HostMachine
  import opened Bridge
  import opened BridgeInput

  /** Slot `i` holds a host that takes keyboard reports. */
  predicate TakesKeys(hs: Hosts, i: int) {
    0 <= i < |hs.slots| && hs.slots[i].Some? && CanSend(hs, hs.slots[i].value.id, KeyboardKind)
  }

  ghost predicate SomeoneTakesKeys(hs: Hosts) {
    exists i :: TakesKeys(hs, i)
  }

  /** The active host is the one in the first slot that takes keyboard reports. */
  ghost predicate FirstTakerIsActive(hs: Hosts) {
    exists i :: TakesKeys(hs, i) && hs.active == Some(hs.slots[i].value.id) && forall j :: 0 <= j < i ==> !TakesKeys(hs, j)
  }

  lemma TakerIsCandidate(hs: Hosts)
    requires WellFormed(hs)
    ensures forall i :: TakesKeys(hs, i) <==> Candidate(hs.slots, i, Able(KeyboardKind))
  {
    forall i | 0 <= i < SLOTS && hs.slots[i].Some?
      ensures TakesKeys(hs, i) <==> Candidate(hs.slots, i, Able(KeyboardKind))
    {
      assert Holds(hs.slots, i, hs.slots[i].value.id);
      assert Find(hs.slots, hs.slots[i].value.id) == i;
    }
  }

  /** After a disconnect the host takes nothing. */
  lemma UnlinkedTakesNothing(s: State, h: int)
    requires Sound(s)
    ensures var s' := Unlinked(s, h);
      WellFormed(s'.hosts) && s'.hosts.active == s.hosts.active && !CanSend(s'.hosts, h, KeyboardKind)
      && forall g :: g != h ==> Lookup(s'.hosts, g) == Lookup(s.hosts, g)
  {
    TouchChanges(s.hosts, h, Disconnect);
  }

  /** The fallback is the first taker after the disconnect. */
  lemma FallbackIsFirstTaker(s: State, h: int)
    requires Sound(s) && s.hosts.active == Some(h) && CanSend(s.hosts, h, KeyboardKind)
    ensures var hs := Unlinked(s, h).hosts;
      && (Fallback(s, h).None? <==> !SomeoneTakesKeys(hs))
      && (Fallback(s, h).Some? ==>
            Fallback(s, h) != Some(h) && FirstTakerIsActive(hs.(active := Fallback(s, h))))
  {
    var hs := Unlinked(s, h).hosts;
    UnlinkedTakesNothing(s, h);
    TakerIsCandidate(hs);
    assert CurrentSlot(hs.slots, Some(h), Able(KeyboardKind)) == -1 by {
      var f := Find(hs.slots, h);
      if f >= 0 {
        assert TakesKeys(hs, f) ==> CanSend(hs, h, KeyboardKind);
      }
    }
    var i := FirstCandidate(hs.slots, Able(KeyboardKind), 0);
    if i >= 0 {
      var after := hs.(active := Fallback(s, h));
      assert Fallback(s, h) == Some(hs.slots[i].value.id);
      assert forall j :: TakesKeys(after, j) <==> TakesKeys(hs, j) by { SameTakers(hs, Fallback(s, h)); }
      assert TakesKeys(after, i);
    }
  }

  lemma SameTakers(hs: Hosts, active: Option<int>)
    ensures forall j :: TakesKeys(hs.(active := active), j) <==> TakesKeys(hs, j)
  {
    assert forall g :: Lookup(hs.(active := active), g) == Lookup(hs, g);
  }

  /** When the active computer, taking keyboard reports, goes away, the first one in
      the table that still takes them gets the input; if none does, or if another
      computer goes away, nothing is switched. */
  lemma DisconnectPicks(s: State, h: int)
    requires Sound(s)
    ensures var hs := Step(s, HostDisconnected(h)).state.hosts;
      var left := s.hosts.active == Some(h) && CanSend(s.hosts, h, KeyboardKind);
      && (left && SomeoneTakesKeys(hs) ==> hs.active != Some(h) && FirstTakerIsActive(hs))
      && (!left || !SomeoneTakesKeys(hs) ==> hs.active == s.hosts.active)
  {
    UnlinkedTakesNothing(s, h);
    var hs := Unlinked(s, h).hosts;
    if s.hosts.active == Some(h) && CanSend(s.hosts, h, KeyboardKind) {
      FallbackIsFirstTaker(s, h);
      SameTakers(hs, Fallback(s, h));
      if Fallback(s, h).Some? {
        FallbackTakesOver(s, h);
      }
    }
  }

  lemma FallbackTakesOver(s: State, h: int)
    requires Sound(s) && Fallback(s, h).Some?
    ensures Step(s, HostDisconnected(h)).state.hosts == Unlinked(s, h).hosts.(active := Fallback(s, h))
  {
    UnlinkedTakesNothing(s, h);
    var hs := Unlinked(s, h).hosts;
    TakerIsCandidate(hs);
    var i := NextSlot(hs.slots, Some(h), Able(KeyboardKind));
    assert Holds(hs.slots, i, Fallback(s, h).value);
    ActivateChanges(hs, Fallback(s, h).value);
  }

  /** Nothing else moves the input: a switch to a valid number, the end of the active
      entry, and a disconnect as above. */
  lemma OthersKeepTarget(s: State, e: Event)
    requires Sound(s) && !e.HostDisconnected?
    ensures Step(s, e).state.hosts.active ==
      if e.SwitchTarget? && ValidId(e.host) then Some(e.host)
      else if e.ClearHost? && s.hosts.active == Some(e.host) && Lookup(s.hosts, e.host).Some? then None
      else s.hosts.active
  {
    if Harmless(e) {
      HarmlessStep(s, e, 0);
    } else if e.SwitchTarget? {
      ActivateChanges(s.hosts, e.host);
    } else if e.InputFrame? {
      FrameOnlyNotifies(s, e.keyboard, e.mouse, e.consumer);
    }
  }
}
