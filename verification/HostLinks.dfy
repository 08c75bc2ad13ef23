/** Links, lights, names and bonds of the computers, told by the events alone. */
module HostLinks {
  import opened Options
  import opened StorageImage
  import opened HostState
  import opened HostHistory

  /** What is known of a computer until the next restart. */
  datatype Link = Link(connected: bool, encrypted: bool, leds: Option<int>, discovered: FixedName)

  function Off(): Link {
    Link(false, false, None, EmptyName())
  }

  function LinkOf(hs: Hosts, id: int): Link {
    var h := Lookup(hs, id);
    if h.None? then Off() else Link(h.value.connected, h.value.encrypted, h.value.leds, h.value.discovered)
  }

  /** A new link is never encrypted yet; a link that ends is not encrypted any more. */
  function LinkAfter(l: Link, e: HostEvent, id: int): Link {
    match e
    case Change(g, c) =>
      if g != id || !(1 <= id <= 4) then l
      else (
        match c
        case Connect => l.(connected := true, encrypted := false)
        case Disconnect => l.(connected := false, encrypted := false)
        case Secure(encrypted, _, _) => l.(encrypted := encrypted)
        case Leds(leds) => l.(leds := Some(leds))
        case Discover(name) => l.(discovered := name)
        case _ => l
      )
    case Forget(g) => if g == id then Off() else l
    case Reload(_, _) => Off()
    case _ => l
  }

  function LinkTold(es: seq<HostEvent>, id: int): Link {
    if es == [] then Off() else LinkAfter(LinkTold(es[..|es| - 1], id), es[|es| - 1], id)
  }

  lemma ChangeTells(hs: Hosts, g: int, c: HostChange, id: int)
    requires WellFormed(hs)
    ensures LinkOf(HostHistory.Step(hs, Change(g, c)), id) == LinkAfter(LinkOf(hs, id), Change(g, c), id)
  {
    TouchChanges(hs, g, c);
    if Lookup(hs, id).Some? {
      EveryHostIsValid(hs, id);
    }
  }

  lemma {:induction false} RestoredAreOff(hs: Hosts, stored: seq<StoredHost>)
    requires WellFormed(hs) && forall id :: LinkOf(hs, id) == Off()
    ensures forall id :: LinkOf(RestoreHosts(hs, stored), id) == Off()
    decreases |stored|
  {
    if stored != [] && ValidId(stored[0].hostId) {
      UpsertFits(hs, stored[0].hostId);
      var u := Upsert(hs, stored[0].hostId).value;
      PutChanges(u, Revived(stored[0]));
      var next := Put(u, Revived(stored[0]));
      forall id ensures LinkOf(next, id) == Off() {
        if id != stored[0].hostId {
          assert Lookup(next, id) == Lookup(hs, id) && LinkOf(hs, id) == Off();
        }
      }
      RestoredAreOff(next, stored[1..]);
    }
  }

  lemma StepTells(hs: Hosts, e: HostEvent, id: int)
    requires WellFormed(hs)
    ensures LinkOf(HostHistory.Step(hs, e), id) == LinkAfter(LinkOf(hs, id), e, id)
  {
    match e
    case Change(g, c) => ChangeTells(hs, g, c, id);
    case Select(g) => ActivateChanges(hs, g);
    case Deselect => assert Lookup(hs.(active := None), id) == Lookup(hs, id);
    case Forget(g) => RemoveChanges(hs, g);
    case Reload(stored, lastActive) =>
      NothingAtFirst(lastActive);
      RestoredAreOff(NoHosts().(active := lastActive), stored);
  }

  /** Over every run whether a computer is connected and encrypted, its lights and its
      discovered name are what its last events said, since it was last forgotten and
      since the last restart. */
  lemma {:induction false} LinkIsHistory(es: seq<HostEvent>, id: int)
    ensures WellFormed(HostHistory.Run(es)) && LinkOf(HostHistory.Run(es), id) == LinkTold(es, id)
    decreases |es|
  {
    if es == [] {
      NothingAtFirst(None);
    } else {
      LinkIsHistory(es[..|es| - 1], id);
      StepTells(HostHistory.Run(es[..|es| - 1]), es[|es| - 1], id);
      StepKeepsShape(HostHistory.Run(es[..|es| - 1]), es[|es| - 1]);
    }
  }

  function BondOf(hs: Hosts, id: int): Option<StoredBond> {
    var h := Lookup(hs, id);
    if h.None? then None else h.value.bond
  }

  predicate Bonded(hs: Hosts, id: int) {
    var h := Lookup(hs, id);
    h.Some? && h.value.bonded
  }

  /** A bond stays until a new one replaces it, the computer is forgotten or the table
      is loaded anew; and a computer with a bond counts as bonded after every security
      event, whatever the event says. */
  lemma BondStays(hs: Hosts, e: HostEvent, id: int)
    requires WellFormed(hs) && !e.Reload? && e != Forget(id)
    ensures var hs' := HostHistory.Step(hs, e);
      var secured := e.Change? && e.id == id && e.change.Secure? && 1 <= id <= 4;
      && BondOf(hs', id) == (if secured && e.change.bond.Some? then e.change.bond else BondOf(hs, id))
      && Bonded(hs', id) == if secured then e.change.bonded || BondOf(hs, id).Some? else Bonded(hs, id)
  {
    match e
    case Change(g, c) => ChangeKeepsBond(hs, g, c, id);
    case Select(g) => ActivateChanges(hs, g);
    case Deselect => assert Lookup(hs.(active := None), id) == Lookup(hs, id);
    case Forget(g) => RemoveChanges(hs, g);
  }

  lemma ChangeKeepsBond(hs: Hosts, g: int, c: HostChange, id: int)
    requires WellFormed(hs)
    ensures var hs' := HostHistory.Step(hs, Change(g, c));
      var secured := g == id && c.Secure? && 1 <= id <= 4;
      && BondOf(hs', id) == (if secured && c.bond.Some? then c.bond else BondOf(hs, id))
      && Bonded(hs', id) == if secured then c.bonded || BondOf(hs, id).Some? else Bonded(hs, id)
  {
    TouchChanges(hs, g, c);
  }
}
