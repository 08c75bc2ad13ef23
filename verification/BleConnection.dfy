/** Pairing backoff and connection slots of the BLE side.

  Two peer identities match when they share an identity key, or else when they
  share an address. The relation is symmetric but not transitive, so tables keyed
  by it need care.
 */
module BleConnection {
  import opened Options
  import opened Clock

  datatype Peer = Peer(address: int, irk: Option<int>)

  predicate Matches(a: Peer, b: Peer) {
    if a.irk.Some? && b.irk.Some? && a.irk == b.irk then true else a.address == b.address
  }

  lemma MatchIsSymmetric(a: Peer, b: Peer)
    ensures Matches(a, a) && (Matches(a, b) <==> Matches(b, a))
  {
  }

  lemma MatchIsNotTransitive()
    ensures exists a, b, c :: Matches(a, b) && Matches(b, c) && !Matches(a, c)
  {
    var a, b, c := Peer(1, Some(7)), Peer(2, Some(7)), Peer(2, None);
    assert Matches(a, b) && Matches(b, c) && !Matches(a, c);
  }

  // ------------------------------------------------------------------ backoff

  const COUNT_MAX: nat := 255

  datatype Entry = Entry(peer: Peer, failures: nat, blockedUntil: nat)

  type Table = seq<Option<Entry>>

  /** The wait after the n-th failure. */
  function BackoffStep(n: nat): nat {
    if n <= 1 then 2_000 else if n == 2 then 5_000 else if n == 3 then 15_000 else 30_000
  }

  predicate MatchesAt(t: Table, i: int, peer: Peer) {
    0 <= i < |t| && t[i].Some? && Matches(t[i].value.peer, peer)
  }

  function FirstMatch(t: Table, peer: Peer, from: nat := 0): (i: int)
    requires from <= |t|
    ensures i == -1 || (from <= i < |t| && MatchesAt(t, i, peer))
    ensures forall j :: from <= j < (if i < 0 then |t| else i) ==> !MatchesAt(t, j, peer)
    decreases |t| - from
  {
    if from == |t| then -1 else if MatchesAt(t, from, peer) then from else FirstMatch(t, peer, from + 1)
  }

  function Remaining(t: Table, peer: Peer, now: nat, from: nat := 0): Option<nat>
    requires from <= |t|
    decreases |t| - from
  {
    if from == |t| then None
    else if MatchesAt(t, from, peer) && t[from].value.blockedUntil > now then Some(t[from].value.blockedUntil - now)
    else Remaining(t, peer, now, from + 1)
  }

  function FirstEmpty(t: Table, from: nat := 0): (i: int)
    requires from <= |t|
    ensures i == -1 || (from <= i < |t| && t[i].None?)
    ensures i == -1 ==> forall j :: from <= j < |t| ==> t[j].Some?
    decreases |t| - from
  {
    if from == |t| then -1 else if t[from].None? then from else FirstEmpty(t, from + 1)
  }

  predicate Expired(t: Table, i: int, now: nat) {
    0 <= i < |t| && t[i].Some? && t[i].value.blockedUntil <= now
  }

  function FirstExpired(t: Table, now: nat, from: nat := 0): (i: int)
    requires from <= |t|
    ensures i == -1 || (from <= i < |t| && Expired(t, i, now))
    ensures i == -1 ==> forall j :: from <= j < |t| ==> !Expired(t, j, now)
    decreases |t| - from
  {
    if from == |t| then -1 else if Expired(t, from, now) then from else FirstExpired(t, now, from + 1)
  }

  function Until(t: Table, i: nat): nat
    requires i < |t|
  {
    if t[i].Some? then t[i].value.blockedUntil else TIME_MAX
  }

  /** The entry before `n` that is blocked for the shortest time. */
  function Soonest(t: Table, n: nat): (i: nat)
    requires 0 < n <= |t|
    ensures i < n && forall j :: 0 <= j < n ==> Until(t, i) <= Until(t, j)
  {
    if n == 1 then 0
    else
      var i := Soonest(t, n - 1);
      if Until(t, n - 1) < Until(t, i) then n - 1 else i
  }

  /** The entry that makes room: an empty one, an expired one, or the one that
      would expire first. */
  function Replacement(t: Table, now: nat): (i: nat)
    requires |t| > 0
    ensures i < |t|
  {
    if FirstEmpty(t) >= 0 then FirstEmpty(t)
    else if FirstExpired(t, now) >= 0 then FirstExpired(t, now)
    else Soonest(t, |t|)
  }

  lemma ReplacementLosesLeast(t: Table, now: nat)
    requires |t| > 0
    ensures var i := Replacement(t, now);
      && ((exists j :: 0 <= j < |t| && t[j].None?) ==> t[i].None?)
      && (t[i].Some? && (exists j :: 0 <= j < |t| && Expired(t, j, now)) ==> Expired(t, i, now))
      && (t[i].Some? && !Expired(t, i, now) ==>
            forall j :: 0 <= j < |t| ==> t[j].Some? && t[j].value.blockedUntil >= t[i].value.blockedUntil > now)
  {
    var i := Replacement(t, now);
    if t[i].Some? && !Expired(t, i, now) {
      forall j | 0 <= j < |t| ensures t[j].Some? && t[j].value.blockedUntil >= t[i].value.blockedUntil > now {
        assert Until(t, i) <= Until(t, j);
      }
    }
  }

  function Bumped(e: Entry, now: nat): Entry {
    var n := if e.failures >= COUNT_MAX then COUNT_MAX else e.failures + 1;
    Entry(e.peer, n, Later(now, BackoffStep(n)))
  }

  datatype Recorded = Recorded(table: Table, wait: nat)

  function RecordFailure(t: Table, peer: Peer, now: nat): Recorded {
    var i := FirstMatch(t, peer);
    if i >= 0 then
      var e := Bumped(t[i].value, now);
      Recorded(t[i := Some(e)], BackoffStep(e.failures))
    else if |t| == 0 then Recorded(t, 0)
    else Recorded(t[Replacement(t, now) := Some(Entry(peer, 1, Later(now, BackoffStep(1))))], BackoffStep(1))
  }

  lemma {:induction false} RemainingAt(t: Table, peer: Peer, now: nat, from: nat, i: nat)
    requires from <= i < |t| && MatchesAt(t, i, peer) && t[i].value.blockedUntil > now
    requires forall j :: from <= j < i ==> !MatchesAt(t, j, peer)
    ensures Remaining(t, peer, now, from) == Some(t[i].value.blockedUntil - now)
    decreases i - from
  {
    if from < i {
      RemainingAt(t, peer, now, from + 1, i);
    }
  }

  lemma {:induction false} NoneRemaining(t: Table, peer: Peer, now: nat, from: nat)
    requires from <= |t|
    requires forall j :: from <= j < |t| && MatchesAt(t, j, peer) ==> t[j].value.blockedUntil <= now
    ensures Remaining(t, peer, now, from).None?
    decreases |t| - from
  {
    if from < |t| {
      NoneRemaining(t, peer, now, from + 1);
    }
  }

  /** The entry that a failure of `peer` touches. */
  function TouchedSlot(t: Table, peer: Peer, now: nat): (i: nat)
    requires |t| > 0
    ensures i < |t|
  {
    if FirstMatch(t, peer) >= 0 then FirstMatch(t, peer) else Replacement(t, now)
  }

  /** After a failure the first entry that matches the peer is the touched one. */
  lemma TouchedIsFirst(t: Table, peer: Peer, now: nat)
    requires |t| > 0
    ensures var r := RecordFailure(t, peer, now);
      var i := TouchedSlot(t, peer, now);
      && |r.table| == |t| && MatchesAt(r.table, i, peer) && (forall j :: 0 <= j < i ==> !MatchesAt(r.table, j, peer))
      && r.table[i].value.blockedUntil == Later(now, r.wait)
      && forall j :: 0 <= j < |t| && j != i ==> r.table[j] == t[j]
  {
    var r := RecordFailure(t, peer, now);
    var i := TouchedSlot(t, peer, now);
    MatchIsSymmetric(peer, peer);
    forall j | 0 <= j < i ensures !MatchesAt(r.table, j, peer) {
      assert !MatchesAt(t, j, peer);
    }
  }

  /** A failure blocks its peer for exactly the returned time, from then on, as
      long as the clock does not saturate and the table has room for one. */
  lemma BlockedForReturned(t: Table, peer: Peer, now: nat, later: nat)
    requires |t| > 0 && now <= later
    requires now + RecordFailure(t, peer, now).wait <= TIME_MAX && later < now + RecordFailure(t, peer, now).wait
    ensures var r := RecordFailure(t, peer, now);
      Remaining(r.table, peer, later) == Some(now + r.wait - later)
  {
    TouchedIsFirst(t, peer, now);
    RemainingAt(RecordFailure(t, peer, now).table, peer, later, 0, TouchedSlot(t, peer, now));
  }

  /** Deadlines are 64-bit times. */
  predicate InTime(t: Table) {
    forall i :: 0 <= i < |t| && t[i].Some? ==> t[i].value.blockedUntil <= TIME_MAX
  }

  /** At the moment of the failure it holds exactly then: a table without room
      never blocks, and a saturated clock shortens the wait. */
  lemma BlockedExactly(t: Table, peer: Peer, now: nat)
    requires now <= TIME_MAX && InTime(t)
    ensures var r := RecordFailure(t, peer, now);
      Remaining(r.table, peer, now) == Some(r.wait) <==> |t| > 0 && now + r.wait <= TIME_MAX
  {
    var r := RecordFailure(t, peer, now);
    if |t| > 0 {
      TouchedIsFirst(t, peer, now);
      var i := TouchedSlot(t, peer, now);
      if now < TIME_MAX {
        RemainingAt(r.table, peer, now, 0, i);
      } else {
        NoneRemaining(r.table, peer, now, 0);
      }
    }
  }

  /** Another entry that matches the peer blocks it beyond `later`. */
  predicate OtherBlocks(t: Table, peer: Peer, i: nat, later: nat) {
    exists j :: 0 <= j < |t| && j != i && MatchesAt(t, j, peer) && t[j].value.blockedUntil > later
  }

  /** When the returned time is over, the peer is free exactly if no other entry
      that matches it blocks any longer. */
  lemma FreeAfterReturned(t: Table, peer: Peer, now: nat, later: nat)
    requires |t| > 0 && now + RecordFailure(t, peer, now).wait <= TIME_MAX
    requires later >= now + RecordFailure(t, peer, now).wait
    ensures var r := RecordFailure(t, peer, now);
      Remaining(r.table, peer, later).None? <==> !OtherBlocks(t, peer, TouchedSlot(t, peer, now), later)
  {
    var r := RecordFailure(t, peer, now);
    var i := TouchedSlot(t, peer, now);
    TouchedIsFirst(t, peer, now);
    if OtherBlocks(t, peer, i, later) {
      var j :| 0 <= j < |t| && j != i && MatchesAt(t, j, peer) && t[j].value.blockedUntil > later;
      assert MatchesAt(r.table, j, peer);
      SomeRemaining(r.table, peer, later, 0, j);
    } else {
      forall j | 0 <= j < |t| && MatchesAt(r.table, j, peer) ensures r.table[j].value.blockedUntil <= later {
        assert j != i ==> MatchesAt(t, j, peer);
      }
      NoneRemaining(r.table, peer, later, 0);
    }
  }

  lemma {:induction false} SomeRemaining(t: Table, peer: Peer, now: nat, from: nat, j: nat)
    requires from <= j < |t| && MatchesAt(t, j, peer) && t[j].value.blockedUntil > now
    ensures Remaining(t, peer, now, from).Some?
    decreases j - from
  {
    if from < j {
      SomeRemaining(t, peer, now, from + 1, j);
    }
  }

  /** So a failure blocks its peer for exactly the returned time, neither shorter
      nor longer, if and only if no other match outlasts it. */
  lemma BlockedExactlyIff(t: Table, peer: Peer, now: nat)
    requires |t| > 0 && now + RecordFailure(t, peer, now).wait <= TIME_MAX
    ensures var r := RecordFailure(t, peer, now);
      (forall later :: later >= now ==>
         Remaining(r.table, peer, later) == if later < now + r.wait then Some(now + r.wait - later) else None)
      <==> !OtherBlocks(t, peer, TouchedSlot(t, peer, now), now + r.wait)
  {
    var r := RecordFailure(t, peer, now);
    var i, ends := TouchedSlot(t, peer, now), now + r.wait;
    FreeAfterReturned(t, peer, now, ends);
    if !OtherBlocks(t, peer, i, ends) {
      forall later | later >= now
        ensures Remaining(r.table, peer, later) == if later < ends then Some(ends - later) else None
      {
        if later < ends {
          BlockedForReturned(t, peer, now, later);
        } else {
          FreeAfterReturned(t, peer, now, later);
        }
      }
    } else {
      assert Remaining(r.table, peer, ends).Some?;
    }
  }

  // ------------------------------------------------- failures of one entry

  datatype Failure = Failure(peer: Peer, now: nat)

  function AfterFailures(t: Table, fs: seq<Failure>): Table {
    if fs == [] then t
    else
      var last := fs[|fs| - 1];
      RecordFailure(AfterFailures(t, fs[..|fs| - 1]), last.peer, last.now).table
  }

  /** Every one of the failures is counted on entry `i`. */
  predicate Retained(t: Table, fs: seq<Failure>, i: nat) {
    forall n :: 0 <= n < |fs| ==> FirstMatch(AfterFailures(t, fs[..n]), fs[n].peer) == i
  }

  lemma {:induction false} CountGrows(t: Table, fs: seq<Failure>, i: nat)
    requires i < |t| && t[i].Some? && t[i].value.failures <= COUNT_MAX && Retained(t, fs, i)
    ensures var t' := AfterFailures(t, fs);
      && |t'| == |t| && t'[i].Some? && t'[i].value.peer == t[i].value.peer
      && t'[i].value.failures == if t[i].value.failures + |fs| > COUNT_MAX then COUNT_MAX else t[i].value.failures + |fs|
    decreases |fs|
  {
    if fs != [] {
      var before := fs[..|fs| - 1];
      assert forall n :: 0 <= n < |before| ==> before[..n] == fs[..n] && before[n] == fs[n];
      CountGrows(t, before, i);
    }
  }

  lemma RetainedPrefix(t: Table, fs: seq<Failure>, next: Failure, i: nat)
    requires Retained(t, fs + [next], i)
    ensures Retained(t, fs, i) && FirstMatch(AfterFailures(t, fs), next.peer) == i
  {
    var all := fs + [next];
    forall n | 0 <= n < |fs| ensures FirstMatch(AfterFailures(t, fs[..n]), fs[n].peer) == i {
      assert all[..n] == fs[..n] && all[n] == fs[n];
    }
    assert all[..|fs|] == fs && all[|fs|] == next;
  }

  lemma RetainedWaits(t: Table, fs: seq<Failure>, next: Failure, i: nat)
    requires i < |t| && t[i].Some? && t[i].value.failures == 1 && Retained(t, fs + [next], i)
    ensures RecordFailure(AfterFailures(t, fs), next.peer, next.now).wait == BackoffStep(|fs| + 2)
  {
    RetainedPrefix(t, fs, next, i);
    CountGrows(t, fs, i);
  }

  /** The wait that the n-th failure of a retained entry returns: 2, 5, 15 and
      then always 30 seconds. The entry is made by a first failure. */
  lemma NthFailureWaits(t: Table, first: Failure, fs: seq<Failure>, next: Failure)
    requires |t| > 0 && FirstMatch(t, first.peer) < 0
    requires Retained(RecordFailure(t, first.peer, first.now).table, fs + [next], Replacement(t, first.now))
    ensures var made := RecordFailure(t, first.peer, first.now);
      && made.wait == 2_000
      && RecordFailure(AfterFailures(made.table, fs), next.peer, next.now).wait ==
           if |fs| == 0 then 5_000 else if |fs| == 1 then 15_000 else 30_000
  {
    RetainedWaits(RecordFailure(t, first.peer, first.now).table, fs, next, Replacement(t, first.now));
  }

  // -------------------------------------------- a wait that another one outlasts

  // From an empty table of two: one failure of a peer without a key, four of a peer
  // with one, and then a failure of a peer that matches both.

  function SharedPeer(): Peer {
    Peer(2, Some(7))
  }

  function EarlierFailures(): seq<Failure> {
    [Failure(Peer(2, None), 0), Failure(Peer(1, Some(7)), 1_000), Failure(Peer(1, Some(7)), 2_000),
     Failure(Peer(1, Some(7)), 3_000), Failure(Peer(1, Some(7)), 10_000)]
  }

  function TwoEntries(n: nat, until: nat): Table {
    [Some(Entry(Peer(2, None), 1, 2_000)), Some(Entry(Peer(1, Some(7)), n, until))]
  }

  lemma FirstTwo()
    ensures var t := RecordFailure([None, None], Peer(2, None), 0).table;
      RecordFailure(t, Peer(1, Some(7)), 1_000).table == TwoEntries(1, 3_000)
  {
    var t: Table := [None, None];
    assert FirstMatch(t, Peer(2, None)) == -1 && FirstEmpty(t) == 0;
    var t1 := RecordFailure(t, Peer(2, None), 0).table;
    assert t1 == [Some(Entry(Peer(2, None), 1, 2_000)), None];
    assert FirstMatch(t1, Peer(1, Some(7))) == -1 && FirstEmpty(t1) == 1;
  }

  lemma Again(n: nat, until: nat, now: nat)
    requires 1 <= n < 4 && now <= 10_000
    ensures RecordFailure(TwoEntries(n, until), Peer(1, Some(7)), now).table == TwoEntries(n + 1, now + BackoffStep(n + 1))
  {
    var t := TwoEntries(n, until);
    assert !MatchesAt(t, 0, Peer(1, Some(7))) && MatchesAt(t, 1, Peer(1, Some(7)));
    assert FirstMatch(t, Peer(1, Some(7))) == 1;
  }

  lemma ReachesTwoEntries()
    ensures AfterFailures([None, None], EarlierFailures()) == TwoEntries(4, 40_000)
  {
    var fs := EarlierFailures();
    FirstTwo();
    Again(1, 3_000, 2_000);
    Again(2, 7_000, 3_000);
    Again(3, 18_000, 10_000);
    var t0: Table := [None, None];
    assert fs[..4][..3] == fs[..3] && fs[..3][..2] == fs[..2] && fs[..2][..1] == fs[..1] && fs[..1][..0] == [];
    assert AfterFailures(t0, fs[..1]) == RecordFailure(t0, Peer(2, None), 0).table;
    assert AfterFailures(t0, fs[..2]) == TwoEntries(1, 3_000);
    assert AfterFailures(t0, fs[..3]) == TwoEntries(2, 7_000);
    assert AfterFailures(t0, fs[..4]) == TwoEntries(3, 18_000);
  }

  /** The failure returns five seconds, and after them the peer is blocked for
      another 25. */
  lemma OtherMatchOutlasts()
    ensures var r := RecordFailure(AfterFailures([None, None], EarlierFailures()), SharedPeer(), 10_000);
      r.wait == 5_000 && Remaining(r.table, SharedPeer(), 15_000) == Some(25_000)
  {
    ReachesTwoEntries();
    var t := TwoEntries(4, 40_000);
    assert MatchesAt(t, 0, SharedPeer()) && FirstMatch(t, SharedPeer()) == 0;
    var r := RecordFailure(t, SharedPeer(), 10_000);
    assert r.table == [Some(Entry(Peer(2, None), 2, 15_000)), Some(Entry(Peer(1, Some(7)), 4, 40_000))];
    assert MatchesAt(r.table, 0, SharedPeer()) && MatchesAt(r.table, 1, SharedPeer());
    assert Remaining(r.table, SharedPeer(), 15_000, 1) == Some(25_000);
  }

  // ------------------------------------------------------------- the object

  class PairingBackoff {
    const entries: array<Option<Entry>>

    constructor (capacity: nat)
      ensures fresh(entries) && entries.Length == capacity && forall i :: 0 <= i < capacity ==> entries[i].None?
    {
      entries := new Option<Entry>[capacity](_ => None);
    }

    method BlockedRemaining(peer: Peer, now: nat) returns (r: Option<nat>)
      ensures r == Remaining(entries[..], peer, now)
    {
      var i := 0;
      while i < entries.Length
        invariant 0 <= i <= entries.Length
        invariant Remaining(entries[..], peer, now) == Remaining(entries[..], peer, now, i)
      {
        if entries[i].Some? && Matches(entries[i].value.peer, peer) && entries[i].value.blockedUntil > now {
          return Some(entries[i].value.blockedUntil - now);
        }
        i := i + 1;
      }
      r := None;
    }

    method FindMatch(peer: Peer) returns (i: int)
      ensures i == FirstMatch(entries[..], peer)
    {
      i := 0;
      while i < entries.Length
        invariant 0 <= i <= entries.Length
        invariant FirstMatch(entries[..], peer) == FirstMatch(entries[..], peer, i)
      {
        if entries[i].Some? && Matches(entries[i].value.peer, peer) {
          return;
        }
        i := i + 1;
      }
      i := -1;
    }

    method FindReplacement(now: nat) returns (i: nat)
      requires entries.Length > 0
      ensures i == Replacement(entries[..], now)
    {
      var t := entries[..];
      var empty := FirstEmpty(t);
      if empty >= 0 {
        return empty;
      }
      var expired := FirstExpired(t, now);
      if expired >= 0 {
        return expired;
      }
      i := 0;
      var n := 1;
      while n < entries.Length
        invariant 1 <= n <= entries.Length
        invariant i == Soonest(t, n)
      {
        if Until(t, n) < Until(t, i) {
          i := n;
        }
        n := n + 1;
      }
    }

    method Record(peer: Peer, now: nat) returns (wait: nat)
      modifies entries
      ensures var r := RecordFailure(old(entries[..]), peer, now); entries[..] == r.table && wait == r.wait
    {
      var i := FindMatch(peer);
      if i >= 0 {
        var e := entries[i].value;
        var n := if e.failures >= 255 then 255 else e.failures + 1;
        wait := BackoffStep(n);
        entries[i] := Some(Entry(e.peer, n, Later(now, wait)));
        return;
      }
      if entries.Length == 0 {
        return 0;
      }
      var j := FindReplacement(now);
      wait := 2_000;
      entries[j] := Some(Entry(peer, 1, Later(now, wait)));
    }

    method ClearPeer(peer: Peer)
      modifies entries
      ensures forall i :: 0 <= i < entries.Length ==>
        entries[i] == if MatchesAt(old(entries[..]), i, peer) then None else old(entries[i])
    {
      var i := 0;
      while i < entries.Length
        invariant 0 <= i <= entries.Length
        invariant forall j :: 0 <= j < i ==>
          entries[j] == if MatchesAt(old(entries[..]), j, peer) then None else old(entries[j])
        invariant forall j :: i <= j < entries.Length ==> entries[j] == old(entries[j])
      {
        if entries[i].Some? && Matches(entries[i].value.peer, peer) {
          entries[i] := None;
        }
        i := i + 1;
      }
    }
  }

  // --------------------------------------------------------- connection slots

  datatype Connection = Connection(host: int, peer: Peer)

  datatype SlotError = InvalidSlot | InvalidHost | NoFreeSlot | DuplicateHost | DuplicatePeer

  datatype SlotResult = Slot(index: nat) | Failed(error: SlotError)

  predicate ValidHost(host: int) {
    1 <= host <= 4
  }

  /** The connection would be at odds with slot `i`. */
  predicate Clashes(slots: seq<Option<Connection>>, i: int, host: int, peer: Peer) {
    0 <= i < |slots| && slots[i].Some? && (slots[i].value.host == host || Matches(slots[i].value.peer, peer))
  }

  /** Connected slots differ in host, and no two peers match. */
  predicate Unique(slots: seq<Option<Connection>>) {
    forall i, j :: 0 <= i < |slots| && 0 <= j < |slots| && i != j && slots[i].Some? ==>
      !Clashes(slots, j, slots[i].value.host, slots[i].value.peer)
  }

  lemma ConnectKeepsUnique(slots: seq<Option<Connection>>, slot: nat, host: int, peer: Peer)
    requires Unique(slots) && slot < |slots|
    requires forall j :: 0 <= j < |slots| && j != slot ==> !Clashes(slots, j, host, peer)
    ensures Unique(slots[slot := Some(Connection(host, peer))])
  {
    var after := slots[slot := Some(Connection(host, peer))];
    forall i, j | 0 <= i < |after| && 0 <= j < |after| && i != j && after[i].Some?
      ensures !Clashes(after, j, after[i].value.host, after[i].value.peer)
    {
      if j == slot {
        assert !Clashes(slots, i, host, peer);
        MatchIsSymmetric(after[i].value.peer, peer);
      } else if i == slot {
        assert !Clashes(slots, j, host, peer);
      } else {
        assert !Clashes(slots, j, slots[i].value.host, slots[i].value.peer);
      }
    }
  }

  class ConnectionSlots {
    const entries: array<Option<Connection>>

    ghost predicate Valid()
      reads entries
    {
      Unique(entries[..])
    }

    constructor (size: nat)
      ensures Valid() && fresh(entries) && entries.Length == size && forall i :: 0 <= i < size ==> entries[i].None?
    {
      entries := new Option<Connection>[size](_ => None);
    }

    /** Looks for another slot with this host or a matching peer. */
    method EnsureUnique(host: int, peer: Peer, replacing: Option<nat>) returns (r: Option<SlotError>)
      ensures r.None? <==>
        forall j :: 0 <= j < entries.Length && replacing != Some(j) ==> !Clashes(entries[..], j, host, peer)
      ensures r.Some? ==> r.value == DuplicateHost || r.value == DuplicatePeer
    {
      var i := 0;
      while i < entries.Length
        invariant 0 <= i <= entries.Length
        invariant forall j :: 0 <= j < i && replacing != Some(j) ==> !Clashes(entries[..], j, host, peer)
      {
        if replacing != Some(i) && entries[i].Some? {
          if entries[i].value.host == host {
            assert Clashes(entries[..], i, host, peer);
            return Some(DuplicateHost);
          }
          if Matches(entries[i].value.peer, peer) {
            assert Clashes(entries[..], i, host, peer);
            return Some(DuplicatePeer);
          }
        }
        i := i + 1;
      }
      r := None;
    }

    method ConnectFirstFree(host: int, peer: Peer) returns (r: SlotResult)
      requires Valid()
      modifies entries
      ensures Valid()
      ensures r.Slot? <==>
        && ValidHost(host) && (forall j :: 0 <= j < entries.Length ==> !Clashes(old(entries[..]), j, host, peer))
        && exists j :: 0 <= j < entries.Length && old(entries[j]).None?
      ensures r.Slot? ==>
        && r.index < entries.Length && old(entries[r.index]).None?
        && entries[..] == old(entries[..])[r.index := Some(Connection(host, peer))]
      ensures r.Failed? ==> entries[..] == old(entries[..])
    {
      if !ValidHost(host) {
        return Failed(InvalidHost);
      }
      var clash := EnsureUnique(host, peer, None);
      if clash.Some? {
        return Failed(clash.value);
      }
      var i := 0;
      while i < entries.Length
        invariant 0 <= i <= entries.Length
        invariant entries[..] == old(entries[..])
        invariant forall j :: 0 <= j < i ==> entries[j].Some?
      {
        if entries[i].None? {
          ConnectKeepsUnique(entries[..], i, host, peer);
          entries[i] := Some(Connection(host, peer));
          return Slot(i);
        }
        i := i + 1;
      }
      r := Failed(NoFreeSlot);
    }

    method SetConnected(slot: nat, host: int, peer: Peer) returns (r: SlotResult)
      requires Valid()
      modifies entries
      ensures Valid()
      ensures r.Slot? <==>
        && slot < entries.Length && ValidHost(host)
        && forall j :: 0 <= j < entries.Length && j != slot ==> !Clashes(old(entries[..]), j, host, peer)
      ensures r.Slot? ==> r.index == slot && entries[..] == old(entries[..])[slot := Some(Connection(host, peer))]
      ensures r.Failed? ==> entries[..] == old(entries[..])
    {
      if slot >= entries.Length {
        return Failed(InvalidSlot);
      }
      if !ValidHost(host) {
        return Failed(InvalidHost);
      }
      var clash := EnsureUnique(host, peer, Some(slot));
      if clash.Some? {
        return Failed(clash.value);
      }
      ConnectKeepsUnique(entries[..], slot, host, peer);
      entries[slot] := Some(Connection(host, peer));
      r := Slot(slot);
    }

    method SetDisconnected(slot: nat) returns (ok: bool, was: Option<int>)
      requires Valid()
      modifies entries
      ensures Valid() && (ok <==> slot < entries.Length)
      ensures ok ==> entries[..] == old(entries[..])[slot := None]
      ensures ok ==> was == if old(entries[slot]).Some? then Some(old(entries[slot]).value.host) else None
      ensures !ok ==> entries[..] == old(entries[..]) && was.None?
    {
      if slot >= entries.Length {
        return false, None;
      }
      was := if entries[slot].Some? then Some(entries[slot].value.host) else None;
      ClearKeepsUnique(entries[..], slot);
      entries[slot] := None;
      assert entries[..] == old(entries[..])[slot := None];
      ok := true;
    }

    /** The slot that serves a host: there is at most one. */
    method DispatchSlotForHost(host: int) returns (r: Option<nat>)
      requires Valid()
      ensures forall i :: 0 <= i < entries.Length ==>
        ((entries[i].Some? && entries[i].value.host == host) <==> r == Some(i))
      ensures r.Some? ==> r.value < entries.Length
    {
      var i := 0;
      while i < entries.Length
        invariant 0 <= i <= entries.Length
        invariant forall j :: 0 <= j < i && entries[j].Some? ==> entries[j].value.host != host
      {
        if entries[i].Some? && entries[i].value.host == host {
          forall j | 0 <= j < entries.Length && j != i && entries[j].Some? ensures entries[j].value.host != host {
            assert !Clashes(entries[..], j, entries[..][i].value.host, entries[..][i].value.peer);
          }
          return Some(i);
        }
        i := i + 1;
      }
      r := None;
    }
  }

  lemma ClearKeepsUnique(slots: seq<Option<Connection>>, slot: nat)
    requires Unique(slots) && slot < |slots|
    ensures Unique(slots[slot := None])
  {
    var after := slots[slot := None];
    forall i, j | 0 <= i < |after| && 0 <= j < |after| && i != j && after[i].Some?
      ensures !Clashes(after, j, after[i].value.host, after[i].value.peer)
    {
      assert !Clashes(slots, j, slots[i].value.host, slots[i].value.peer);
    }
  }
}
