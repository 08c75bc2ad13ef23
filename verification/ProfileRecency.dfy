/** The profile registry behaves like a plain recency list.

  The list holds one entry per profile, least recently used first. Using a
  profile moves its entry to the back; when the table is full, the first idle
  entry gives up its number. No counter appears in it.
 */
module ProfileRecency {
  import opened Bits
  import opened InputProfiles

  datatype Entry = Entry(id: Byte, identity: InputIdentity, connected: bool)

  function EntryOf(p: InputProfile): Entry {
    Entry(p.id, p.identity, p.connected)
  }

  function ToBack<T>(s: seq<T>, k: nat, x: T): seq<T>
    requires k < |s|
  {
    s[..k] + s[k + 1..] + [x]
  }

  ghost predicate Unused(list: seq<Entry>, id: int) {
    1 <= id <= CAPACITY && forall k :: 0 <= k < |list| ==> list[k].id != id
  }

  ghost predicate FirstIdle(list: seq<Entry>, k: int) {
    0 <= k < |list| && !list[k].connected && forall j :: 0 <= j < k ==> list[j].connected
  }

  ghost predicate HasIdentity(list: seq<Entry>, identity: InputIdentity) {
    exists k :: 0 <= k < |list| && list[k].identity == identity
  }

  ghost predicate ListObserved(list: seq<Entry>, identity: InputIdentity, list': seq<Entry>, out: Outcome<Byte>) {
    if HasIdentity(list, identity) then
      exists k :: 0 <= k < |list| && list[k].identity == identity && out == Ok(list[k].id)
        && list' == ToBack(list, k, list[k].(connected := true))
    else if |list| < CAPACITY then
      && out.Ok? && Unused(list, out.value) && (forall id :: 1 <= id < out.value ==> !Unused(list, id))
      && list' == list + [Entry(out.value, identity, true)]
    else if exists k :: FirstIdle(list, k) then
      exists k :: FirstIdle(list, k) && out == Ok(list[k].id)
        && list' == ToBack(list, k, Entry(list[k].id, identity, true))
    else
      out == Err(FullWithConnectedProfiles) && list' == list
  }

  ghost predicate ListDropped(list: seq<Entry>, id: Byte, list': seq<Entry>, out: Outcome<()>) {
    if exists k :: 0 <= k < |list| && list[k].id == id then
      exists k :: 0 <= k < |list| && list[k].id == id && out == Ok(())
        && list' == ToBack(list, k, list[k].(connected := false))
    else
      out == Err(UnknownProfile) && list' == list
  }

  /** `at` lists every slot below `n` once. */
  ghost predicate Permutation(n: nat, at: seq<int>) {
    && |at| == n
    && (forall k :: 0 <= k < n ==> 0 <= at[k] < n)
    && (forall i :: 0 <= i < n ==> i in at)
    && (forall j, k :: 0 <= j < k < n ==> at[j] != at[k])
  }

  /** `at[k]` is the slot of the k-th entry; use counters grow along the list. */
  ghost predicate Represents(r: Registry, list: seq<Entry>, at: seq<int>) {
    && |list| == |r.profiles|
    && Permutation(|r.profiles|, at)
    && (forall k :: 0 <= k < |at| ==> list[k] == EntryOf(r.profiles[at[k]]))
    && (forall j, k :: 0 <= j < k < |at| ==> r.profiles[at[j]].lastSeen < r.profiles[at[k]].lastSeen)
    && (forall i :: 0 <= i < |r.profiles| ==> r.profiles[i].lastSeen < r.nextSequence)
  }

  const LAST_SEQUENCE: U64 := 0xffff_ffff_ffff_ffff

  lemma ToBackAt<T>(s: seq<T>, k: nat, x: T, m: nat)
    requires k < |s| && m < |s|
    ensures |ToBack(s, k, x)| == |s|
    ensures ToBack(s, k, x)[m] == if m < k then s[m] else if m < |s| - 1 then s[m + 1] else x
  {
  }

  lemma PermutationToBack(n: nat, at: seq<int>, k: nat)
    requires Permutation(n, at) && k < n
    ensures Permutation(n, ToBack(at, k, at[k]))
  {
    var at' := ToBack(at, k, at[k]);
    forall m | 0 <= m < n
      ensures 0 <= at'[m] < n
    {
      ToBackAt(at, k, at[k], m);
    }
    forall j, m | 0 <= j < m < n
      ensures at'[j] != at'[m]
    {
      ToBackAt(at, k, at[k], j);
      ToBackAt(at, k, at[k], m);
    }
    forall i | 0 <= i < n
      ensures i in at'
    {
      assert i in at;
      var m :| 0 <= m < n && at[m] == i;
      var m' := if m < k then m else if m > k then m - 1 else n - 1;
      ToBackAt(at, k, at[k], m');
      assert at'[m'] == i;
    }
  }

  /** Using slot `at[k]` moves entry k to the back. */
  lemma UseSlot(r: Registry, list: seq<Entry>, at: seq<int>, k: nat, p: InputProfile, r': Registry)
    requires Represents(r, list, at) && k < |at| && r.nextSequence < LAST_SEQUENCE
    requires p.lastSeen == r.nextSequence && r' == Registry(r.profiles[at[k] := p], Next(r.nextSequence))
    ensures Represents(r', ToBack(list, k, EntryOf(p)), ToBack(at, k, at[k]))
  {
    var at', list' := ToBack(at, k, at[k]), ToBack(list, k, EntryOf(p));
    PermutationToBack(|at|, at, k);
    forall m | 0 <= m < |at|
      ensures list'[m] == EntryOf(r'.profiles[at'[m]])
    {
      ToBackAt(at, k, at[k], m);
      ToBackAt(list, k, EntryOf(p), m);
    }
    forall j, m | 0 <= j < m < |at|
      ensures r'.profiles[at'[j]].lastSeen < r'.profiles[at'[m]].lastSeen
    {
      ToBackAt(at, k, at[k], j);
      ToBackAt(at, k, at[k], m);
    }
  }

  lemma PermutationAdd(n: nat, at: seq<int>)
    requires Permutation(n, at)
    ensures Permutation(n + 1, at + [n])
  {
    forall i | 0 <= i < n + 1
      ensures i in at + [n]
    {
      if i < n {
        assert i in at;
      } else {
        assert (at + [n])[n] == i;
      }
    }
  }

  lemma AddSlot(r: Registry, list: seq<Entry>, at: seq<int>, p: InputProfile, r': Registry)
    requires Represents(r, list, at) && r.nextSequence < LAST_SEQUENCE
    requires p.lastSeen == r.nextSequence && r' == Registry(r.profiles + [p], Next(r.nextSequence))
    ensures Represents(r', list + [EntryOf(p)], at + [|at|])
  {
    PermutationAdd(|at|, at);
  }

  lemma EntryFor(r: Registry, list: seq<Entry>, at: seq<int>, i: nat) returns (k: nat)
    requires Represents(r, list, at) && i < |r.profiles|
    ensures k < |at| && at[k] == i && list[k] == EntryOf(r.profiles[i])
  {
    assert i in at;
    k :| k < |at| && at[k] == i;
  }

  /** The slot with the smallest counter among idle profiles is the first idle
      entry of the list. */
  lemma LeastRecentIsFirstIdle(r: Registry, list: seq<Entry>, at: seq<int>, k: nat)
    requires Represents(r, list, at) && k < |at| && LeastRecent(r, at[k])
    ensures FirstIdle(list, k)
  {
    forall j | 0 <= j < k
      ensures list[j].connected
    {
      assert r.profiles[at[j]].lastSeen < r.profiles[at[k]].lastSeen;
    }
  }

  lemma SameFreeIds(r: Registry, list: seq<Entry>, at: seq<int>, id: int)
    requires Represents(r, list, at)
    ensures FreeId(r, id) <==> Unused(list, id)
  {
    if Unused(list, id) {
      forall i | 0 <= i < |r.profiles|
        ensures r.profiles[i].id != id
      {
        var k := EntryFor(r, list, at, i);
      }
    }
  }

  lemma ObserveSimulates(r: Registry, list: seq<Entry>, at: seq<int>, identity: InputIdentity, r': Registry, out: Outcome<Byte>)
    returns (list': seq<Entry>, at': seq<int>)
    requires Represents(r, list, at) && r.nextSequence < LAST_SEQUENCE
    requires Observed(r, identity, r', out)
    ensures Represents(r', list', at') && ListObserved(list, identity, list', out)
  {
    if Knows(r, identity) {
      var i :| 0 <= i < |r.profiles| && r.profiles[i].identity == identity
        && r'.profiles == r.profiles[i := r.profiles[i].(connected := true, lastSeen := r.nextSequence)]
        && out == Ok(r.profiles[i].id);
      var k := EntryFor(r, list, at, i);
      var p := r.profiles[i].(connected := true, lastSeen := r.nextSequence);
      UseSlot(r, list, at, k, p, r');
      list', at' := ToBack(list, k, EntryOf(p)), ToBack(at, k, at[k]);
      assert list[k].identity == identity;
    } else {
      assert !HasIdentity(list, identity);
      if |r.profiles| < CAPACITY {
        forall id: int ensures FreeId(r, id) <==> Unused(list, id) { SameFreeIds(r, list, at, id); }
        var p := Fresh(r, out.value, identity);
        AddSlot(r, list, at, p, r');
        list', at' := list + [EntryOf(p)], at + [|at|];
      } else if AllConnected(r) {
        list', at' := list, at;
      } else {
        var i :| LeastRecent(r, i)
          && r'.profiles == r.profiles[i := Fresh(r, r.profiles[i].id, identity)] && out == Ok(r.profiles[i].id);
        var k := EntryFor(r, list, at, i);
        LeastRecentIsFirstIdle(r, list, at, k);
        var p := Fresh(r, r.profiles[i].id, identity);
        UseSlot(r, list, at, k, p, r');
        list', at' := ToBack(list, k, EntryOf(p)), ToBack(at, k, at[k]);
      }
    }
  }

  lemma DropSimulates(r: Registry, list: seq<Entry>, at: seq<int>, id: Byte, r': Registry, out: Outcome<()>)
    returns (list': seq<Entry>, at': seq<int>)
    requires Represents(r, list, at) && r.nextSequence < LAST_SEQUENCE
    requires Dropped(r, id, r', out)
    ensures Represents(r', list', at') && ListDropped(list, id, list', out)
  {
    if exists i :: 0 <= i < |r.profiles| && r.profiles[i].id == id {
      var i :| 0 <= i < |r.profiles| && r.profiles[i].id == id
        && r'.profiles == r.profiles[i := Disconnected(r.profiles[i], r.nextSequence)] && out == Ok(());
      var k := EntryFor(r, list, at, i);
      var p := Disconnected(r.profiles[i], r.nextSequence);
      UseSlot(r, list, at, k, p, r');
      list', at' := ToBack(list, k, EntryOf(p)), ToBack(at, k, at[k]);
      assert list[k].id == id;
    } else {
      list', at' := list, at;
    }
  }

  // ------------------------------------------------------------- runs

  datatype Op = Observe(identity: InputIdentity, result: Outcome<Byte>) | Drop(id: Byte, done: Outcome<()>)

  ghost predicate RegistryStep(r: Registry, op: Op, r': Registry) {
    match op
    case Observe(identity, result) => Observed(r, identity, r', result)
    case Drop(id, done) => Dropped(r, id, r', done)
  }

  ghost predicate ListStep(list: seq<Entry>, op: Op, list': seq<Entry>) {
    match op
    case Observe(identity, result) => ListObserved(list, identity, list', result)
    case Drop(id, done) => ListDropped(list, id, list', done)
  }

  ghost predicate RegistryRun(rs: seq<Registry>, ops: seq<Op>) {
    && |rs| == |ops| + 1 && rs[0] == EMPTY
    && forall i :: 0 <= i < |ops| ==> RegistryStep(rs[i], ops[i], rs[i + 1])
  }

  ghost predicate ListRun(lists: seq<seq<Entry>>, ops: seq<Op>) {
    && |lists| == |ops| + 1 && lists[0] == []
    && forall i :: 0 <= i < |ops| ==> ListStep(lists[i], ops[i], lists[i + 1])
  }

  lemma ReplaceKeepsWellFormed(r: Registry, i: int, p: InputProfile, next: U64)
    requires WellFormed(r) && 0 <= i < |r.profiles| && p.id == r.profiles[i].id
    requires p.identity == r.profiles[i].identity || !Knows(r, p.identity)
    ensures WellFormed(Registry(r.profiles[i := p], next))
  {
  }

  lemma ObserveKeepsWellFormed(r: Registry, identity: InputIdentity, r': Registry, out: Outcome<Byte>)
    requires WellFormed(r) && Observed(r, identity, r', out)
    ensures WellFormed(r')
  {
    if Knows(r, identity) {
      var i :| 0 <= i < |r.profiles| && r.profiles[i].identity == identity
        && r'.profiles == r.profiles[i := r.profiles[i].(connected := true, lastSeen := r.nextSequence)];
      ReplaceKeepsWellFormed(r, i, r'.profiles[i], r'.nextSequence);
    } else if |r.profiles| < CAPACITY {
      assert !Knows(r, r'.profiles[|r.profiles|].identity);
    } else if !AllConnected(r) {
      var i :| LeastRecent(r, i) && r'.profiles == r.profiles[i := Fresh(r, r.profiles[i].id, identity)];
      ReplaceKeepsWellFormed(r, i, r'.profiles[i], r'.nextSequence);
    }
  }

  lemma DropKeepsWellFormed(r: Registry, id: Byte, r': Registry, out: Outcome<()>)
    requires WellFormed(r) && Dropped(r, id, r', out)
    ensures WellFormed(r')
  {
    if out.Ok? {
      var i :| 0 <= i < |r.profiles| && r.profiles[i].id == id
        && r'.profiles == r.profiles[i := Disconnected(r.profiles[i], r.nextSequence)];
      ReplaceKeepsWellFormed(r, i, r'.profiles[i], r'.nextSequence);
    }
  }

  lemma StepSimulates(r: Registry, list: seq<Entry>, at: seq<int>, op: Op, r': Registry)
    returns (list': seq<Entry>, at': seq<int>)
    requires WellFormed(r) && Represents(r, list, at) && r.nextSequence < LAST_SEQUENCE
    requires RegistryStep(r, op, r')
    ensures WellFormed(r') && r'.nextSequence == r.nextSequence + 1
    ensures Represents(r', list', at') && ListStep(list, op, list')
  {
    match op {
      case Observe(identity, result) =>
        ObserveKeepsWellFormed(r, identity, r', result);
        list', at' := ObserveSimulates(r, list, at, identity, r', result);
      case Drop(id, done) =>
        DropKeepsWellFormed(r, id, r', done);
        list', at' := DropSimulates(r, list, at, id, r', done);
    }
  }

  /** Every run of the registry from empty, below counter wrap, is a run of the
      recency list with the same answers. */
  lemma {:induction false} RunIsRecencyRun(rs: seq<Registry>, ops: seq<Op>)
    returns (lists: seq<seq<Entry>>, at: seq<int>)
    requires RegistryRun(rs, ops) && |ops| < LAST_SEQUENCE - 1
    ensures ListRun(lists, ops)
    ensures WellFormed(rs[|ops|]) && rs[|ops|].nextSequence == |ops| + 1
    ensures Represents(rs[|ops|], lists[|ops|], at)
    decreases |ops|
  {
    if ops == [] {
      lists, at := [[]], [];
    } else {
      var n := |ops| - 1;
      var lists0, at0 := RunIsRecencyRun(rs[..n + 1], ops[..n]);
      assert RegistryStep(rs[n], ops[n], rs[n + 1]);
      var list', at' := StepSimulates(rs[n], lists0[n], at0, ops[n], rs[n + 1]);
      lists, at := lists0 + [list'], at';
      ListRunExtends(lists0, ops[..n], list', ops[n]);
      assert ops == ops[..n] + [ops[n]];
    }
  }

  lemma ListRunExtends(lists: seq<seq<Entry>>, ops: seq<Op>, list': seq<Entry>, op: Op)
    requires ListRun(lists, ops) && ListStep(lists[|ops|], op, list')
    ensures ListRun(lists + [list'], ops + [op])
  {
  }

  /** Observing fails exactly when the device is unknown and every one of the
      eight profiles is connected. */
  lemma ObserveFailsExactly(r: Registry, identity: InputIdentity, r': Registry, out: Outcome<Byte>)
    requires WellFormed(r) && Observed(r, identity, r', out)
    ensures out.Err? <==> !Knows(r, identity) && |r.profiles| == CAPACITY && AllConnected(r)
    ensures out.Ok? ==> Knows(r', identity)
  {
    if out.Ok? {
      if Knows(r, identity) {
        var i :| 0 <= i < |r.profiles| && r.profiles[i].identity == identity
          && r'.profiles == r.profiles[i := r.profiles[i].(connected := true, lastSeen := r.nextSequence)];
        assert r'.profiles[i].identity == identity;
      } else if |r.profiles| < CAPACITY {
        assert r'.profiles[|r.profiles|].identity == identity;
      } else {
        var i :| LeastRecent(r, i) && r'.profiles == r.profiles[i := Fresh(r, r.profiles[i].id, identity)];
        assert r'.profiles[i].identity == identity;
      }
    }
  }
}
