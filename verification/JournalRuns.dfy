/** Runs of the journal from a blank flash: the strict form of crash atomicity for
    runs in which no write fails, and what a failed write can cost. */
module JournalRuns {
  import opened Options
  import opened Bits
  import opened StorageImage
  import opened Journal
  import opened JournalSafety

  // -------------------------------------------------------- tidy sectors

  /** After the valid records at most one place is not erased: the one where a
      write was cut short. */
  predicate Tidy(sector: seq<Record>) {
    forall i :: ValidPrefix(sector) < i < |sector| ==> sector[i].Erased?
  }

  lemma TidyLeavesNothing(sector: seq<Record>)
    requires Tidy(sector)
    ensures Beyond(sector) == {}
  {
  }

  /** The device knows exactly what boot would find, and nothing else can surface. */
  ghost predicate Neat(w: World, n: nat) {
    && Safe(w, n) && w.b == Reopen(w.b.sectors) && w.tried == {}
    && Tidy(w.b.sectors[0]) && Tidy(w.b.sectors[1])
  }

  lemma RecoveredIsNeat(sectors: seq<seq<Record>>, n: nat)
    requires |sectors| == 2 && n > 0 && |sectors[0]| == n && |sectors[1]| == n && Tidy(sectors[0]) && Tidy(sectors[1])
    ensures Neat(Recover(sectors), n)
  {
    RecoverIsSafe(sectors, n);
    TidyLeavesNothing(sectors[0]);
    TidyLeavesNothing(sectors[1]);
  }

  /** In a neat world the next record goes right behind the valid ones. */
  lemma PreparedIsTidy(w: World, n: nat)
    requires Neat(w, n)
    ensures var (sector, at) := Prepared(w.b, Target(w.b));
      && |sector| == n && at < n && ScanEndsAt(sector, at) && sector[at].Erased? && ValidPrefix(sector) == at && Tidy(sector)
      && (Visible(sector) == Visible(w.b.sectors[Target(w.b)]) || Visible(sector).None?)
  {
    BlankShowsNothing(n);
  }

  /** One record written there, complete or not, leaves the sector tidy. */
  lemma WrittenIsTidy(sector: seq<Record>, at: nat, left: Record)
    requires at < |sector| && ValidPrefix(sector) == at && Tidy(sector) && ScanEndsAt(sector, at)
    ensures var after := sector[at := left];
      && Tidy(after) && ValidPrefix(after) == (if left.Valid? then at + 1 else at)
      && Visible(after) == (if left.Valid? then Some(left.state) else Visible(sector))
  {
    var after := sector[at := left];
    assert forall i :: 0 <= i < |sector| && i != at ==> after[i] == sector[i];
    PrefixIs(after, if left.Valid? then at + 1 else at);
  }

  // -------------------------------------------------------------- steps

  /** Saves that are acknowledged with a newer generation, power cuts at any point,
      and restarts. Nothing is asked about where a save goes. */
  ghost predicate Smooth(w: World, n: nat, e: Event) {
    && Sized(w.b, n)
    && match e
       case Save(s, erase, out) =>
         && Persist(w.b, s, erase, out).1 == Done
         && (w.saved.Some? ==> Newer(s.generation, w.saved.value.generation))
       case PowerCut(s, cut) => cut.CutWrite? ==> Physical(w.b, s, cut.left)
       case Restart => true
  }

  /** A smooth event is permitted: the save goes where boot finds it. */
  lemma SmoothIsPermitted(w: World, n: nat, e: Event)
    requires Neat(w, n) && Smooth(w, n, e)
    ensures Permitted(w, n, e)
  {
    PreparedIsTidy(w, n);
  }

  /** Reopening a tidy sector after a complete record goes on right behind it. */
  lemma NextIsBehind(sector: seq<Record>, at: nat, s: StorageState)
    requires at < |sector| && ValidPrefix(sector) == at && Tidy(sector) && ScanEndsAt(sector, at)
    ensures NextRecord(sector[at := Valid(s)]) == at + 1
  {
    WrittenIsTidy(sector, at, Valid(s));
    assert at + 1 < |sector| ==> sector[at := Valid(s)][at + 1] == sector[at + 1];
  }

  lemma ReopensAsIs(w: World, n: nat, s: StorageState, erase: EraseOutcome, out: WriteOutcome)
    requires Neat(w, n) && Persist(w.b, s, erase, out).1 == Done
    ensures var b' := Persist(w.b, s, erase, out).0;
      b' == Reopen(b'.sectors) && Tidy(b'.sectors[0]) && Tidy(b'.sectors[1])
  {
    PreparedIsTidy(w, n);
    var t := Target(w.b);
    var b' := Persist(w.b, s, erase, out).0;
    var (sector, at) := Prepared(w.b, t);
    WrittenIsTidy(sector, at, Valid(s));
    NextIsBehind(sector, at, s);
    assert b'.sectors[t] == sector[at := Valid(s)] && b'.sectors[Other(t)] == w.b.sectors[Other(t)];
    assert b'.slots == Reopen(b'.sectors).slots && b'.next == Reopen(b'.sectors).next;
  }

  lemma AcknowledgedIsNeat(w: World, n: nat, s: StorageState, erase: EraseOutcome, out: WriteOutcome)
    requires Neat(w, n) && Smooth(w, n, Save(s, erase, out))
    ensures var w' := Next(w, n, Save(s, erase, out)); Neat(w', n) && w'.saved == Some(s)
  {
    SmoothIsPermitted(w, n, Save(s, erase, out));
    SaveIsSafe(w, n, s, erase, out);
    ReopensAsIs(w, n, s, erase, out);
    var b' := Persist(w.b, s, erase, out).0;
    TidyLeavesNothing(b'.sectors[0]);
    TidyLeavesNothing(b'.sectors[1]);
  }

  /** The target sector is tidy and shows what it showed, nothing, or the new state. */
  lemma TargetIsStrict(w: World, n: nat, s: StorageState, sector: seq<Record>)
    requires Neat(w, n) && |sector| == n && Tidy(sector)
    requires Visible(sector) == Visible(w.b.sectors[Target(w.b)]) || Visible(sector).None? || Visible(sector) == Some(s)
    ensures var w' := Recover(w.b.sectors[Target(w.b) := sector]); Neat(w', n) && (w'.saved == w.saved || w'.saved == Some(s))
  {
    RecoveredIsNeat(w.b.sectors[Target(w.b) := sector], n);
  }

  /** A power cut anywhere inside a save leaves boot with the acknowledged state or
      the one in flight. */
  lemma CutIsStrict(w: World, n: nat, s: StorageState, cut: Cut)
    requires Neat(w, n) && Smooth(w, n, PowerCut(s, cut))
    ensures var w' := Next(w, n, PowerCut(s, cut)); Neat(w', n) && (w'.saved == w.saved || w'.saved == Some(s))
  {
    var t := Target(w.b);
    var (sector, at) := Prepared(w.b, t);
    PreparedIsTidy(w, n);
    match cut {
      case CutErase(erased) =>
        assert w.b.sectors[t := w.b.sectors[t]] == w.b.sectors;
        TargetIsStrict(w, n, s, AfterCut(w.b, cut)[t]);
      case CutWrite(left) =>
        WrittenIsTidy(sector, at, left);
        TargetIsStrict(w, n, s, sector[at := left]);
    }
  }

  lemma RestartIsStrict(w: World, n: nat)
    requires Neat(w, n)
    ensures Next(w, n, Restart) == w
  {
    TidyLeavesNothing(w.b.sectors[0]);
    TidyLeavesNothing(w.b.sectors[1]);
  }

  // --------------------------------------------------------------- runs

  ghost predicate SmoothRun(w: World, n: nat, events: seq<Event>)
    decreases |events|
  {
    events == [] || (Smooth(w, n, events[0]) && SmoothRun(Next(w, n, events[0]), n, events[1..]))
  }

  ghost function RunSmooth(w: World, n: nat, events: seq<Event>): World
    requires SmoothRun(w, n, events)
    decreases |events|
  {
    if events == [] then w else RunSmooth(Next(w, n, events[0]), n, events[1..])
  }

  /** What may be restored, told by the events alone: the last save, or one that
      was in flight in a power cut since. */
  function Restorable(start: Option<StorageState>, events: seq<Event>): set<Option<StorageState>> {
    if events == [] then {start}
    else
      var before := Restorable(start, events[..|events| - 1]);
      match events[|events| - 1]
      case Save(s, _, _) => {Some(s)}
      case PowerCut(s, _) => before + {Some(s)}
      case Restart => before
  }

  /** The same, from the front: the first event narrows or widens what was known. */
  lemma {:induction false} RestorableFront(start: Option<StorageState>, next: Option<StorageState>, e: Event, rest: seq<Event>)
    requires next in Restorable(start, [e])
    ensures Restorable(next, rest) <= Restorable(start, [e] + rest)
    decreases |rest|
  {
    var all := [e] + rest;
    if rest == [] {
      assert all == [e];
    } else {
      var n := |rest| - 1;
      assert all[..|all| - 1] == [e] + rest[..n] && all[|all| - 1] == rest[n];
      RestorableFront(start, next, e, rest[..n]);
    }
  }

  /** Crash atomicity, strictly: over every run of acknowledged newer saves, power
      cuts and restarts the device's state is what boot would find, and it is the
      last acknowledged state or one in flight in a cut since. */
  lemma {:induction false} StrictAtomicity(w: World, n: nat, events: seq<Event>)
    requires Neat(w, n) && SmoothRun(w, n, events)
    ensures var w' := RunSmooth(w, n, events);
      && Neat(w', n) && Current(Reopen(w'.b.sectors)) == w'.saved && Current(w'.b) == w'.saved
      && w'.saved in Restorable(w.saved, events)
    decreases |events|
  {
    if events != [] {
      var e, rest := events[0], events[1..];
      var w1 := Next(w, n, e);
      match e {
        case Save(s, erase, out) => AcknowledgedIsNeat(w, n, s, erase, out);
        case PowerCut(s, cut) => CutIsStrict(w, n, s, cut);
        case Restart => RestartIsStrict(w, n);
      }
      FirstRestorable(w.saved, w1.saved, e);
      StrictAtomicity(w1, n, rest);
      RestorableFront(w.saved, w1.saved, e, rest);
      assert events == [e] + rest;
    }
  }

  lemma FirstRestorable(start: Option<StorageState>, next: Option<StorageState>, e: Event)
    requires match e
             case Save(s, _, _) => next == Some(s)
             case PowerCut(s, _) => next == start || next == Some(s)
             case Restart => next == start
    ensures next in Restorable(start, [e])
  {
    assert [e][..0] == [];
    assert Restorable(start, [e][..0]) == {start};
  }

  /** From a blank flash: nothing to restore at first, then strictly as above; and
      power lost in one more save leaves the saved state or the one in flight. */
  lemma BlankRunIsStrict(n: nat, events: seq<Event>, s: StorageState, cut: Cut)
    requires n > 0 && SmoothRun(Recover([Blank(n), Blank(n)]), n, events)
    ensures var w := RunSmooth(Recover([Blank(n), Blank(n)]), n, events);
      && Neat(w, n) && w.saved in Restorable(None, events) && Current(Reopen(w.b.sectors)) == w.saved
      && (Smooth(w, n, PowerCut(s, cut)) ==>
            var found := Current(Reopen(AfterCut(w.b, cut))); found == w.saved || found == Some(s))
  {
    BlankShowsNothing(n);
    BlankIsSafe(n);
    RecoveredIsNeat([Blank(n), Blank(n)], n);
    var start := Recover([Blank(n), Blank(n)]);
    StrictAtomicity(start, n, events);
    var w := RunSmooth(start, n, events);
    if Smooth(w, n, PowerCut(s, cut)) {
      CutIsStrict(w, n, s, cut);
    }
  }

  // ------------------------------------------------------ numbered saves

  /** A save that succeeds at once. */
  function Saving(s: StorageState): Event {
    Save(s, Erases, WriteOutcome(Fine, Valid(s)))
  }

  function SavesOf(states: seq<StorageState>): seq<Event> {
    if states == [] then [] else [Saving(states[0])] + SavesOf(states[1..])
  }

  /** Each state has a later number than the one before it. */
  ghost predicate Rising(states: seq<StorageState>) {
    forall i :: 0 < i < |states| ==> ComesAfter(states[i].generation, states[i - 1].generation)
  }

  lemma {:induction false} RisingFrom(w: World, n: nat, states: seq<StorageState>)
    requires Neat(w, n) && Rising(states)
    requires w.saved.Some? && states != [] ==> ComesAfter(states[0].generation, w.saved.value.generation)
    ensures SmoothRun(w, n, SavesOf(states))
    ensures RunSmooth(w, n, SavesOf(states)).saved == if states == [] then w.saved else Some(states[|states| - 1])
    decreases |states|
  {
    if states != [] {
      var s, rest := states[0], states[1..];
      if w.saved.Some? {
        NewerIsLater(s.generation, w.saved.value.generation);
      }
      assert Smooth(w, n, Saving(s));
      AcknowledgedIsNeat(w, n, s, Erases, WriteOutcome(Fine, Valid(s)));
      assert forall i :: 0 <= i < |rest| ==> rest[i] == states[i + 1];
      RisingFrom(Next(w, n, Saving(s)), n, rest);
      assert SavesOf(states)[1..] == SavesOf(rest);
    }
  }

  /** From a blank flash, of saves whose numbers rise, by one or more and past the
      wrap, boot finds the last. */
  lemma {:induction false} LastRisingIsFound(n: nat, states: seq<StorageState>)
    requires n > 0 && states != [] && Rising(states)
    ensures var start := Recover([Blank(n), Blank(n)]);
      && SmoothRun(start, n, SavesOf(states))
      && var w := RunSmooth(start, n, SavesOf(states));
         Sized(w.b, n) && Current(Reopen(w.b.sectors)) == Some(states[|states| - 1])
  {
    BlankShowsNothing(n);
    BlankIsSafe(n);
    RecoveredIsNeat([Blank(n), Blank(n)], n);
    var start := Recover([Blank(n), Blank(n)]);
    RisingFrom(start, n, states);
    StrictAtomicity(start, n, SavesOf(states));
  }

  /** In particular of saves numbered g, g + 1, g + 2 and so on. */
  lemma {:induction false} LastNumberedIsFound(n: nat, states: seq<StorageState>, g: U32)
    requires n > 0 && states != [] && forall i :: 0 <= i < |states| ==> states[i].generation == Advanced(g, i)
    ensures var start := Recover([Blank(n), Blank(n)]);
      && SmoothRun(start, n, SavesOf(states))
      && var w := RunSmooth(start, n, SavesOf(states));
         Sized(w.b, n) && Current(Reopen(w.b.sectors)) == Some(states[|states| - 1])
  {
    forall i | 0 < i < |states| ensures ComesAfter(states[i].generation, states[i - 1].generation) {
      assert states[i].generation == Advanced(states[i - 1].generation, 1);
    }
    LastRisingIsFound(n, states);
  }

  /** The same in runs with power cuts and restarts: each save has a later number
      than the state that the device has. */
  ghost predicate Counts(w: World, n: nat, e: Event) {
    && Sized(w.b, n)
    && match e
       case Save(s, erase, out) =>
         && Persist(w.b, s, erase, out).1 == Done
         && (w.saved.Some? ==> ComesAfter(s.generation, w.saved.value.generation))
       case PowerCut(s, cut) => cut.CutWrite? ==> Physical(w.b, s, cut.left)
       case Restart => true
  }

  ghost predicate CountedRun(w: World, n: nat, events: seq<Event>)
    decreases |events|
  {
    events == [] || (Counts(w, n, events[0]) && CountedRun(Next(w, n, events[0]), n, events[1..]))
  }

  /** So strict crash atomicity holds of every run that counts its saves. */
  lemma {:induction false} CountedIsSmooth(w: World, n: nat, events: seq<Event>)
    requires CountedRun(w, n, events)
    ensures SmoothRun(w, n, events)
    decreases |events|
  {
    if events != [] {
      if w.saved.Some? && events[0].Save? {
        NewerIsLater(events[0].s.generation, w.saved.value.generation);
      }
      CountedIsSmooth(Next(w, n, events[0]), n, events[1..]);
    }
  }

  // ------------------------------------------- what a failed write can cost

  // Sectors of four records, as the device has them. The first save goes to sector
  // 0; the second fails once in sector 1 and is acknowledged one place further on.

  function Fails(left: Record): WriteOutcome {
    WriteOutcome(WriteError, left)
  }

  function Succeeds(s: StorageState): WriteOutcome {
    WriteOutcome(Fine, Valid(s))
  }

  function Sector0(s0: StorageState): seq<Record> {
    [Valid(s0), Erased, Erased, Erased]
  }

  function Sector1(s1: StorageState, left: Record): seq<Record> {
    [left, Valid(s1), Erased, Erased]
  }

  function Saved0(s0: StorageState): Backend {
    Backend([Sector0(s0), Blank(4)], [Some(s0), None], [1, 0])
  }

  function Retried(s0: StorageState, s1: StorageState, left: Record): Backend {
    Backend([Sector0(s0), Sector1(s1, left)], [Some(s0), Some(s1)], [1, 2])
  }

  lemma FirstSave(s0: StorageState)
    ensures Persist(Reopen([Blank(4), Blank(4)]), s0, Erases, Succeeds(s0)) == (Saved0(s0), Done)
  {
    BlankShowsNothing(4);
    assert Blank(4)[0 := Valid(s0)] == Sector0(s0);
    var b := Persist(Reopen([Blank(4), Blank(4)]), s0, Erases, Succeeds(s0)).0;
    assert b.sectors == Saved0(s0).sectors && b.slots == Saved0(s0).slots && b.next == Saved0(s0).next;
  }

  /** The attempt that fails and the one that is acknowledged. */
  lemma FailedAndRetried(s0: StorageState, s1: StorageState, left: Record)
    ensures var (b1, r1) := Persist(Saved0(s0), s1, Erases, Fails(left));
      && r1 == Failed(FlashWrite)
      && Persist(b1, s1, Erases, Succeeds(s1)) == (Retried(s0, s1, left), Done)
  {
    var b1 := Persist(Saved0(s0), s1, Erases, Fails(left)).0;
    assert Blank(4)[0 := left] == [left, Erased, Erased, Erased];
    assert b1 == Backend([Sector0(s0), [left, Erased, Erased, Erased]], [Some(s0), None], [1, 1]);
    var b2 := Persist(b1, s1, Erases, Succeeds(s1)).0;
    assert [left, Erased, Erased, Erased][1 := Valid(s1)] == Sector1(s1, left);
    assert b2.sectors == Retried(s0, s1, left).sectors;
    assert b2.slots == Retried(s0, s1, left).slots && b2.next == Retried(s0, s1, left).next;
  }

  /** An attempt to save, on sectors of four records. */
  function Attempt(b: Backend, s: StorageState, out: WriteOutcome): (b': Backend)
    requires Sized(b, 4)
    ensures Sized(b', 4)
  {
    Persist(b, s, Erases, out).0
  }

  predicate Acknowledges(b: Backend, s: StorageState, out: WriteOutcome)
    requires Sized(b, 4)
  {
    Persist(b, s, Erases, out).1 == Done
  }

  function BlankFlash(): (b: Backend)
    ensures Sized(b, 4)
  {
    Reopen([Blank(4), Blank(4)])
  }

  /** The retry is acknowledged, and boot forgets it. */
  lemma RetryAfterFailureIsLost(s0: StorageState, s1: StorageState, left: Record)
    requires Newer(s1.generation, s0.generation) && (left == Bad || left == Erased)
    ensures var b1 := Attempt(BlankFlash(), s0, Succeeds(s0));
      var b2 := Attempt(b1, s1, Fails(left));
      var b3 := Attempt(b2, s1, Succeeds(s1));
      && Acknowledges(BlankFlash(), s0, Succeeds(s0)) && !Acknowledges(b1, s1, Fails(left)) && Acknowledges(b2, s1, Succeeds(s1))
      && Current(b3) == Some(s1) && Current(Reopen(b3.sectors)) == Some(s0)
  {
    FirstSave(s0);
    FailedAndRetried(s0, s1, left);
    NewerIsOneWay(s1.generation, s0.generation);
    PrefixIs(Sector0(s0), 1);
    PrefixIs(Sector1(s1, left), 0);
  }

  function Spoilt(s0: StorageState, s1: StorageState, left: Record, k: nat): Backend
    requires k <= 3
  {
    var sector := if k == 0 then Sector0(s0)
                  else if k == 1 then [Valid(s0), Bad, Erased, Erased]
                  else if k == 2 then [Valid(s0), Bad, Bad, Erased]
                  else [Valid(s0), Bad, Bad, Bad];
    Backend([sector, Sector1(s1, left)], [Some(s0), Some(s1)], [1 + k, 2])
  }

  lemma OneMoreSpoilt(s0: StorageState, s1: StorageState, s2: StorageState, left: Record, k: nat)
    requires k < 3 && Newer(s1.generation, s0.generation)
    ensures Persist(Spoilt(s0, s1, left, k), s2, Erases, Fails(Bad)) == (Spoilt(s0, s1, left, k + 1), Failed(FlashWrite))
  {
    NewerIsOneWay(s1.generation, s0.generation);
    var b := Spoilt(s0, s1, left, k);
    assert Target(b) == 0;
    assert b.sectors[0][1 + k := Bad] == Spoilt(s0, s1, left, k + 1).sectors[0];
    var b' := Persist(b, s2, Erases, Fails(Bad)).0;
    assert b'.sectors == Spoilt(s0, s1, left, k + 1).sectors && b'.next == Spoilt(s0, s1, left, k + 1).next;
  }

  /** And worse: while the retried save is invisible, attempts at the next one fill
      up the other sector; power lost in the erase that follows loses everything. */
  lemma RetryCanLoseEverything(s0: StorageState, s1: StorageState, s2: StorageState, left: Record)
    requires Newer(s1.generation, s0.generation) && (left == Bad || left == Erased)
    ensures var b1 := Attempt(BlankFlash(), s0, Succeeds(s0));
      var b2 := Attempt(b1, s1, Fails(left));
      var b3 := Attempt(b2, s1, Succeeds(s1));
      var b6 := Attempt(Attempt(Attempt(b3, s2, Fails(Bad)), s2, Fails(Bad)), s2, Fails(Bad));
      && Acknowledges(BlankFlash(), s0, Succeeds(s0)) && Acknowledges(b2, s1, Succeeds(s1))
      && Current(b6) == Some(s1) && Current(Reopen(AfterCut(b6, CutErase(true)))).None?
  {
    FirstSave(s0);
    FailedAndRetried(s0, s1, left);
    assert Retried(s0, s1, left) == Spoilt(s0, s1, left, 0);
    OneMoreSpoilt(s0, s1, s2, left, 0);
    OneMoreSpoilt(s0, s1, s2, left, 1);
    OneMoreSpoilt(s0, s1, s2, left, 2);
    AllGone(s0, s1, left);
  }

  lemma AllGone(s0: StorageState, s1: StorageState, left: Record)
    requires Newer(s1.generation, s0.generation) && (left == Bad || left == Erased)
    ensures var b := Spoilt(s0, s1, left, 3);
      Current(b) == Some(s1) && Current(Reopen(AfterCut(b, CutErase(true)))).None?
  {
    var b := Spoilt(s0, s1, left, 3);
    NewerIsOneWay(s1.generation, s0.generation);
    assert Target(b) == 0;
    assert AfterCut(b, CutErase(true)) == [Blank(4), Sector1(s1, left)];
    BlankShowsNothing(4);
    PrefixIs(Sector1(s1, left), 0);
  }
}
