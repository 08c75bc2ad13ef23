/** Crash atomicity of the flash journal, and exactly when an acknowledged
    record is the one that boot finds. */
module JournalSafety {
  import opened Options
  import opened Bits
  import opened InputProfiles
  import opened StorageImage
  import opened Journal

  // ------------------------------------- one acknowledged write, any journal

  /** No record before `at` stops the boot scan, and none after it extends it. */
  predicate ScanEndsAt(sector: seq<Record>, at: nat)
    requires at < |sector|
  {
    && (forall i :: 0 <= i < at ==> sector[i].Valid?)
    && (at + 1 < |sector| ==> !sector[at + 1].Valid?)
  }

  /** The state is newer than every valid record of the sectors. */
  ghost predicate NewerThanAll(sectors: seq<seq<Record>>, s: StorageState) {
    forall x, i :: 0 <= x < |sectors| && 0 <= i < |sectors[x]| && sectors[x][i].Valid? ==>
      Newer(s.generation, sectors[x][i].state.generation)
  }

  /** Boot restores an acknowledged save exactly when every record before it is
      valid and the one after it is not. */
  lemma AcknowledgedIsRestoredIff(b: Backend, n: nat, s: StorageState, erase: EraseOutcome, out: WriteOutcome)
    requires Sized(b, n) && Persist(b, s, erase, out).1 == Done && NewerThanAll(b.sectors, s)
    ensures var (sector, at) := Prepared(b, Target(b));
      Current(Reopen(Persist(b, s, erase, out).0.sectors)) == Some(s) <==> ScanEndsAt(sector, at)
  {
    var t := Target(b);
    var sectors := Persist(b, s, erase, out).0.sectors;
    var (sector, at) := Prepared(b, t);
    assert sectors[t] == sector[at := Valid(s)] && sectors[Other(t)] == b.sectors[Other(t)];
    OtherIsOlder(b.sectors, Other(t), s);
    if ScanEndsAt(sector, at) {
      EndsExactly(sector, at, s);
      if Visible(sectors[Other(t)]).Some? {
        NewerIsOneWay(s.generation, Visible(sectors[Other(t)]).value.generation);
      }
    } else {
      MissedIsOlder(b, n, t, s);
    }
  }

  lemma EndsExactly(sector: seq<Record>, at: nat, s: StorageState)
    requires at < |sector|
    ensures ValidPrefix(sector[at := Valid(s)]) == at + 1 <==> ScanEndsAt(sector, at)
  {
    var after := sector[at := Valid(s)];
    assert forall i :: 0 <= i < |sector| && i != at ==> after[i] == sector[i];
    if ScanEndsAt(sector, at) {
      PrefixIs(after, at + 1);
    }
  }

  lemma OtherIsOlder(sectors: seq<seq<Record>>, x: Slot, s: StorageState)
    requires |sectors| == 2 && NewerThanAll(sectors, s)
    ensures Visible(sectors[x]).Some? ==> Newer(s.generation, Visible(sectors[x]).value.generation)
  {
  }

  /** A record that the scan does not end at leaves an older one visible, or none. */
  lemma MissedIsOlder(b: Backend, n: nat, t: Slot, s: StorageState)
    requires Sized(b, n) && NewerThanAll(b.sectors, s)
    requires var (sector, at) := Prepared(b, t); !ScanEndsAt(sector, at)
    ensures var (sector, at) := Prepared(b, t);
      var v := Visible(sector[at := Valid(s)]); v.Some? ==> Newer(s.generation, v.value.generation)
  {
    var (sector, at) := Prepared(b, t);
    var after := sector[at := Valid(s)];
    var k := ValidPrefix(after);
    EndsExactly(sector, at, s);
    if k > 0 {
      assert after[k - 1] == sector[k - 1];
      assert sector == b.sectors[t];
    }
  }

  lemma {:induction false} PrefixIs(sector: seq<Record>, k: nat)
    requires k <= |sector| && (forall i :: 0 <= i < k ==> sector[i].Valid?) && (k < |sector| ==> !sector[k].Valid?)
    ensures ValidPrefix(sector) == k
  {
    if k > 0 {
      PrefixIs(sector[1..], k - 1);
    }
  }

  /** A save that fails while the device keeps running leaves the current state
      and the sector that holds it alone. */
  lemma FailedSaveKeepsNewest(b: Backend, n: nat, s: StorageState, erase: EraseOutcome, out: WriteOutcome)
    requires Sized(b, n) && Persist(b, s, erase, out).1 != Done
    ensures var b' := Persist(b, s, erase, out).0;
      && Sized(b', n) && b'.slots == b.slots && Current(b') == Current(b)
      && forall x: Slot :: Newest(b.slots[0], b.slots[1]) == Some(x) ==> b'.sectors[x] == b.sectors[x]
  {
  }

  // -------------------------------------------------------------- crashes

  /** Where power is lost inside a save. An erase is all or nothing. */
  datatype Cut = CutErase(erased: bool) | CutWrite(left: Record)

  function AfterCut(b: Backend, cut: Cut): seq<seq<Record>>
    requires |b.sectors| == 2 && |b.slots| == 2 && |b.next| == 2 && |b.sectors[0]| > 0 && |b.sectors[1]| > 0
  {
    var slot := Target(b);
    var (sector, at) := Prepared(b, slot);
    match cut
    case CutErase(erased) => if erased then b.sectors[slot := sector] else b.sectors
    case CutWrite(left) => b.sectors[slot := sector[at := left]]
  }

  /** Hypothesis on the medium: a record under write stays as it was, becomes
      undecodable, or is complete. */
  predicate Physical(b: Backend, s: StorageState, left: Record)
    requires |b.sectors| == 2 && |b.slots| == 2 && |b.next| == 2 && |b.sectors[0]| > 0 && |b.sectors[1]| > 0
  {
    var (sector, at) := Prepared(b, Target(b));
    left == sector[at] || left == Bad || left == Valid(s)
  }

  datatype Event =
    | Save(s: StorageState, erase: EraseOutcome, out: WriteOutcome)
    | PowerCut(s: StorageState, cut: Cut)
    | Restart

  /** Complete records behind a hole: boot does not see them, but a later record
      that fills the hole can bring them back. */
  ghost function Beyond(sector: seq<Record>): set<StorageState> {
    set i | ValidPrefix(sector) < i < |sector| && sector[i].Valid? :: sector[i].state
  }

  ghost function LeftBehind(sectors: seq<seq<Record>>): set<StorageState>
    requires |sectors| == 2
  {
    Beyond(sectors[0]) + Beyond(sectors[1])
  }

  /** The journal together with what its users know: the state last acknowledged
      or recovered; and the states whose saving was tried since, with those that
      earlier failures left behind a hole. */
  datatype World = World(b: Backend, saved: Option<StorageState>, tried: set<StorageState>)

  /** A save may be acknowledged only where boot will find it, and with a newer
      generation. Attempts that fail and power cuts may come at any time. */
  ghost predicate Permitted(w: World, n: nat, e: Event) {
    && Sized(w.b, n)
    && (e.Save? && Persist(w.b, e.s, e.erase, e.out).1 == Done ==>
          && (Current(w.b).Some? ==> Newer(e.s.generation, Current(w.b).value.generation))
          && var (sector, at) := Prepared(w.b, Target(w.b)); ScanEndsAt(sector, at))
    && (e.Save? ==> Physical(w.b, e.s, e.out.left))
    && (e.PowerCut? && e.cut.CutWrite? ==> Physical(w.b, e.s, e.cut.left))
  }

  ghost function Recover(sectors: seq<seq<Record>>): World
    requires |sectors| == 2
  {
    var b := Reopen(sectors);
    World(b, Current(b), LeftBehind(sectors))
  }

  ghost function Next(w: World, n: nat, e: Event): World
    requires Sized(w.b, n)
  {
    match e
    case Save(s, erase, out) =>
      var (b', r) := Persist(w.b, s, erase, out);
      if r == Done then World(b', Some(s), LeftBehind(b'.sectors)) else World(b', w.saved, w.tried + {s})
    case PowerCut(s, cut) => Recover(AfterCut(w.b, cut))
    case Restart => Recover(w.b.sectors)
  }

  // ------------------------------------------------------------- invariant

  /** What boot can come to see of the target sector, from its next free place on,
      was tried. */
  ghost predicate Tracked(sector: seq<Record>, next: nat, tried: set<StorageState>) {
    && Beyond(sector) <= tried
    && (next < ValidPrefix(sector) ==>
          next > 0 && forall i :: next - 1 <= i < ValidPrefix(sector) ==> sector[i].state in tried)
  }

  /** What boot would find. */
  function Found(sectors: seq<seq<Record>>): Option<StorageState>
    requires |sectors| == 2
  {
    Latest(Visible(sectors[0]), Visible(sectors[1]))
  }

  /** The saved state is visible in the sector that the next save spares, and the
      other one shows nothing that could win but what was tried. */
  ghost predicate Holds(sectors: seq<seq<Record>>, target: Slot, saved: Option<StorageState>, tried: set<StorageState>)
    requires |sectors| == 2
  {
    && Visible(sectors[Other(target)]) == saved
    && (|| Visible(sectors[target]).None?
        || Visible(sectors[target]).value in tried
        || Found(sectors) == saved)
  }

  ghost predicate Safe(w: World, n: nat) {
    && Sized(w.b, n) && Current(w.b) == w.saved
    && var t := Target(w.b);
       && Holds(w.b.sectors, t, w.saved, w.tried)
       && Tracked(w.b.sectors[t], w.b.next[t], w.tried)
       && Beyond(w.b.sectors[Other(t)]) <= w.tried
       && w.b.next[Other(t)] >= ValidPrefix(w.b.sectors[Other(t)])
  }

  lemma HeldIsFound(sectors: seq<seq<Record>>, target: Slot, saved: Option<StorageState>, tried: set<StorageState>)
    requires |sectors| == 2 && Holds(sectors, target, saved, tried)
    ensures var found := Current(Reopen(sectors)); found == saved || (found.Some? && found.value in tried)
  {
  }

  /** Whatever boot finds in flash is a place to go on from. */
  lemma RecoverIsSafe(sectors: seq<seq<Record>>, n: nat)
    requires |sectors| == 2 && n > 0 && |sectors[0]| == n && |sectors[1]| == n
    ensures Safe(Recover(sectors), n)
  {
  }

  /** One record written to the target sector: boot sees the same as before, or
      something that was tried. */
  lemma WrittenTracks(sector: seq<Record>, at: nat, left: Record, s: StorageState, tried: set<StorageState>)
    requires at < |sector| && Tracked(sector, at, tried) && (left == sector[at] || left == Bad || left == Valid(s))
    ensures var after := sector[at := left];
      && Tracked(after, at + 1, tried + {s})
      && (|| Visible(after) == Visible(sector) || (Visible(after).Some? && Visible(after).value in tried + {s}))
  {
    var after := sector[at := left];
    var k := ValidPrefix(sector);
    assert forall i :: 0 <= i < |sector| && i != at ==> after[i] == sector[i];
    if k < at {
      PrefixIs(after, k);
    } else if !left.Valid? {
      PrefixIs(after, at);
    } else if at < k {
      PrefixIs(after, k);
    }
    BeyondTracked(sector, at, left, s, tried);
  }

  lemma BeyondTracked(sector: seq<Record>, at: nat, left: Record, s: StorageState, tried: set<StorageState>)
    requires at < |sector| && Tracked(sector, at, tried) && (left == sector[at] || left == Bad || left == Valid(s))
    ensures Beyond(sector[at := left]) <= tried + {s}
  {
    var after := sector[at := left];
    var k := ValidPrefix(sector);
    var k' := ValidPrefix(after);
    forall i | k' < i < |after| && after[i].Valid? ensures after[i].state in tried + {s} {
      assert i != at ==> after[i] == sector[i];
      assert k' != at ==> after[k'] == sector[k'];
      assert k < i && sector[i].Valid? ==> sector[i].state in Beyond(sector);
      assert i < k ==> at <= k';
    }
  }

  // ------------------------------------------------------------------ steps

  lemma BlankShowsNothing(n: nat)
    ensures ValidPrefix(Blank(n)) == 0 && Visible(Blank(n)).None? && Beyond(Blank(n)) == {}
  {
  }

  /** The place where the target sector is written is tracked, erased or not. */
  lemma PreparedTracks(w: World, n: nat)
    requires Safe(w, n)
    ensures var (sector, at) := Prepared(w.b, Target(w.b));
      && |sector| == n && at < n && Tracked(sector, at, w.tried)
      && (Visible(sector).None? || sector == w.b.sectors[Target(w.b)])
  {
    BlankShowsNothing(n);
  }

  /** The target sector changes so that boot sees the same there, nothing, or
      something tried; the saved state stays held. */
  lemma TargetChanges(w: World, n: nat, s: StorageState, sector: seq<Record>)
    requires Safe(w, n)
    requires || Visible(sector) == Visible(w.b.sectors[Target(w.b)]) || Visible(sector).None?
             || Visible(sector).value in w.tried + {s}
    ensures Holds(w.b.sectors[Target(w.b) := sector], Target(w.b), w.saved, w.tried + {s})
  {
  }

  /** The world after an attempt that was not acknowledged. */
  lemma AttemptIsSafe(w: World, n: nat, s: StorageState, sector: seq<Record>, next: nat)
    requires Safe(w, n) && |sector| == n && Tracked(sector, next, w.tried + {s})
    requires || Visible(sector) == Visible(w.b.sectors[Target(w.b)]) || Visible(sector).None?
             || Visible(sector).value in w.tried + {s}
    ensures var t := Target(w.b);
      Safe(World(w.b.(sectors := w.b.sectors[t := sector], next := w.b.next[t := next]), w.saved, w.tried + {s}), n)
  {
    TargetChanges(w, n, s, sector);
  }

  lemma FailedEraseIsSafe(w: World, n: nat, s: StorageState, erase: EraseOutcome, out: WriteOutcome)
    requires Safe(w, n) && Persist(w.b, s, erase, out).1 == Failed(FlashErase)
    ensures Safe(World(Persist(w.b, s, erase, out).0, w.saved, w.tried + {s}), n)
  {
    var t := Target(w.b);
    var b' := Persist(w.b, s, erase, out).0;
    BlankShowsNothing(n);
    assert w.b.next == w.b.next[t := w.b.next[t]];
    AttemptIsSafe(w, n, s, b'.sectors[t], w.b.next[t]);
    assert b' == w.b.(sectors := w.b.sectors[t := b'.sectors[t]], next := w.b.next[t := w.b.next[t]]);
  }

  lemma FailedWriteIsSafe(w: World, n: nat, s: StorageState, erase: EraseOutcome, out: WriteOutcome)
    requires Safe(w, n) && Physical(w.b, s, out.left)
    requires Persist(w.b, s, erase, out).1 != Done && Persist(w.b, s, erase, out).1 != Failed(FlashErase)
    ensures Safe(World(Persist(w.b, s, erase, out).0, w.saved, w.tried + {s}), n)
  {
    var t := Target(w.b);
    var (sector, at) := Prepared(w.b, t);
    PreparedTracks(w, n);
    WrittenTracks(sector, at, out.left, s, w.tried);
    AttemptIsSafe(w, n, s, sector[at := out.left], at + 1);
    assert Persist(w.b, s, erase, out).0
        == w.b.(sectors := w.b.sectors[t := sector[at := out.left]], next := w.b.next[t := at + 1]);
  }

  lemma AcknowledgedSaveIsSafe(w: World, n: nat, s: StorageState, erase: EraseOutcome, out: WriteOutcome)
    requires Safe(w, n) && Permitted(w, n, Save(s, erase, out)) && Persist(w.b, s, erase, out).1 == Done
    ensures Safe(Next(w, n, Save(s, erase, out)), n)
  {
    var t := Target(w.b);
    var b' := Persist(w.b, s, erase, out).0;
    var (sector, at) := Prepared(w.b, t);
    assert b'.sectors == w.b.sectors[t := sector[at := Valid(s)]];
    PrefixIs(b'.sectors[t], at + 1);
    if w.saved.Some? {
      NewerIsOneWay(s.generation, w.saved.value.generation);
    }
    assert Target(b') == Other(t);
    assert Found(b'.sectors) == Some(s);
  }

  lemma SaveIsSafe(w: World, n: nat, s: StorageState, erase: EraseOutcome, out: WriteOutcome)
    requires Safe(w, n) && Permitted(w, n, Save(s, erase, out))
    ensures Safe(Next(w, n, Save(s, erase, out)), n)
  {
    if Persist(w.b, s, erase, out).1 == Done {
      AcknowledgedSaveIsSafe(w, n, s, erase, out);
    } else if Persist(w.b, s, erase, out).1 == Failed(FlashErase) {
      FailedEraseIsSafe(w, n, s, erase, out);
    } else {
      FailedWriteIsSafe(w, n, s, erase, out);
    }
  }

  /** Power lost anywhere inside a save, whatever failed before it. */
  lemma CutIsSafe(w: World, n: nat, s: StorageState, cut: Cut)
    requires Safe(w, n) && Permitted(w, n, PowerCut(s, cut))
    ensures var w' := Next(w, n, PowerCut(s, cut));
      Safe(w', n) && (w'.saved == w.saved || (w'.saved.Some? && w'.saved.value in w.tried + {s}))
  {
    var t := Target(w.b);
    var (sector, at) := Prepared(w.b, t);
    var sectors := AfterCut(w.b, cut);
    PreparedTracks(w, n);
    match cut {
      case CutErase(erased) =>
        assert w.b.sectors[t := w.b.sectors[t]] == w.b.sectors;
        TargetChanges(w, n, s, sectors[t]);
      case CutWrite(left) =>
        WrittenTracks(sector, at, left, s, w.tried);
        TargetChanges(w, n, s, sector[at := left]);
    }
    HeldIsFound(sectors, t, w.saved, w.tried + {s});
    RecoverIsSafe(sectors, n);
  }

  lemma RestartIsSafe(w: World, n: nat)
    requires Safe(w, n)
    ensures var w' := Next(w, n, Restart);
      Safe(w', n) && (w'.saved == w.saved || (w'.saved.Some? && w'.saved.value in w.tried))
  {
    HeldIsFound(w.b.sectors, Target(w.b), w.saved, w.tried);
    RecoverIsSafe(w.b.sectors, n);
  }

  // ------------------------------------------------------------------ runs

  ghost predicate PermittedRun(w: World, n: nat, events: seq<Event>)
    decreases |events|
  {
    events == [] || (Permitted(w, n, events[0]) && PermittedRun(Next(w, n, events[0]), n, events[1..]))
  }

  ghost function Run(w: World, n: nat, events: seq<Event>): World
    requires PermittedRun(w, n, events)
    decreases |events|
  {
    if events == [] then w else Run(Next(w, n, events[0]), n, events[1..])
  }

  /** Crash atomicity: after any run of saves, of failed attempts and retries, of
      power cuts at any point and of restarts, the device's current state is the
      saved one, and boot would find the saved state or one tried since. */
  lemma {:induction false} CrashAtomicity(w: World, n: nat, events: seq<Event>)
    requires Safe(w, n) && PermittedRun(w, n, events)
    ensures var w' := Run(w, n, events);
      && Safe(w', n) && Current(w'.b) == w'.saved
      && var found := Current(Reopen(w'.b.sectors));
         found == w'.saved || (found.Some? && found.value in w'.tried)
    decreases |events|
  {
    if events == [] {
      HeldIsFound(w.b.sectors, Target(w.b), w.saved, w.tried);
    } else {
      match events[0] {
        case Save(s, erase, out) => SaveIsSafe(w, n, s, erase, out);
        case PowerCut(s, cut) => CutIsSafe(w, n, s, cut);
        case Restart => RestartIsSafe(w, n);
      }
      CrashAtomicity(Next(w, n, events[0]), n, events[1..]);
    }
  }

  /** And if power is lost anywhere inside one more save, boot finds the saved
      state, the one in flight, or one tried in between. */
  lemma CutAfterRun(w: World, n: nat, events: seq<Event>, s: StorageState, cut: Cut)
    requires Safe(w, n) && PermittedRun(w, n, events) && Permitted(Run(w, n, events), n, PowerCut(s, cut))
    ensures var w' := Run(w, n, events);
      var found := Current(Reopen(AfterCut(w'.b, cut)));
      found == w'.saved || (found.Some? && found.value in w'.tried + {s})
  {
    CrashAtomicity(w, n, events);
    CutIsSafe(Run(w, n, events), n, s, cut);
  }

  /** A blank flash is a place to start from. */
  lemma BlankIsSafe(n: nat)
    requires n > 0
    ensures Safe(Recover([Blank(n), Blank(n)]), n) && Recover([Blank(n), Blank(n)]).saved.None?
    ensures Recover([Blank(n), Blank(n)]).tried == {}
  {
    BlankShowsNothing(n);
  }
}
