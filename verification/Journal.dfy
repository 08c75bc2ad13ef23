/** The two-sector flash journal.

  A sector is a row of equal records, each erased, valid or bad. New records are
  appended to the sector that does not hold the newest state; a full sector is
  erased first. At boot each sector is scanned up to its first record that is
  not valid. What the flash does to the record being written, when a write
  fails or power is lost, is chosen by the environment.
 */
module Journal {
  import opened Options
  import opened Bits
  import opened InputProfiles
  import opened StorageImage

  datatype Record = Erased | Valid(state: StorageState) | Bad

  /** A sector number, 0 or 1. */
  type Slot = i: int | 0 <= i < 2

  function Other(i: Slot): Slot {
    1 - i
  }

  datatype Backend = Backend(sectors: seq<seq<Record>>, slots: seq<Option<StorageState>>, next: seq<nat>)

  /** Two sectors of `n` records. */
  predicate Sized(b: Backend, n: nat) {
    && |b.sectors| == 2 && |b.slots| == 2 && |b.next| == 2
    && n > 0 && |b.sectors[0]| == n && |b.sectors[1]| == n
  }

  datatype JournalError = FlashErase | FlashWrite | FlashRead | FlashVerify

  datatype Written = Done | Failed(error: JournalError)

  // ------------------------------------------------------------ generations

  /** Serial numbers as in section 3.2 of RFC 1982, on 32 bits. */
  predicate NewerOrEqual(left: U32, right: U32) {
    (left - right) % 0x1_0000_0000 < 0x8000_0000
  }

  predicate Newer(left: U32, right: U32) {
    left != right && NewerOrEqual(left, right)
  }

  lemma NewerIsOneWay(left: U32, right: U32)
    requires Newer(left, right)
    ensures !NewerOrEqual(right, left)
  {
  }

  /** The number that comes `d` after `g`, on 32 bits. */
  function Advanced(g: U32, d: nat): U32 {
    (g + d) % 0x1_0000_0000
  }

  /** `later` is reached from `g` in less than half the circle. */
  ghost predicate ComesAfter(later: U32, g: U32) {
    exists d :: 0 < d < 0x8000_0000 && later == Advanced(g, d)
  }

  /** The order follows the count. */
  lemma NewerIsLater(left: U32, right: U32)
    ensures Newer(left, right) <==> ComesAfter(left, right)
    ensures NewerOrEqual(left, right) <==> left == right || ComesAfter(left, right)
  {
    var d := (left - right) % 0x1_0000_0000;
    assert left == Advanced(right, d);
    forall e | 0 < e < 0x8000_0000 && left == Advanced(right, e) ensures Newer(left, right) {
      AdvancedIsNewer(right, e);
    }
  }

  lemma AdvancedIsNewer(g: U32, d: nat)
    requires 0 < d < 0x8000_0000
    ensures Newer(Advanced(g, d), g) && !NewerOrEqual(g, Advanced(g, d))
  {
  }

  // ---------------------------------------------------------------- boot

  /** How many records the boot scan accepts. */
  function ValidPrefix(sector: seq<Record>): (k: nat)
    ensures k <= |sector|
    ensures forall i :: 0 <= i < k ==> sector[i].Valid?
    ensures k < |sector| ==> !sector[k].Valid?
  {
    if sector == [] || !sector[0].Valid? then 0
    else
      var k := 1 + ValidPrefix(sector[1..]);
      assert forall i :: 1 <= i < k ==> sector[i] == sector[1..][i - 1];
      assert k < |sector| ==> sector[k] == sector[1..][k - 1];
      k
  }

  /** The state that a sector shows after boot. */
  function Visible(sector: seq<Record>): Option<StorageState> {
    var k := ValidPrefix(sector);
    if k == 0 then None else Some(sector[k - 1].state)
  }

  function NextRecord(sector: seq<Record>): nat {
    var k := ValidPrefix(sector);
    if k < |sector| && sector[k].Erased? then k else |sector|
  }

  method ScanFlashSlot(sector: seq<Record>) returns (latest: Option<StorageState>, next: nat)
    ensures latest == Visible(sector) && next == NextRecord(sector)
  {
    latest, next := None, 0;
    var i := 0;
    while i < |sector|
      invariant 0 <= i <= |sector| && next == i
      invariant forall j :: 0 <= j < i ==> sector[j].Valid?
      invariant latest == if i == 0 then None else Some(sector[i - 1].state)
      invariant i <= ValidPrefix(sector)
    {
      if sector[i].Erased? {
        return latest, i;
      }
      if sector[i].Valid? {
        latest, next := Some(sector[i].state), i + 1;
      } else {
        return latest, |sector|;
      }
      i := i + 1;
    }
  }

  function Reopen(sectors: seq<seq<Record>>): Backend
    requires |sectors| == 2
  {
    Backend(sectors, [Visible(sectors[0]), Visible(sectors[1])], [NextRecord(sectors[0]), NextRecord(sectors[1])])
  }

  // ----------------------------------------------------------- selection

  /** The slot with the newest state; equal generations prefer the first. */
  function Newest(a: Option<StorageState>, b: Option<StorageState>): Option<Slot> {
    if a.Some? && b.Some? then
      if NewerOrEqual(a.value.generation, b.value.generation) then Some(0) else Some(1)
    else if a.Some? then Some(0)
    else if b.Some? then Some(1)
    else None
  }

  /** Of two states, the one with the later number is selected, whichever slot it
      is in. */
  lemma LaterIsSelected(older: StorageState, later: StorageState)
    requires ComesAfter(later.generation, older.generation)
    ensures Newest(Some(older), Some(later)) == Some(1) && Newest(Some(later), Some(older)) == Some(0)
    ensures Latest(Some(older), Some(later)) == Some(later) == Latest(Some(later), Some(older))
  {
    NewerIsLater(later.generation, older.generation);
    NewerIsOneWay(later.generation, older.generation);
  }

  function Latest(a: Option<StorageState>, b: Option<StorageState>): Option<StorageState> {
    var s := Newest(a, b);
    if s.None? then None else if s.value == 0 then a else b
  }

  function Current(b: Backend): Option<StorageState>
    requires |b.slots| == 2
  {
    Latest(b.slots[0], b.slots[1])
  }

  function Target(b: Backend): Slot
    requires |b.slots| == 2
  {
    var s := Newest(b.slots[0], b.slots[1]);
    if s.Some? then Other(s.value) else 0
  }

  // ------------------------------------------------------------- writing

  /** What the flash answers to an erase: done, or an error with the sector
      erased or untouched. */
  datatype EraseOutcome = Erases | EraseFails(erased: bool)

  datatype Report = Fine | WriteError | ReadError

  /** What the flash answers to a record write and its read-back, and what the
      record then holds. */
  datatype WriteOutcome = WriteOutcome(report: Report, left: Record)

  function Blank(n: nat): (r: seq<Record>)
    ensures |r| == n && forall i :: 0 <= i < n ==> r[i] == Erased
  {
    seq(n, _ => Erased)
  }

  /** The sector a write to `slot` starts from and the record it uses. */
  function Prepared(b: Backend, slot: Slot): (seq<Record>, nat)
    requires |b.sectors| == 2 && |b.next| == 2
  {
    var sector := b.sectors[slot];
    if b.next[slot] >= |sector| then (Blank(|sector|), 0) else (sector, b.next[slot])
  }

  function WriteSlot(b: Backend, slot: Slot, s: StorageState, erase: EraseOutcome, out: WriteOutcome): (Backend, Written)
    requires |b.sectors| == 2 && |b.slots| == 2 && |b.next| == 2 && |b.sectors[slot]| > 0
  {
    var full := b.next[slot] >= |b.sectors[slot]|;
    if full && erase.EraseFails? then
      var after := if erase.erased then Blank(|b.sectors[slot]|) else b.sectors[slot];
      (b.(sectors := b.sectors[slot := after]), Failed(FlashErase))
    else
      var (sector, at) := Prepared(b, slot);
      var b' := b.(sectors := b.sectors[slot := sector[at := out.left]], next := b.next[slot := at + 1]);
      if out.report == WriteError then (b', Failed(FlashWrite))
      else if out.report == ReadError then (b', Failed(FlashRead))
      else if out.left != Valid(s) then (b', Failed(FlashVerify))
      else (b'.(slots := b.slots[slot := Some(s)]), Done)
  }

  function Persist(b: Backend, s: StorageState, erase: EraseOutcome, out: WriteOutcome): (Backend, Written)
    requires |b.sectors| == 2 && |b.slots| == 2 && |b.next| == 2 && |b.sectors[0]| > 0 && |b.sectors[1]| > 0
  {
    WriteSlot(b, Target(b), s, erase, out)
  }

  /** The flash driver with its cached slots. */
  class NorFlashBackend {
    var sectors: seq<seq<Record>>
    var slots: seq<Option<StorageState>>
    var next: seq<nat>

    ghost function Value(): Backend
      reads this
    {
      Backend(sectors, slots, next)
    }

    constructor (flash: seq<seq<Record>>)
      requires |flash| == 2
      ensures Value() == Reopen(flash)
    {
      var latest0, next0 := ScanFlashSlot(flash[0]);
      var latest1, next1 := ScanFlashSlot(flash[1]);
      sectors, slots, next := flash, [latest0, latest1], [next0, next1];
    }

    method Write(slot: Slot, s: StorageState, erase: EraseOutcome, out: WriteOutcome) returns (r: Written)
      requires |sectors| == 2 && |slots| == 2 && |next| == 2 && |sectors[slot]| > 0
      modifies this
      ensures (Value(), r) == WriteSlot(old(Value()), slot, s, erase, out)
    {
      var at := next[slot];
      if at >= |sectors[slot]| {
        if erase.EraseFails? {
          if erase.erased {
            sectors := sectors[slot := Blank(|sectors[slot]|)];
          } else {
            assert sectors == sectors[slot := sectors[slot]];
          }
          return Failed(FlashErase);
        }
        sectors := sectors[slot := Blank(|sectors[slot]|)];
        at := 0;
      }
      sectors := sectors[slot := sectors[slot][at := out.left]];
      assert sectors == old(sectors)[slot := sectors[slot]];
      next := next[slot := at + 1];
      if out.report == WriteError {
        return Failed(FlashWrite);
      }
      if out.report == ReadError {
        return Failed(FlashRead);
      }
      if out.left != Valid(s) {
        return Failed(FlashVerify);
      }
      slots := slots[slot := Some(s)];
      r := Done;
    }

    method PersistState(s: StorageState, erase: EraseOutcome, out: WriteOutcome) returns (r: Written)
      requires |sectors| == 2 && |slots| == 2 && |next| == 2 && |sectors[0]| > 0 && |sectors[1]| > 0
      modifies this
      ensures (Value(), r) == Persist(old(Value()), s, erase, out)
    {
      var target: Slot := 0;
      if slots[0].Some? && (slots[1].None? || NewerOrEqual(slots[0].value.generation, slots[1].value.generation)) {
        target := 1;
      }
      r := Write(target, s, erase, out);
    }
  }
}
