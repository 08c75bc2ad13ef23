/** The per-host accumulator that coalesces mouse movement. */
module MouseAccumulator {
  import opened Options
  import opened MouseScaling

  datatype Report = Report(buttons: nat, x: int, y: int, wheel: int, pan: int)

  predicate Reportable(r: Report) {
    Fits(I16, r.x) && Fits(I16, r.y) && Fits(I8, r.wheel) && Fits(I8, r.pan)
  }

  datatype Pending = Pending(buttons: nat, x: int, y: int, wheel: int, pan: int, pending: bool)

  const NOTHING := Pending(0, 0, 0, 0, 0, false)

  const I32: Axis := Axis(-0x8000_0000, 0x7fff_ffff)

  predicate InI32(p: Pending) {
    Fits(I32, p.x) && Fits(I32, p.y) && Fits(I32, p.wheel) && Fits(I32, p.pan)
  }

  /** Movement is kept only while a report is due. */
  predicate Settled(p: Pending) {
    InI32(p) && (!p.pending ==> p.x == 0 && p.y == 0 && p.wheel == 0 && p.pan == 0)
  }

  /** No axis leaves the 32-bit range. */
  predicate Roomy(p: Pending, r: Report) {
    Fits(I32, p.x + r.x) && Fits(I32, p.y + r.y) && Fits(I32, p.wheel + r.wheel) && Fits(I32, p.pan + r.pan)
  }

  predicate Accepts(p: Pending, r: Report) {
    r.buttons == p.buttons || !p.pending
  }

  function Pushed(p: Pending, r: Report): Pending {
    Pending(r.buttons, Clamp(I32, p.x + r.x), Clamp(I32, p.y + r.y), Clamp(I32, p.wheel + r.wheel),
            Clamp(I32, p.pan + r.pan), true)
  }

  /** The part of each axis that fits one report. */
  function Part(p: Pending): Report {
    Report(p.buttons, Clamp(I16, p.x), Clamp(I16, p.y), Clamp(I8, p.wheel), Clamp(I8, p.pan))
  }

  function Rest(p: Pending): Pending {
    var r := Part(p);
    var x, y, w, h := p.x - r.x, p.y - r.y, p.wheel - r.wheel, p.pan - r.pan;
    Pending(p.buttons, x, y, w, h, x != 0 || y != 0 || w != 0 || h != 0)
  }

  function Abs(v: int): nat {
    if v < 0 then -v else v
  }

  function Load(p: Pending): nat {
    if p.pending then 1 + Abs(p.x) + Abs(p.y) + Abs(p.wheel) + Abs(p.pan) else 0
  }

  lemma AxisShrinks(a: Axis, v: int)
    requires a.lo < 0 < a.hi
    ensures Abs(v - Clamp(a, v)) <= Abs(v)
    ensures v - Clamp(a, v) != 0 ==> Abs(v - Clamp(a, v)) < Abs(v)
  {
  }

  lemma TakingShrinks(p: Pending)
    requires p.pending
    ensures Load(Rest(p)) < Load(p)
  {
    AxisShrinks(I16, p.x);
    AxisShrinks(I16, p.y);
    AxisShrinks(I8, p.wheel);
    AxisShrinks(I8, p.pan);
  }

  /** The reports that empty the accumulator. */
  function Drain(p: Pending): seq<Report>
    decreases Load(p)
  {
    if !p.pending then []
    else
      TakingShrinks(p);
      [Part(p)] + Drain(Rest(p))
  }

  // ----------------------------------------------------------- all hosts

  const HOSTS: nat := 4

  predicate Known(host: int) {
    1 <= host <= HOSTS
  }

  /** One accumulator per host slot, updated in place. */
  class MouseReportAccumulator {
    var hosts: seq<Pending>

    ghost predicate Valid()
      reads this
    {
      |hosts| == HOSTS && forall i :: 0 <= i < HOSTS ==> Settled(hosts[i])
    }

    constructor ()
      ensures Valid() && hosts == seq(HOSTS, _ => NOTHING)
    {
      hosts := seq(HOSTS, _ => NOTHING);
    }

    method Push(host: int, r: Report) returns (accepted: bool)
      requires Valid()
      modifies this
      ensures Valid()
      ensures accepted == (Known(host) && Accepts(old(hosts)[host - 1], r))
      ensures hosts == if accepted then old(hosts)[host - 1 := Pushed(old(hosts)[host - 1], r)] else old(hosts)
    {
      if !Known(host) {
        return false;
      }
      var p := hosts[host - 1];
      if r.buttons != p.buttons {
        if p.pending {
          return false;
        }
        p := p.(buttons := r.buttons);
      }
      p := p.(x := Clamp(I32, p.x + r.x), y := Clamp(I32, p.y + r.y));
      p := p.(wheel := Clamp(I32, p.wheel + r.wheel), pan := Clamp(I32, p.pan + r.pan), pending := true);
      hosts := hosts[host - 1 := p];
      return true;
    }

    method TakeNext(host: int) returns (r: Option<Report>)
      requires Valid()
      modifies this
      ensures Valid()
      ensures r.Some? <==> Known(host) && old(hosts)[host - 1].pending
      ensures r.Some? ==> r.value == Part(old(hosts)[host - 1]) && hosts == old(hosts)[host - 1 := Rest(old(hosts)[host - 1])]
      ensures r.None? ==> hosts == old(hosts)
    {
      if !Known(host) || !hosts[host - 1].pending {
        return None;
      }
      var p := hosts[host - 1];
      var x, y := Clamp(I16, p.x), Clamp(I16, p.y);
      var wheel, pan := Clamp(I8, p.wheel), Clamp(I8, p.pan);
      p := p.(x := p.x - x, y := p.y - y, wheel := p.wheel - wheel, pan := p.pan - pan);
      p := p.(pending := p.x != 0 || p.y != 0 || p.wheel != 0 || p.pan != 0);
      PartNeverOvershoots(hosts[host - 1]);
      hosts := hosts[host - 1 := p];
      return Some(Report(p.buttons, x, y, wheel, pan));
    }

    method SetButtons(host: int, buttons: nat)
      requires Valid()
      modifies this
      ensures Valid()
      ensures hosts == if Known(host) then old(hosts)[host - 1 := old(hosts)[host - 1].(buttons := buttons)] else old(hosts)
    {
      if Known(host) {
        hosts := hosts[host - 1 := hosts[host - 1].(buttons := buttons)];
      }
    }
  }

  // ---------------------------------------------------------- drain count

  /** Reports needed for one axis. */
  function Needed(a: Axis, v: int): nat
    requires a.lo < 0 < a.hi
  {
    if v >= 0 then (v + a.hi - 1) / a.hi else (-v - a.lo - 1) / (-a.lo)
  }

  function Max(a: nat, b: nat): nat {
    if a < b then b else a
  }

  function ReportsNeeded(p: Pending): nat {
    Max(Max(Needed(I16, p.x), Needed(I16, p.y)), Max(Needed(I8, p.wheel), Needed(I8, p.pan)))
  }

  lemma NeededStep16(v: int)
    ensures Needed(I16, v) == if v == 0 then 0 else 1 + Needed(I16, v - Clamp(I16, v))
  {
  }

  lemma NeededStep8(v: int)
    ensures Needed(I8, v) == if v == 0 then 0 else 1 + Needed(I8, v - Clamp(I8, v))
  {
  }

  /** One report less on every axis that still needs one. */
  lemma NeededAfterTake(p: Pending)
    ensures ReportsNeeded(Rest(p)) == if ReportsNeeded(p) == 0 then 0 else ReportsNeeded(p) - 1
    ensures Rest(p).pending <==> ReportsNeeded(Rest(p)) > 0
  {
    var q := Rest(p);
    NeededStep16(p.x);
    NeededStep16(p.y);
    NeededStep8(p.wheel);
    NeededStep8(p.pan);
    NeededStep16(q.x);
    NeededStep16(q.y);
    NeededStep8(q.wheel);
    NeededStep8(q.pan);
    MaxStep(Needed(I16, p.x), Needed(I16, p.y), Needed(I8, p.wheel), Needed(I8, p.pan),
            Needed(I16, q.x), Needed(I16, q.y), Needed(I8, q.wheel), Needed(I8, q.pan));
  }

  lemma MaxStep(a: nat, b: nat, c: nat, d: nat, a': nat, b': nat, c': nat, d': nat)
    requires a' == (if a == 0 then 0 else a - 1) && b' == (if b == 0 then 0 else b - 1)
    requires c' == (if c == 0 then 0 else c - 1) && d' == (if d == 0 then 0 else d - 1)
    ensures var m := Max(Max(a, b), Max(c, d));
      Max(Max(a', b'), Max(c', d')) == if m == 0 then 0 else m - 1
  {
  }

  /** A drain takes exactly as many reports as its fullest axis needs, and at
      least one. */
  lemma {:induction false} DrainCount(p: Pending)
    requires p.pending
    ensures |Drain(p)| == Max(1, ReportsNeeded(p))
    decreases Load(p)
  {
    NeededAfterTake(p);
    if Rest(p).pending {
      TakingShrinks(p);
      DrainCount(Rest(p));
    }
  }

  /** No part overshoots: each axis keeps its sign and shrinks toward zero. */
  lemma PartNeverOvershoots(p: Pending)
    ensures Reportable(Part(p))
    ensures var q := Rest(p);
      && (p.x >= 0 ==> 0 <= q.x <= p.x) && (p.x <= 0 ==> p.x <= q.x <= 0)
      && (p.y >= 0 ==> 0 <= q.y <= p.y) && (p.y <= 0 ==> p.y <= q.y <= 0)
      && (p.wheel >= 0 ==> 0 <= q.wheel <= p.wheel) && (p.wheel <= 0 ==> p.wheel <= q.wheel <= 0)
      && (p.pan >= 0 ==> 0 <= q.pan <= p.pan) && (p.pan <= 0 ==> p.pan <= q.pan <= 0)
    ensures Settled(p) ==> Settled(Rest(p))
  {
  }

  /** A part put back restores the accumulator exactly. */
  lemma PutBackRestores(p: Pending)
    requires Settled(p) && p.pending
    ensures Accepts(Rest(p), Part(p)) && Pushed(Rest(p), Part(p)) == p
  {
  }
}
