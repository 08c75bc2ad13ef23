/** The sink that hands mouse reports to the radio lanes.

  Movement is coalesced; a report with other buttons first pushes the movement
  collected under the old buttons out. What was handed over, together with what
  is still pending, always tells the same story as what was submitted: the same
  button phases with the same movement in each.
 */
module MouseSink {
  import opened Options
  import opened MouseScaling
  import opened MouseAccumulator

  /** A report on its way to a host. */
  datatype Item = Item(host: int, report: Report)

  function ForHost(items: seq<Item>, host: int): seq<Report> {
    if items == [] then []
    else
      var last := items[|items| - 1];
      ForHost(items[..|items| - 1], host) + if last.host == host then [last.report] else []
  }

  // ------------------------------------------------------------- phases

  /** Reports with equal buttons in a row form one phase. */
  function Merge(a: Report, b: Report): Report {
    Report(a.buttons, a.x + b.x, a.y + b.y, a.wheel + b.wheel, a.pan + b.pan)
  }

  function Extend(phases: seq<Report>, r: Report): seq<Report> {
    if phases != [] && phases[|phases| - 1].buttons == r.buttons then
      phases[..|phases| - 1] + [Merge(phases[|phases| - 1], r)]
    else phases + [r]
  }

  function Phases(reports: seq<Report>): seq<Report> {
    if reports == [] then [] else Extend(Phases(reports[..|reports| - 1]), reports[|reports| - 1])
  }

  function Held(p: Pending): Report {
    Report(p.buttons, p.x, p.y, p.wheel, p.pan)
  }

  function WithPending(phases: seq<Report>, p: Pending): seq<Report> {
    if p.pending then Extend(phases, Held(p)) else phases
  }

  lemma ExtendTwice(phases: seq<Report>, a: Report, b: Report)
    requires a.buttons == b.buttons
    ensures Extend(Extend(phases, a), b) == Extend(phases, Merge(a, b))
  {
  }

  lemma PhasesStep(reports: seq<Report>, r: Report)
    ensures Phases(reports + [r]) == Extend(Phases(reports), r)
  {
    assert (reports + [r])[..|reports|] == reports;
  }

  lemma PushKeepsStory(phases: seq<Report>, p: Pending, r: Report)
    requires Settled(p) && Accepts(p, r) && Roomy(p, r)
    ensures WithPending(phases, Pushed(p, r)) == Extend(WithPending(phases, p), r)
  {
    if p.pending {
      ExtendTwice(phases, Held(p), r);
    }
  }

  lemma TakeKeepsStory(phases: seq<Report>, p: Pending)
    requires Settled(p) && p.pending
    ensures WithPending(Extend(phases, Part(p)), Rest(p)) == WithPending(phases, p)
  {
    ExtendTwice(phases, Part(p), Held(Rest(p)));
    assert Merge(Part(p), Held(Rest(p))) == Held(p);
  }

  // --------------------------------------------------------------- sink

  /** The submitted and the handed-over reports of `host` tell the same story. */
  ghost predicate SameStory(hosts: seq<Pending>, handed: seq<Item>, submitted: seq<Item>, host: int) {
    Known(host) && |hosts| == HOSTS
    && Phases(ForHost(submitted, host)) == WithPending(Phases(ForHost(handed, host)), hosts[host - 1])
  }

  ghost predicate Faithful(hosts: seq<Pending>, handed: seq<Item>, submitted: seq<Item>) {
    forall h :: Known(h) ==> SameStory(hosts, handed, submitted, h)
  }

  /** What the notify lane answers when it is offered a report of one host. */
  datatype LaneAnswer = LaneAnswer(free: bool, accepted: bool)

  lemma ForHostStep(items: seq<Item>, item: Item, host: int)
    ensures ForHost(items + [item], host) == ForHost(items, host) + if item.host == host then [item.report] else []
  {
    assert (items + [item])[..|items|] == items;
  }

  /** Handing over the next part of `host` keeps every story. */
  lemma HandOverKeeps(hosts: seq<Pending>, handed: seq<Item>, submitted: seq<Item>, host: int)
    requires Faithful(hosts, handed, submitted) && Known(host) && |hosts| == HOSTS
    requires Settled(hosts[host - 1]) && hosts[host - 1].pending
    ensures Faithful(hosts[host - 1 := Rest(hosts[host - 1])], handed + [Item(host, Part(hosts[host - 1]))], submitted)
  {
    var p := hosts[host - 1];
    var hosts', handed' := hosts[host - 1 := Rest(p)], handed + [Item(host, Part(p))];
    forall h | Known(h)
      ensures SameStory(hosts', handed', submitted, h)
    {
      assert SameStory(hosts, handed, submitted, h);
      ForHostStep(handed, Item(host, Part(p)), h);
      if h == host {
        PhasesStep(ForHost(handed, h), Part(p));
        TakeKeepsStory(Phases(ForHost(handed, h)), p);
      } else {
        assert ForHost(handed', h) == ForHost(handed, h);
      }
    }
  }

  /** Accepting a report keeps every story. */
  lemma AcceptKeeps(hosts: seq<Pending>, handed: seq<Item>, submitted: seq<Item>, host: int, r: Report)
    requires Faithful(hosts, handed, submitted) && Known(host) && |hosts| == HOSTS
    requires Settled(hosts[host - 1]) && Accepts(hosts[host - 1], r) && Roomy(hosts[host - 1], r)
    ensures Faithful(hosts[host - 1 := Pushed(hosts[host - 1], r)], handed, submitted + [Item(host, r)])
  {
    var hosts' := hosts[host - 1 := Pushed(hosts[host - 1], r)];
    forall h | Known(h)
      ensures SameStory(hosts', handed, submitted + [Item(host, r)], h)
    {
      assert SameStory(hosts, handed, submitted, h);
      ForHostStep(submitted, Item(host, r), h);
      if h == host {
        PhasesStep(ForHost(submitted, h), r);
        PushKeepsStory(Phases(ForHost(handed, h)), hosts[h - 1], r);
      } else {
        assert ForHost(submitted + [Item(host, r)], h) == ForHost(submitted, h);
      }
    }
  }

  /** A report handed straight through after its host was drained keeps every
      story, whatever buttons the empty accumulator remembers. */
  lemma PassThroughKeeps(hosts: seq<Pending>, handed: seq<Item>, submitted: seq<Item>, host: int, r: Report, hosts': seq<Pending>)
    requires Faithful(hosts, handed, submitted) && |hosts| == HOSTS
    requires Known(host) ==> !hosts[host - 1].pending
    requires hosts' == if Known(host) then hosts[host - 1 := hosts[host - 1].(buttons := r.buttons)] else hosts
    ensures Faithful(hosts', handed + [Item(host, r)], submitted + [Item(host, r)])
  {
    forall h | Known(h)
      ensures SameStory(hosts', handed + [Item(host, r)], submitted + [Item(host, r)], h)
    {
      assert SameStory(hosts, handed, submitted, h);
      ForHostStep(handed, Item(host, r), h);
      ForHostStep(submitted, Item(host, r), h);
      if h == host {
        PhasesStep(ForHost(submitted, h), r);
        PhasesStep(ForHost(handed, h), r);
      } else {
        assert ForHost(submitted + [Item(host, r)], h) == ForHost(submitted, h);
        assert ForHost(handed + [Item(host, r)], h) == ForHost(handed, h);
      }
    }
  }

  function Addressed(host: int, reports: seq<Report>): seq<Item> {
    if reports == [] then [] else [Item(host, reports[0])] + Addressed(host, reports[1..])
  }

  lemma AddressedStep(host: int, p: Pending, handed: seq<Item>)
    requires p.pending
    ensures handed + Addressed(host, Drain(p)) == handed + [Item(host, Part(p))] + Addressed(host, Drain(Rest(p)))
  {
    assert Drain(p)[1..] == Drain(Rest(p));
  }

  function Emptied(p: Pending): Pending {
    Pending(p.buttons, 0, 0, 0, 0, false)
  }

  /** A report that must not overtake the movement before it. */
  function Ordered(hosts: seq<Pending>, handed: seq<Item>, host: int, r: Report): (seq<Pending>, seq<Item>)
    requires |hosts| == HOSTS
  {
    if Known(host) then
      (hosts[host - 1 := Emptied(hosts[host - 1]).(buttons := r.buttons)],
       handed + Addressed(host, Drain(hosts[host - 1])) + [Item(host, r)])
    else (hosts, handed + [Item(host, r)])
  }

  /** One round over the hosts from `host` on; the lane may run out. */
  function Flushed(hosts: seq<Pending>, handed: seq<Item>, answers: seq<LaneAnswer>, host: nat): (seq<Pending>, seq<Item>)
    requires |hosts| == HOSTS && |answers| == HOSTS && host >= 1
    decreases HOSTS + 1 - host
  {
    if host > HOSTS || !answers[host - 1].free then (hosts, handed)
    else if !hosts[host - 1].pending then Flushed(hosts, handed, answers, host + 1)
    else if !answers[host - 1].accepted then (hosts, handed)
    else Flushed(hosts[host - 1 := Rest(hosts[host - 1])], handed + [Item(host, Part(hosts[host - 1]))], answers, host + 1)
  }

  /** The lanes had room up to host `h`. */
  predicate Reached(hosts: seq<Pending>, answers: seq<LaneAnswer>, from: nat, h: nat)
    requires |hosts| == HOSTS && |answers| == HOSTS && from >= 1
  {
    forall i :: from - 1 <= i < h - 1 && i < HOSTS ==> answers[i].free && (hosts[i].pending ==> answers[i].accepted)
  }

  /** The round hands over for host `h`. */
  predicate HandsOver(hosts: seq<Pending>, answers: seq<LaneAnswer>, from: nat, h: nat)
    requires |hosts| == HOSTS && |answers| == HOSTS && from >= 1 && 1 <= h <= HOSTS
  {
    from <= h && Reached(hosts, answers, from, h) && answers[h - 1].free && answers[h - 1].accepted && hosts[h - 1].pending
  }

  /** What a round does to host `h`. */
  ghost predicate RoundFor(hosts: seq<Pending>, handed: seq<Item>, answers: seq<LaneAnswer>, from: nat, h: nat,
                           hosts': seq<Pending>, handed': seq<Item>)
    requires |hosts| == HOSTS && |answers| == HOSTS && from >= 1 && 1 <= h <= HOSTS
  {
    && |hosts'| == HOSTS
    && if HandsOver(hosts, answers, from, h)
       then hosts'[h - 1] == Rest(hosts[h - 1]) && ForHost(handed', h) == ForHost(handed, h) + [Part(hosts[h - 1])]
       else hosts'[h - 1] == hosts[h - 1] && ForHost(handed', h) == ForHost(handed, h)
  }

  /** A round hands over one report of every pending host, in order, until a lane has
      no room; every other host is left alone. */
  lemma {:induction false} FlushHandsOver(hosts: seq<Pending>, handed: seq<Item>, answers: seq<LaneAnswer>, from: nat, h: nat)
    requires |hosts| == HOSTS && |answers| == HOSTS && from >= 1 && 1 <= h <= HOSTS
    ensures var (hosts', handed') := Flushed(hosts, handed, answers, from);
      RoundFor(hosts, handed, answers, from, h, hosts', handed')
    decreases HOSTS + 1 - from
  {
    if from <= HOSTS && answers[from - 1].free && (hosts[from - 1].pending ==> answers[from - 1].accepted) {
      var p := hosts[from - 1];
      var hosts1 := if p.pending then hosts[from - 1 := Rest(p)] else hosts;
      var handed1 := if p.pending then handed + [Item(from, Part(p))] else handed;
      FlushHandsOver(hosts1, handed1, answers, from + 1, h);
      HandedStep(hosts, handed, answers, from, h);
    }
  }

  /** One host further on in the round. */
  lemma HandedStep(hosts: seq<Pending>, handed: seq<Item>, answers: seq<LaneAnswer>, from: nat, h: nat)
    requires |hosts| == HOSTS && |answers| == HOSTS && 1 <= from <= HOSTS && 1 <= h <= HOSTS
    requires answers[from - 1].free && (hosts[from - 1].pending ==> answers[from - 1].accepted)
    ensures var p := hosts[from - 1];
      var hosts1 := if p.pending then hosts[from - 1 := Rest(p)] else hosts;
      var handed1 := if p.pending then handed + [Item(from, Part(p))] else handed;
      && ForHost(handed1, h) == ForHost(handed, h) + (if p.pending && h == from then [Part(p)] else [])
      && (h != from ==> hosts1[h - 1] == hosts[h - 1]
                        && (HandsOver(hosts, answers, from, h) <==> HandsOver(hosts1, answers, from + 1, h)))
  {
    var p := hosts[from - 1];
    if p.pending {
      ForHostStep(handed, Item(from, Part(p)), h);
    }
  }

  /** After an ordered report nothing is pending for its host, and the report is the
      last one handed over. */
  lemma OrderedGoesLast(hosts: seq<Pending>, handed: seq<Item>, host: int, r: Report)
    requires |hosts| == HOSTS
    ensures var (hosts', handed') := Ordered(hosts, handed, host, r);
      && |hosts'| == HOSTS && handed <= handed' && handed' != [] && handed'[|handed'| - 1] == Item(host, r)
      && (Known(host) ==> !hosts'[host - 1].pending)
      && forall h :: Known(h) && h != host ==> hosts'[h - 1] == hosts[h - 1]
  {
  }

  /** The sink. `handed` lists the reports in the order in which the sink gives
      them to its lanes; `submitted` those it was given. */
  class ChannelTaskSink {
    const mouse: MouseReportAccumulator
    var handed: seq<Item>
    ghost var submitted: seq<Item>

    ghost predicate Valid()
      reads this, mouse
    {
      mouse.Valid()
    }

    /** What was handed over and what is pending tell the story that was submitted. */
    ghost predicate Told()
      reads this, mouse
    {
      mouse.Valid() && Faithful(mouse.hosts, handed, submitted)
    }

    constructor ()
      ensures Valid() && Told() && fresh(mouse) && handed == [] && submitted == []
      ensures forall i :: 0 <= i < HOSTS ==> mouse.hosts[i] == NOTHING
    {
      mouse := new MouseReportAccumulator();
      handed, submitted := [], [];
      new;
      forall h | Known(h)
        ensures SameStory(mouse.hosts, handed, submitted, h)
      {
        assert mouse.hosts[h - 1] == NOTHING;
      }
    }

    /** Empties one accumulator into the ordered lane. */
    method FlushOrdered(host: int)
      requires Valid()
      modifies this`handed, mouse
      ensures Valid() && (old(Told()) ==> Told())
      ensures !Known(host) ==> handed == old(handed) && mouse.hosts == old(mouse.hosts)
      ensures Known(host) ==>
        && handed == old(handed) + Addressed(host, Drain(old(mouse.hosts)[host - 1]))
        && mouse.hosts == old(mouse.hosts)[host - 1 := Emptied(old(mouse.hosts)[host - 1])]
    {
      if !Known(host) {
        return;
      }
      ghost var before, was := mouse.hosts, handed;
      ghost var all := Addressed(host, Drain(before[host - 1]));
      var more := true;
      while more
        invariant Valid() && (old(Told()) ==> Told())
        invariant mouse.hosts == before[host - 1 := mouse.hosts[host - 1]]
        invariant mouse.hosts[host - 1].buttons == before[host - 1].buttons
        invariant !more ==> !mouse.hosts[host - 1].pending
        invariant handed + Addressed(host, Drain(mouse.hosts[host - 1])) == was + all
        decreases more, Load(mouse.hosts[host - 1])
      {
        ghost var hosts := mouse.hosts;
        var next := mouse.TakeNext(host);
        if next.Some? {
          TakingShrinks(hosts[host - 1]);
          if old(Told()) {
            HandOverKeeps(hosts, handed, submitted, host);
          }
          AddressedStep(host, hosts[host - 1], handed);
          handed := handed + [Item(host, next.value)];
        } else {
          more := false;
        }
      }
    }

    /** Offers one report of a host; a refused report goes back into its accumulator,
        which is then exactly as before. */
    method FlushOne(host: nat, accepted: bool) returns (goOn: bool)
      requires Valid() && Known(host)
      modifies this`handed, mouse
      ensures Valid() && (old(Told()) ==> Told())
      ensures goOn <==> !old(mouse.hosts)[host - 1].pending || accepted
      ensures var p := old(mouse.hosts)[host - 1];
        if p.pending && accepted
        then mouse.hosts == old(mouse.hosts)[host - 1 := Rest(p)] && handed == old(handed) + [Item(host, Part(p))]
        else mouse.hosts == old(mouse.hosts) && handed == old(handed)
    {
      ghost var hosts := mouse.hosts;
      var next := mouse.TakeNext(host);
      if next.None? {
        return true;
      }
      if !accepted {
        PutBackRestores(hosts[host - 1]);
        var _ := mouse.Push(host, next.value);
        assert mouse.hosts == hosts;
        return false;
      }
      if old(Told()) {
        HandOverKeeps(hosts, handed, submitted, host);
      }
      handed := handed + [Item(host, next.value)];
      goOn := true;
    }

    /** Offers one report per host to the notify lane. */
    method Flush(answers: seq<LaneAnswer>)
      requires Valid() && |answers| == HOSTS
      modifies this`handed, mouse
      ensures Valid() && (old(Told()) ==> Told())
      ensures (mouse.hosts, handed) == Flushed(old(mouse.hosts), old(handed), answers, 1)
    {
      var host := 1;
      while host <= HOSTS
        invariant 1 <= host <= HOSTS + 1 && Valid() && (old(Told()) ==> Told())
        invariant Flushed(mouse.hosts, handed, answers, host) == Flushed(old(mouse.hosts), old(handed), answers, 1)
      {
        if !answers[host - 1].free {
          return;
        }
        var goOn := FlushOne(host, answers[host - 1].accepted);
        if !goOn {
          return;
        }
        host := host + 1;
      }
    }

    /** An ordinary movement report. The story is kept unless an axis saturates. */
    method SendInput(host: int, r: Report, answers: seq<LaneAnswer>)
      requires Valid() && |answers| == HOSTS
      modifies this, mouse
      ensures Valid() && submitted == old(submitted) + [Item(host, r)]
      ensures old(Told()) && (Known(host) ==> Roomy(old(mouse.hosts)[host - 1], r)) ==> Told()
      ensures Known(host) && Accepts(old(mouse.hosts)[host - 1], r) ==>
        (mouse.hosts, handed)
        == Flushed(old(mouse.hosts)[host - 1 := Pushed(old(mouse.hosts)[host - 1], r)], old(handed), answers, 1)
      ensures !(Known(host) && Accepts(old(mouse.hosts)[host - 1], r)) ==>
        (mouse.hosts, handed) == Ordered(old(mouse.hosts), old(handed), host, r)
    {
      ghost var hosts := mouse.hosts;
      var accepted := mouse.Push(host, r);
      if accepted {
        if old(Told()) && Roomy(hosts[host - 1], r) {
          AcceptKeeps(hosts, handed, submitted, host, r);
        }
        submitted := submitted + [Item(host, r)];
        Flush(answers);
      } else {
        SendOrdered(host, r);
      }
    }

    /** A button edge or a release: everything older goes first. */
    method SendOrdered(host: int, r: Report)
      requires Valid()
      modifies this, mouse
      ensures Valid() && submitted == old(submitted) + [Item(host, r)] && (old(Told()) ==> Told())
      ensures (mouse.hosts, handed) == Ordered(old(mouse.hosts), old(handed), host, r)
    {
      FlushOrdered(host);
      ghost var hosts := mouse.hosts;
      mouse.SetButtons(host, r.buttons);
      if old(Told()) {
        PassThroughKeeps(hosts, handed, submitted, host, r, mouse.hosts);
      }
      assert Known(host) ==>
        mouse.hosts == old(mouse.hosts)[host - 1 := Emptied(old(mouse.hosts)[host - 1]).(buttons := r.buttons)];
      handed := handed + [Item(host, r)];
      submitted := submitted + [Item(host, r)];
    }
  }

  // ------------------------------------------------------------ totals

  datatype Direction = X | Y | Wheel | Pan

  function Width(d: Direction): Axis {
    if d == X || d == Y then I16 else I8
  }

  function Along(r: Report, d: Direction): int {
    match d
    case X => r.x
    case Y => r.y
    case Wheel => r.wheel
    case Pan => r.pan
  }

  function Moves(reports: seq<Report>, d: Direction): (s: seq<int>)
    ensures |s| == |reports|
  {
    seq(|reports|, i requires 0 <= i < |reports| => Along(reports[i], d))
  }

  function Total(reports: seq<Report>, d: Direction): int {
    Sum(Moves(reports, d))
  }

  lemma TotalStep(reports: seq<Report>, r: Report, d: Direction)
    ensures Total(reports + [r], d) == Total(reports, d) + Along(r, d)
  {
    assert Moves(reports + [r], d)[..|reports|] == Moves(reports, d);
  }

  lemma ExtendAdds(phases: seq<Report>, r: Report, d: Direction)
    ensures Total(Extend(phases, r), d) == Total(phases, d) + Along(r, d)
  {
    var n := |phases| - 1;
    if phases != [] && phases[n].buttons == r.buttons {
      TotalStep(phases[..n], Merge(phases[n], r), d);
      TotalStep(phases[..n], phases[n], d);
      assert phases == phases[..n] + [phases[n]];
    } else {
      TotalStep(phases, r, d);
    }
  }

  lemma {:induction false} PhasesKeepTotal(reports: seq<Report>, d: Direction)
    ensures Total(Phases(reports), d) == Total(reports, d)
    decreases |reports|
  {
    if reports != [] {
      var n := |reports| - 1;
      PhasesKeepTotal(reports[..n], d);
      ExtendAdds(Phases(reports[..n]), reports[n], d);
      TotalStep(reports[..n], reports[n], d);
      assert reports == reports[..n] + [reports[n]];
    }
  }

  lemma {:induction false} TotalFront(r: Report, reports: seq<Report>, d: Direction)
    ensures Total([r] + reports, d) == Along(r, d) + Total(reports, d)
    decreases |reports|
  {
    if reports == [] {
      assert [r] + reports == [] + [r];
      TotalStep([], r, d);
    } else {
      var n := |reports| - 1;
      TotalFront(r, reports[..n], d);
      assert [r] + reports == ([r] + reports[..n]) + [reports[n]];
      assert reports == reports[..n] + [reports[n]];
      TotalStep([r] + reports[..n], reports[n], d);
      TotalStep(reports[..n], reports[n], d);
    }
  }

  /** Draining hands over exactly the pending movement. */
  lemma {:induction false} DrainSums(p: Pending, d: Direction)
    requires Settled(p)
    ensures Total(Drain(p), d) == Along(Held(p), d)
    decreases Load(p)
  {
    if p.pending {
      TakingShrinks(p);
      PartNeverOvershoots(p);
      DrainSums(Rest(p), d);
      TotalFront(Part(p), Drain(Rest(p)), d);
    }
  }

  /** Movement is conserved: handed over plus pending is what was submitted. */
  lemma MovementConserved(hosts: seq<Pending>, handed: seq<Item>, submitted: seq<Item>, host: int, d: Direction)
    requires SameStory(hosts, handed, submitted, host) && Settled(hosts[host - 1])
    ensures Total(ForHost(handed, host), d) + Along(Held(hosts[host - 1]), d) == Total(ForHost(submitted, host), d)
  {
    PhasesKeepTotal(ForHost(handed, host), d);
    PhasesKeepTotal(ForHost(submitted, host), d);
    if hosts[host - 1].pending {
      ExtendAdds(Phases(ForHost(handed, host)), Held(hosts[host - 1]), d);
    }
  }

  /** End to end, at any sensitivity up to 100 percent: if the reports submitted
      for a host carry the scaled movement of `raw`, what its lanes received and
      what is pending never differ from the exact scaled movement by a count. */
  lemma EndToEndAccuracy(hosts: seq<Pending>, handed: seq<Item>, submitted: seq<Item>, host: int, d: Direction,
                         raw: seq<int>, percent: nat)
    requires SameStory(hosts, handed, submitted, host) && Settled(hosts[host - 1])
    requires percent <= 100 && forall i :: 0 <= i < |raw| ==> Fits(Width(d), raw[i])
    requires Moves(ForHost(submitted, host), d) == Outputs(Width(d), raw, percent)
    ensures var delivered := Total(ForHost(handed, host), d) + Along(Held(hosts[host - 1]), d);
      -99 <= 100 * delivered - percent * Sum(raw) <= 99
  {
    MovementConserved(hosts, handed, submitted, host, d);
    ScalingIsAccurate(Width(d), raw, percent);
  }
}
