/** Debounce, retry and quiesce scheduling of storage writes. */
module PersistScheduler {
  import opened Options
  import opened Bits
  import opened Clock
  import opened InputProfiles
  import opened StorageImage

  const RETRY_BASE_MS: nat := 1000
  const RETRY_MAX_MS: nat := 60000
  const FAILURE_LIMIT: nat := 6

  datatype Priority = Lazy | Normal | Critical

  function Rank(p: Priority): nat {
    match p
    case Lazy => 0
    case Normal => 1
    case Critical => 2
  }

  function Higher(p: Priority, q: Priority): Priority {
    if Rank(p) < Rank(q) then q else p
  }

  function SatSub(a: nat, b: nat): nat {
    if a < b then 0 else a - b
  }

  function Min(a: nat, b: nat): nat {
    if a < b then a else b
  }

  datatype Scheduler = Scheduler(
    normalDelay: U64,
    lazyDelay: U64,
    pending: Option<StorageState>,
    priority: Option<Priority>,
    deadline: Option<U64>,
    failures: Byte,
    suspended: bool)

  function Idle(normalDelay: U64, lazyDelay: U64): Scheduler {
    Scheduler(normalDelay, lazyDelay, None, None, None, 0, false)
  }

  function DelayFor(c: Scheduler, p: Priority): U64 {
    match p
    case Critical => 0
    case Normal => c.normalDelay
    case Lazy => c.lazyDelay
  }

  predicate SamePending(c: Scheduler, s: StorageState) {
    c.pending.Some? && c.pending.value.generation == s.generation
  }

  function Stage(c: Scheduler, s: StorageState, p: Priority, now: U64): Scheduler {
    var merged := if c.priority.Some? then Higher(c.priority.value, p) else p;
    var proposed := Later(now, DelayFor(c, merged));
    c.(pending := Some(s),
       priority := Some(merged),
       deadline := Some(if c.deadline.Some? && merged != p && c.deadline.value < proposed then c.deadline.value else proposed),
       failures := if SamePending(c, s) then c.failures else 0,
       suspended := SamePending(c, s) && c.suspended)
  }

  function StageQuiesceSnapshot(c: Scheduler, s: StorageState, now: U64): Scheduler {
    if SamePending(c, s) then c.(pending := Some(s)) else Stage(c, s, Critical, now)
  }

  function Cleared(c: Scheduler): Scheduler {
    Idle(c.normalDelay, c.lazyDelay)
  }

  /** The wait after the n-th failure in a row. */
  function RetryDelay(n: nat): nat
    requires 0 < n
  {
    Min(RETRY_BASE_MS * Pow2(n - 1), RETRY_MAX_MS)
  }

  function RecordFailure(c: Scheduler, now: U64): Scheduler {
    var n := if c.failures == 255 then 255 else c.failures + 1;
    if n >= FAILURE_LIMIT then c.(failures := n, suspended := true, deadline := None)
    else c.(failures := n, deadline := Some(Later(now, RetryDelay(n))))
  }

  predicate Due(c: Scheduler, now: U64) {
    c.deadline.Some? && c.deadline.value <= now && c.pending.Some?
  }

  /** A scheduled attempt: nothing unless due; the flash decides the outcome. */
  function PersistDue(c: Scheduler, now: U64, succeeds: bool): Scheduler {
    if !Due(c, now) then c else if succeeds then Cleared(c) else RecordFailure(c, now)
  }

  /** An unscheduled attempt. */
  function Flush(c: Scheduler, succeeds: bool): Scheduler {
    if c.pending.Some? && succeeds then Cleared(c) else c
  }

  datatype Policy = Policy(activeBleRetryMs: U64, criticalForceQuiesceMs: U64)

  datatype TaskAction =
    | AwaitCommand
    | WaitForDeadline(delay: nat)
    | DeferForActiveBle(delay: nat)
    | QuiesceAndPersist(forced: bool)

  function Evaluate(policy: Policy, c: Scheduler, now: U64, activeBle: nat): TaskAction {
    if c.pending.None? || c.suspended then AwaitCommand
    else if c.deadline.Some? && SatSub(c.deadline.value, now) > 0 then WaitForDeadline(SatSub(c.deadline.value, now))
    else if activeBle == 0 then QuiesceAndPersist(false)
    else if c.priority == Some(Critical)
         && (if c.deadline.Some? then SatSub(now, c.deadline.value) else 0) >= policy.criticalForceQuiesceMs
      then QuiesceAndPersist(true)
    else DeferForActiveBle(policy.activeBleRetryMs)
  }

  class StoragePersistence {
    const normalDelay: U64
    const lazyDelay: U64
    var pending: Option<StorageState>
    var priority: Option<Priority>
    var deadline: Option<U64>
    var failures: Byte
    var suspended: bool

    ghost function Value(): Scheduler
      reads this
    {
      Scheduler(normalDelay, lazyDelay, pending, priority, deadline, failures, suspended)
    }

    constructor (normalDelay: U64, lazyDelay: U64)
      ensures Value() == Idle(normalDelay, lazyDelay)
    {
      this.normalDelay, this.lazyDelay := normalDelay, lazyDelay;
      pending, priority, deadline := None, None, None;
      failures, suspended := 0, false;
    }

    method StageState(s: StorageState, p: Priority, now: U64)
      modifies this
      ensures Value() == Stage(old(Value()), s, p, now)
    {
      if pending.None? || pending.value.generation != s.generation {
        failures, suspended := 0, false;
      }
      var merged := if priority.Some? then Higher(priority.value, p) else p;
      var delay := match merged case Critical => 0 case Normal => normalDelay case Lazy => lazyDelay;
      var proposed := Later(now, delay);
      pending, priority := Some(s), Some(merged);
      if deadline.Some? && merged != p {
        deadline := Some(if deadline.value < proposed then deadline.value else proposed);
      } else {
        deadline := Some(proposed);
      }
    }

    method StageQuiesce(s: StorageState, now: U64)
      modifies this
      ensures Value() == StageQuiesceSnapshot(old(Value()), s, now)
    {
      if pending.Some? && pending.value.generation == s.generation {
        pending := Some(s);
        return;
      }
      StageState(s, Critical, now);
    }

    method Fail(now: U64)
      modifies this
      ensures Value() == RecordFailure(old(Value()), now)
    {
      failures := if failures == 255 then 255 else failures + 1;
      if failures >= FAILURE_LIMIT {
        suspended, deadline := true, None;
        return;
      }
      var delay := RETRY_BASE_MS * Pow2(failures - 1);
      deadline := Some(Later(now, Min(delay, RETRY_MAX_MS)));
    }

    method PersistIfDue(now: U64, succeeds: bool) returns (written: bool)
      modifies this
      ensures Value() == PersistDue(old(Value()), now, succeeds)
      ensures written == (old(Due(Value(), now)) && succeeds)
    {
      if deadline.None? || now < deadline.value || pending.None? {
        return false;
      }
      if succeeds {
        pending, priority, deadline, failures, suspended := None, None, None, 0, false;
        return true;
      }
      Fail(now);
      return false;
    }
  }

  lemma RetryStaysBelowCap(n: nat)
    requires 0 < n < FAILURE_LIMIT
    ensures RETRY_BASE_MS * Pow2(n - 1) == RetryDelay(n) <= 16000
  {
    assert Pow2(1) == 2 && Pow2(2) == 4 && Pow2(3) == 8 && Pow2(4) == 16;
  }

  // ----------------------------------------------------------- whole runs

  datatype Op =
    | StageOp(s: StorageState, p: Priority, now: U64)
    | QuiesceOp(s: StorageState, now: U64)
    | AttemptOp(now: U64, succeeds: bool)
    | FlushOp(succeeds: bool)

  function Apply(c: Scheduler, op: Op): Scheduler {
    match op
    case StageOp(s, p, now) => Stage(c, s, p, now)
    case QuiesceOp(s, now) => StageQuiesceSnapshot(c, s, now)
    case AttemptOp(now, succeeds) => PersistDue(c, now, succeeds)
    case FlushOp(succeeds) => Flush(c, succeeds)
  }

  function Run(c: Scheduler, ops: seq<Op>): Scheduler {
    if ops == [] then c else Apply(Run(c, ops[..|ops| - 1]), ops[|ops| - 1])
  }

  ghost predicate Consistent(c: Scheduler) {
    && (c.pending.Some? <==> c.priority.Some?)
    && (c.deadline.Some? ==> c.pending.Some?)
    && (c.pending.Some? && !c.suspended ==> c.deadline.Some?)
    && (c.pending.None? ==> c.failures == 0 && !c.suspended)
    && (c.suspended <==> c.failures >= FAILURE_LIMIT)
  }

  lemma {:induction false} RunIsConsistent(c: Scheduler, ops: seq<Op>)
    requires Consistent(c)
    ensures Consistent(Run(c, ops))
  {
    if ops != [] {
      RunIsConsistent(c, ops[..|ops| - 1]);
    }
  }

  ghost predicate Stages(op: Op) {
    op.StageOp? || op.QuiesceOp?
  }

  /** No operation from `i` on writes: flushes fail, and attempts fail or are not due. */
  ghost predicate NoWriteSince(c: Scheduler, ops: seq<Op>, i: nat)
    requires i <= |ops|
  {
    forall j :: i <= j < |ops| ==>
      match ops[j]
      case AttemptOp(now, succeeds) => !succeeds || !Due(Run(c, ops[..j]), now)
      case FlushOp(succeeds) => !succeeds
      case _ => true
  }

  /** The urgency that an operation asks for: a quiesce snapshot of another
      generation is critical. */
  function AskedFor(c: Scheduler, op: Op): Option<Priority> {
    match op
    case StageOp(_, p, _) => Some(p)
    case QuiesceOp(s, _) => if SamePending(c, s) then None else Some(Critical)
    case _ => None
  }

  lemma RunSplit(c: Scheduler, ops: seq<Op>, i: nat)
    requires i < |ops|
    ensures Run(c, ops[..i + 1]) == Apply(Run(c, ops[..i]), ops[i])
  {
    assert ops[..i + 1][..i] == ops[..i];
  }

  /** Until a write succeeds, the snapshot that will be written is the last one
      staged, and its urgency never falls below any urgency asked for. */
  lemma {:induction false} LastStagedIsPending(c: Scheduler, ops: seq<Op>, i: nat)
    requires i < |ops| && Stages(ops[i]) && NoWriteSince(c, ops, i)
    ensures var d := Run(c, ops);
      && d.pending.Some? && (i == |ops| - 1 || (forall j :: i < j < |ops| ==> !Stages(ops[j])) ==> d.pending == Some(ops[i].s))
    ensures var asked := AskedFor(Run(c, ops[..i]), ops[i]);
      asked.Some? && Consistent(c) ==>
        Run(c, ops).priority.Some? && Rank(Run(c, ops).priority.value) >= Rank(asked.value)
    decreases |ops|
  {
    var n := |ops| - 1;
    assert ops[..n + 1] == ops;
    RunSplit(c, ops, n);
    if i < n {
      assert forall j :: i <= j < n ==> ops[..n][j] == ops[j] && ops[..n][..j] == ops[..j];
      assert ops[..n][..i] == ops[..i] && ops[..n][i] == ops[i];
      LastStagedIsPending(c, ops[..n], i);
    } else if Consistent(c) {
      RunIsConsistent(c, ops[..n]);
    }
  }

  /** A stage can move an existing deadline later only if it is at least as
      urgent as what is pending. */
  lemma OnlyUrgentStagePostpones(c: Scheduler, s: StorageState, p: Priority, now: U64)
    requires Consistent(c) && c.deadline.Some?
    ensures Rank(p) < Rank(c.priority.value) ==> Stage(c, s, p, now).deadline.value <= c.deadline.value
    ensures Stage(c, s, p, now).deadline.value > c.deadline.value ==> Rank(p) >= Rank(c.priority.value)
  {
  }

  /** The wait that an urgency is configured to allow. */
  function Allowed(c: Scheduler, p: Priority): nat {
    if p == Critical then 0 else if p == Normal then c.normalDelay else c.lazyDelay
  }

  /** After a stage the snapshot is due no later than the more urgent of what was
      asked for and what was pending allows. A stage at least as urgent restarts
      that wait; a less urgent one at most shortens what is left. */
  lemma StageBoundsDeadline(c: Scheduler, s: StorageState, p: Priority, now: U64)
    requires Consistent(c)
    ensures var d := Stage(c, s, p, now);
      && d.pending == Some(s) && d.priority.Some? && d.deadline.Some?
      && var q := d.priority.value;
         && Rank(q) >= Rank(p) && (q == p || Some(q) == c.priority)
         && (c.priority.Some? ==> Rank(q) >= Rank(c.priority.value))
         && now <= TIME_MAX - Allowed(c, q) ==>
              && d.deadline.value <= now + Allowed(c, q)
              && (q == p ==> d.deadline.value == now + Allowed(c, q))
              && (q != p && c.deadline.Some? && c.deadline.value <= now + Allowed(c, q) ==> d.deadline == c.deadline)
  {
  }

  /** A critical stage is due at once, whatever deadline there was. */
  lemma CriticalIsDueAtOnce(c: Scheduler, s: StorageState, now: U64)
    ensures Due(Stage(c, s, Critical, now), now)
    ensures !SamePending(c, s) ==> Due(StageQuiesceSnapshot(c, s, now), now)
  {
  }

  // ------------------------------------------------------------- retries

  /** Failing attempts at the given times, each made when due. */
  ghost predicate FailingRun(c: Scheduler, times: seq<U64>)
    decreases |times|
  {
    times == [] || (Due(c, times[0]) && FailingRun(RecordFailure(c, times[0]), times[1..]))
  }

  ghost function AfterFailures(c: Scheduler, times: seq<U64>): Scheduler
    decreases |times|
  {
    if times == [] then c else AfterFailures(RecordFailure(c, times[0]), times[1..])
  }

  /** Starting from `k` failures, n further ones leave the deadline 1, 2, 4, 8 or
      16 seconds after the last; the sixth in a row suspends retrying. */
  lemma {:induction false} RetrySpacing(c: Scheduler, times: seq<U64>)
    requires FailingRun(c, times) && Consistent(c) && !c.suspended && times != []
    ensures c.failures + |times| <= FAILURE_LIMIT
    ensures var d := AfterFailures(c, times);
      var n := c.failures + |times|;
      && d.pending == c.pending && d.failures == n
      && (n < FAILURE_LIMIT ==> !d.suspended && d.deadline == Some(Later(times[|times| - 1], RETRY_BASE_MS * Pow2(n - 1))))
      && (n == FAILURE_LIMIT ==> d.suspended && d.deadline == None)
    decreases |times|
  {
    if c.failures + 1 < FAILURE_LIMIT {
      RetryStaysBelowCap(c.failures + 1);
    }
    var d := RecordFailure(c, times[0]);
    if |times| > 1 {
      assert times[1..][0] == times[1];
      assert Due(d, times[1]);
      RetrySpacing(d, times[1..]);
      assert times[1..][|times| - 2] == times[|times| - 1];
    }
  }

  /** What the task is told to do: it is woken exactly when the snapshot becomes due;
      while no computer is connected every due snapshot is written, and otherwise only
      a critical one that is overdue by the limit. */
  lemma EvaluateIsExact(policy: Policy, c: Scheduler, now: U64, activeBle: nat)
    requires Consistent(c) && !c.suspended
    ensures var a := Evaluate(policy, c, now, activeBle);
      && (a.AwaitCommand? <==> c.pending.None?)
      && (a.WaitForDeadline? <==> c.pending.Some? && !Due(c, now))
      && (a.WaitForDeadline? ==> a.delay > 0 && forall t: U64 :: Due(c, t) <==> t >= now + a.delay)
      && (a.QuiesceAndPersist? <==>
            Due(c, now) && (activeBle == 0
                            || (c.priority == Some(Critical) && now >= c.deadline.value + policy.criticalForceQuiesceMs)))
      && (a == QuiesceAndPersist(true) ==> activeBle > 0)
      && (a.DeferForActiveBle? ==> activeBle > 0 && a.delay == policy.activeBleRetryMs)
  {
  }

  /** While retrying is suspended, the task asks for nothing. */
  lemma SuspendedAsksNothing(c: Scheduler, policy: Policy, now: U64, activeBle: nat)
    requires c.suspended
    ensures Evaluate(policy, c, now, activeBle) == AwaitCommand
  {
  }

  /** A scheduled attempt does something exactly when it is due: whether retrying
      is suspended does not matter to it. */
  lemma AttemptActsIff(c: Scheduler, now: U64, succeeds: bool)
    ensures PersistDue(c, now, succeeds) == c <==> !Due(c, now)
  {
  }

  /** Suspended, with nothing scheduled: the state after the last failure. */
  predicate Dormant(c: Scheduler) {
    c.suspended && c.deadline.None? && c.pending.Some?
  }

  /** The operation schedules a snapshot anew, or gets one written out of turn. */
  predicate Wakes(c: Scheduler, op: Op) {
    match op
    case StageOp(_, _, _) => true
    case QuiesceOp(s, _) => !SamePending(c, s)
    case AttemptOp(_, _) => false
    case FlushOp(succeeds) => succeeds
  }

  lemma DormantStepIff(c: Scheduler, op: Op)
    requires Dormant(c)
    ensures Dormant(Apply(c, op)) <==> !Wakes(c, op)
    ensures op.AttemptOp? ==> Apply(c, op) == c
  {
  }

  /** Dormant at the start and after every operation. */
  predicate StaysDormant(c: Scheduler, ops: seq<Op>) {
    Dormant(Run(c, ops)) && (ops == [] || StaysDormant(c, ops[..|ops| - 1]))
  }

  predicate NeverWoken(c: Scheduler, ops: seq<Op>) {
    ops == [] ||
    (NeverWoken(c, ops[..|ops| - 1]) && !Wakes(Run(c, ops[..|ops| - 1]), ops[|ops| - 1]))
  }

  /** Over every run after a suspension: it lasts, and no attempt does anything,
      exactly as long as no operation wakes it. */
  lemma {:induction false} DormantRunIff(c: Scheduler, ops: seq<Op>)
    requires Dormant(c)
    ensures StaysDormant(c, ops) <==> NeverWoken(c, ops)
    decreases |ops|
  {
    if ops != [] {
      var before := ops[..|ops| - 1];
      DormantRunIff(c, before);
      if StaysDormant(c, before) {
        DormantStepIff(Run(c, before), ops[|ops| - 1]);
      }
    }
  }

  /** Suspended does not mean silent: staging the same generation again sets a
      deadline and keeps the suspension, and the attempt that is then due writes. */
  lemma SuspendedCanWrite(normal: U64, lazy: U64, s: StorageState)
    ensures var c0 := Stage(Idle(normal, lazy), s, Critical, 0);
      var c1 := PersistDue(c0, 0, false);
      var c2 := PersistDue(c1, 1_000, false);
      var c3 := PersistDue(c2, 3_000, false);
      var c4 := PersistDue(c3, 7_000, false);
      var c5 := PersistDue(c4, 15_000, false);
      var c6 := PersistDue(c5, 31_000, false);
      var d := Stage(c6, s, Critical, 40_000);
      && Dormant(c6) && d.suspended && Due(d, 40_000)
      && PersistDue(d, 40_000, true) == Idle(normal, lazy)
  {
    assert Pow2(0) == 1 && Pow2(1) == 2 && Pow2(2) == 4 && Pow2(3) == 8 && Pow2(4) == 16;
    assert RetryDelay(1) == 1_000 && RetryDelay(2) == 2_000 && RetryDelay(3) == 4_000;
    assert RetryDelay(4) == 8_000 && RetryDelay(5) == 16_000;
  }

  // --------------------------------------------------- bounded response

  /** Operations that neither write, fail, nor ask critically again. */
  ghost predicate Calm(c: Scheduler, op: Op) {
    match op
    case StageOp(s, p, now) => p != Critical
    case QuiesceOp(s, now) => SamePending(c, s)
    case AttemptOp(now, succeeds) => !Due(c, now)
    case FlushOp(succeeds) => !succeeds
  }

  ghost predicate CalmRun(c: Scheduler, ops: seq<Op>) {
    forall i :: 0 <= i < |ops| ==> Calm(Run(c, ops[..i]), ops[i])
  }

  lemma {:induction false} CalmKeepsCritical(c: Scheduler, ops: seq<Op>)
    requires CalmRun(c, ops)
    requires c.pending.Some? && c.priority == Some(Critical) && !c.suspended && c.deadline.Some?
    ensures var d := Run(c, ops);
      d.pending.Some? && d.priority == Some(Critical) && !d.suspended && d.deadline.Some? && d.deadline.value <= c.deadline.value
    decreases |ops|
  {
    if ops != [] {
      var n := |ops| - 1;
      assert forall i :: 0 <= i < n ==> ops[..n][i] == ops[i] && ops[..n][..i] == ops[..i];
      assert Calm(Run(c, ops[..n]), ops[n]);
      CalmKeepsCritical(c, ops[..n]);
    }
  }

  /** A pending critical snapshot is written, whatever the radio does, from its
      deadline plus the force limit on. */
  lemma CriticalIsForced(c: Scheduler, ops: seq<Op>, policy: Policy, now: U64, activeBle: nat)
    requires CalmRun(c, ops)
    requires c.pending.Some? && c.priority == Some(Critical) && !c.suspended && c.deadline.Some?
    requires now >= c.deadline.value + policy.criticalForceQuiesceMs
    ensures Evaluate(policy, Run(c, ops), now, activeBle).QuiesceAndPersist?
  {
    CalmKeepsCritical(c, ops);
  }

  /** Counted from the moment of the critical stage: unless retrying stays suspended
      on the same snapshot, it is written from that moment plus the force limit on. */
  lemma CriticalStageIsForced(c: Scheduler, s: StorageState, staged: U64, ops: seq<Op>, policy: Policy, now: U64,
                              activeBle: nat)
    requires !(SamePending(c, s) && c.suspended)
    requires CalmRun(Stage(c, s, Critical, staged), ops) && now >= staged + policy.criticalForceQuiesceMs
    ensures Evaluate(policy, Run(Stage(c, s, Critical, staged), ops), now, activeBle).QuiesceAndPersist?
  {
    CriticalIsDueAtOnce(c, s, staged);
    CriticalIsForced(Stage(c, s, Critical, staged), ops, policy, now, activeBle);
  }
}
