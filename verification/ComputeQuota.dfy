/**
 Usage over whole runs: the ledger of what each step adds and releases, and how far overlapping Create
 calls can push active usage past a quota or a region's capacity.
 */
module ComputeQuota {
  import opened Sums
  import opened Lifecycle
  import opened ComputeTables
  import opened ComputeSpec
  import opened ComputeRuns

  // ----- the ledger -----

  /** What a step inserts into a scope: the request of a Create whose insert succeeds. */
  function Inserted(s: State, step: Step, scope: Scope, dim: Dimension): int {
    if step.Finish? && step.result.Stored? && step.call < |s.calls| && s.calls[step.call].phase.Provisioned?
       && InScope(scope, s.calls[step.call].org, s.calls[step.call].region)
    then Amount(s.calls[step.call].size, dim) else 0
  }

  /** What a step releases: the listed row, when the reconciler writes that it is terminated. */
  function Released(s: State, step: Step, scope: Scope, dim: Dimension): int {
    if step.WriteView? && step.ok && s.listed != [] && s.listed[0].id < |s.t.rows| && s.glance == Seen([Terminated])
       && InScope(scope, s.t.rows[s.listed[0].id].org, s.t.rows[s.listed[0].id].region)
    then Amount(s.t.rows[s.listed[0].id].size, dim) else 0
  }

  /** A status change other than to or from Terminated moves no sum. */
  lemma StatusUsage(rows: seq<Row>, id: nat, status: Status, scope: Scope, dim: Dimension)
    requires id < |rows| && !rows[id].status.Terminated?
    ensures Usage(SetStatus(rows, id, status), scope, dim)
         == Usage(rows, scope, dim) - if status.Terminated? then Charge(rows[id], scope, dim) else 0
  {
    UsageUpdate(rows, id, rows[id].(status := status), scope, dim);
  }

  lemma WriteLedger(cfg: Config, s: State, step: Step, scope: Scope, dim: Dimension)
    requires Sane(s) && step.WriteView?
    ensures Usage(Next(cfg, s, step).t.rows, scope, dim)
         == Usage(s.t.rows, scope, dim) - Released(s, step, scope, dim)
  {
    if s.glance.Seen? && s.glance.write != [] {
      var write := s.glance.write;
      StatusUsage(s.t.rows, s.listed[0].id, write[0], scope, dim);
      assert write == [Terminated] <==> write[0].Terminated?;
    }
  }

  lemma FinishLedger(cfg: Config, s: State, step: Step, scope: Scope, dim: Dimension)
    requires step.Finish?
    ensures Usage(Next(cfg, s, step).t.rows, scope, dim)
         == Usage(s.t.rows, scope, dim) + Inserted(s, step, scope, dim)
  {
    if step.call < |s.calls| && s.calls[step.call].phase.Provisioned? && step.result.Stored? {
      UsageAppend(s.t.rows, NewRow(s.calls[step.call]), scope, dim);
    }
  }

  /** Conservation, step by step, cuts and races included: usage changes by exactly what is inserted and released. */
  lemma StepLedger(cfg: Config, s: State, step: Step, scope: Scope, dim: Dimension)
    requires Sane(s)
    ensures Usage(Next(cfg, s, step).t.rows, scope, dim)
         == Usage(s.t.rows, scope, dim) + Inserted(s, step, scope, dim) - Released(s, step, scope, dim)
  {
    match step
    case Finish(_, _) => FinishLedger(cfg, s, step, scope, dim);
    case WriteView(_) => WriteLedger(cfg, s, step, scope, dim);
    case UserRequest(member, action, org, id, w) =>
      if Next(cfg, s, step).t.rows != s.t.rows {
        StatusUsage(s.t.rows, id, TargetStatus(action), scope, dim);
      }
    case _ =>
  }

  ghost function TotalInserted(cfg: Config, s: State, steps: seq<Step>, scope: Scope, dim: Dimension): int {
    if steps == [] then 0 else
    var n := |steps| - 1;
    TotalInserted(cfg, s, steps[..n], scope, dim) + Inserted(Run(cfg, s, steps[..n]), steps[n], scope, dim)
  }

  ghost function TotalReleased(cfg: Config, s: State, steps: seq<Step>, scope: Scope, dim: Dimension): int {
    if steps == [] then 0 else
    var n := |steps| - 1;
    TotalReleased(cfg, s, steps[..n], scope, dim) + Released(Run(cfg, s, steps[..n]), steps[n], scope, dim)
  }

  /** Over a whole run, active usage is everything inserted less everything terminated. */
  lemma {:induction false} UsageIsInsertedLessReleased(cfg: Config, boot: int, steps: seq<Step>, scope: Scope,
                                                       dim: Dimension)
    ensures Usage(Run(cfg, Boot(boot), steps).t.rows, scope, dim)
         == TotalInserted(cfg, Boot(boot), steps, scope, dim) - TotalReleased(cfg, Boot(boot), steps, scope, dim)
  {
    if steps != [] {
      var n := |steps| - 1;
      UsageIsInsertedLessReleased(cfg, boot, steps[..n], scope, dim);
      RunKeepsSane(cfg, Boot(boot), steps[..n]);
      StepLedger(cfg, Run(cfg, Boot(boot), steps[..n]), steps[n], scope, dim);
    }
  }

  // ----- overlapping Creates -----

  /** A call that has passed its check of the scope and may still insert its row. */
  predicate Open(c: CreateCall, scope: Scope) {
    && InScope(scope, c.org, c.region)
    && match c.phase
       case QuotaChecked => scope.Org?
       case CapacityChecked => true
       case Provisioned(_) => true
       case Done => false
  }

  function OpenFlags(calls: seq<CreateCall>, scope: Scope): seq<int> {
    seq(|calls|, i requires 0 <= i < |calls| => if Open(calls[i], scope) then 1 else 0)
  }

  /** How many Creates overlap between their check of the scope and their insert. */
  function OpenCount(calls: seq<CreateCall>, scope: Scope): int {
    Sum(OpenFlags(calls, scope))
  }

  function Demand(c: CreateCall, scope: Scope, dim: Dimension): int {
    if Open(c, scope) then Amount(c.size, dim) else 0
  }

  function Demands(calls: seq<CreateCall>, scope: Scope, dim: Dimension): seq<int> {
    seq(|calls|, i requires 0 <= i < |calls| => Demand(calls[i], scope, dim))
  }

  function Outstanding(calls: seq<CreateCall>, scope: Scope, dim: Dimension): int {
    Sum(Demands(calls, scope, dim))
  }

  lemma CallsAppend(calls: seq<CreateCall>, c: CreateCall, scope: Scope, dim: Dimension)
    ensures Outstanding(calls + [c], scope, dim) == Outstanding(calls, scope, dim) + Demand(c, scope, dim)
    ensures OpenCount(calls + [c], scope) == OpenCount(calls, scope) + if Open(c, scope) then 1 else 0
  {
    var flag := if Open(c, scope) then 1 else 0;
    assert Demands(calls + [c], scope, dim) == Demands(calls, scope, dim) + [Demand(c, scope, dim)];
    assert OpenFlags(calls + [c], scope) == OpenFlags(calls, scope) + [flag];
    SumAppend(Demands(calls, scope, dim), Demand(c, scope, dim));
    SumAppend(OpenFlags(calls, scope), flag);
  }

  lemma CallsUpdate(calls: seq<CreateCall>, i: nat, c: CreateCall, scope: Scope, dim: Dimension)
    requires i < |calls|
    ensures Outstanding(calls[i := c], scope, dim)
         == Outstanding(calls, scope, dim) - Demand(calls[i], scope, dim) + Demand(c, scope, dim)
    ensures OpenCount(calls[i := c], scope)
         == OpenCount(calls, scope) - (if Open(calls[i], scope) then 1 else 0) + (if Open(c, scope) then 1 else 0)
  {
    var flag := if Open(c, scope) then 1 else 0;
    assert Demands(calls[i := c], scope, dim) == Demands(calls, scope, dim)[i := Demand(c, scope, dim)];
    assert OpenFlags(calls[i := c], scope) == OpenFlags(calls, scope)[i := flag];
    SumUpdate(Demands(calls, scope, dim), i, Demand(c, scope, dim));
    SumUpdate(OpenFlags(calls, scope), i, flag);
  }

  /** Every call under way asks for at most `most` (and at least 1) in the dimension. */
  ghost predicate Bounded(calls: seq<CreateCall>, dim: Dimension, most: int) {
    forall i :: 0 <= i < |calls| ==> 1 <= Amount(calls[i].size, dim) <= most
  }

  lemma OutstandingBound(calls: seq<CreateCall>, scope: Scope, dim: Dimension, most: int)
    requires Bounded(calls, dim, most)
    ensures Outstanding(calls, scope, dim) <= OpenCount(calls, scope) * most
    ensures Outstanding(calls, scope, dim) >= 0
  {
    var flags, demands := OpenFlags(calls, scope), Demands(calls, scope, dim);
    var caps := seq(|calls|, i requires 0 <= i < |calls| => flags[i] * most);
    var zeros := seq(|calls|, i => 0);
    SumMonotone(demands, caps);
    SumScale(flags, caps, most);
    SumMonotone(zeros, demands);
    SumScale(flags, zeros, 0);
  }

  /** What one step may assume and keep: requests are at most `most`, at most `k` Creates overlap. */
  ghost predicate StepWithin(cfg: Config, s: State, step: Step, scope: Scope, dim: Dimension, k: int, most: int) {
    && OpenCount(Next(cfg, s, step).calls, scope) <= k
    && (step.BeginCreate? ==> Amount(SizeOf(step.req), dim) <= most)
  }

  ghost predicate RunWithin(cfg: Config, s: State, steps: seq<Step>, scope: Scope, dim: Dimension, k: int, most: int) {
    forall n :: 0 <= n < |steps| ==> StepWithin(cfg, Run(cfg, s, steps[..n]), steps[n], scope, dim, k, most)
  }

  ghost predicate Reserved(cfg: Config, s: State, scope: Scope, dim: Dimension, k: int, most: int)
    requires Limited(cfg, scope, dim)
  {
    && Bounded(s.calls, dim, most)
    && (forall i :: 0 <= i < |s.t.rows| ==> 1 <= Amount(s.t.rows[i].size, dim))
    && Usage(s.t.rows, scope, dim) + Outstanding(s.calls, scope, dim) <= Limit(cfg, scope, dim) + (k - 1) * most
  }

  lemma OneMoreReservation(usage: int, outstanding: int, amount: int, limit: int, open: int, k: int, most: int)
    requires usage + amount <= limit && outstanding <= open * most && open + 1 <= k && most >= 1
    ensures usage + outstanding + amount <= limit + (k - 1) * most
  {
    assert open * most <= (k - 1) * most;
  }

  /** A call that passes its check now reserves within the bound: the others open are at most k - 1. */
  lemma CheckedCallReserves(cfg: Config, s: State, calls: seq<CreateCall>, size: Size,
                            scope: Scope, dim: Dimension, k: int, most: int)
    requires Limited(cfg, scope, dim) && Bounded(s.calls, dim, most)
    requires OpenCount(calls, scope) == OpenCount(s.calls, scope) + 1 <= k
    requires Outstanding(calls, scope, dim) == Outstanding(s.calls, scope, dim) + Amount(size, dim)
    requires most >= 1
    requires Fits(cfg, s.t.rows, scope, size)
    ensures Usage(s.t.rows, scope, dim) + Outstanding(calls, scope, dim) <= Limit(cfg, scope, dim) + (k - 1) * most
  {
    OutstandingBound(s.calls, scope, dim, most);
    assert dim in {Count, Cpu, Memory, Disk};
    OneMoreReservation(Usage(s.t.rows, scope, dim), Outstanding(s.calls, scope, dim), Amount(size, dim),
                       Limit(cfg, scope, dim), OpenCount(s.calls, scope), k, most);
  }

  lemma BeginKeepsReserved(cfg: Config, s: State, step: Step, scope: Scope, dim: Dimension, k: int, most: int)
    requires Limited(cfg, scope, dim) && most >= 1
    requires Sane(s) && Reserved(cfg, s, scope, dim, k, most)
    requires StepWithin(cfg, s, step, scope, dim, k, most)
    requires step.BeginCreate?
    ensures Reserved(cfg, Next(cfg, s, step), scope, dim, k, most)
  {
    var s' := Next(cfg, s, step);
    if s'.calls != s.calls {
      var c := CreateCall(step.org, RegionOf(step.req), SizeOf(step.req), QuotaChecked);
      CallsAppend(s.calls, c, scope, dim);
      if Open(c, scope) {
        CheckedCallReserves(cfg, s, s'.calls, c.size, scope, dim, k, most);
      }
    }
  }

  lemma CheckKeepsReserved(cfg: Config, s: State, step: Step, scope: Scope, dim: Dimension, k: int, most: int)
    requires Limited(cfg, scope, dim) && most >= 1
    requires Sane(s) && Reserved(cfg, s, scope, dim, k, most)
    requires StepWithin(cfg, s, step, scope, dim, k, most)
    requires step.CheckCapacity?
    ensures Reserved(cfg, Next(cfg, s, step), scope, dim, k, most)
  {
    var s' := Next(cfg, s, step);
    if s'.calls != s.calls {
      CallsUpdate(s.calls, step.call, s'.calls[step.call], scope, dim);
      if Open(s'.calls[step.call], scope) && !Open(s.calls[step.call], scope) {
        CheckedCallReserves(cfg, s, s'.calls, s.calls[step.call].size, scope, dim, k, most);
      }
    }
  }

  /** Closing a call gives its demand back; what was finished had reserved exactly what it inserts. */
  lemma ClosingFreesDemand(cfg: Config, s: State, step: Step, scope: Scope, dim: Dimension, most: int)
    requires Bounded(s.calls, dim, most)
    requires step.Provision? || step.Finish? || step.AbandonCreate?
    ensures var s' := Next(cfg, s, step);
            && Bounded(s'.calls, dim, most)
            && Outstanding(s'.calls, scope, dim) <= Outstanding(s.calls, scope, dim) - Inserted(s, step, scope, dim)
  {
    var s' := Next(cfg, s, step);
    if s'.calls != s.calls {
      CallsUpdate(s.calls, step.call, s'.calls[step.call], scope, dim);
    }
  }

  /** A reserved call turns its reservation into usage, or gives it back. */
  lemma ClosingKeepsReserved(cfg: Config, s: State, step: Step, scope: Scope, dim: Dimension, k: int, most: int)
    requires Limited(cfg, scope, dim) && most >= 1
    requires Sane(s) && Reserved(cfg, s, scope, dim, k, most)
    requires step.Provision? || step.Finish? || step.AbandonCreate?
    ensures Reserved(cfg, Next(cfg, s, step), scope, dim, k, most)
  {
    StepLedger(cfg, s, step, scope, dim);
    ClosingFreesDemand(cfg, s, step, scope, dim, most);
  }

  lemma StepKeepsReserved(cfg: Config, s: State, step: Step, scope: Scope, dim: Dimension, k: int, most: int)
    requires Limited(cfg, scope, dim) && most >= 1
    requires Sane(s) && Reserved(cfg, s, scope, dim, k, most)
    requires StepWithin(cfg, s, step, scope, dim, k, most)
    ensures Reserved(cfg, Next(cfg, s, step), scope, dim, k, most)
  {
    if step.BeginCreate? {
      BeginKeepsReserved(cfg, s, step, scope, dim, k, most);
    } else if step.CheckCapacity? {
      CheckKeepsReserved(cfg, s, step, scope, dim, k, most);
    } else if step.Provision? || step.Finish? || step.AbandonCreate? {
      ClosingKeepsReserved(cfg, s, step, scope, dim, k, most);
    } else {
      StepLedger(cfg, s, step, scope, dim);
    }
  }

  /** The overshoot bound. If at most k Creates ever overlap between their check of an organization (or
      region) and their insert, and each asks for at most `most`, active usage never exceeds the limit by
      more than (k - 1) * most: exactly the limit for k = 1. Cuts, failures and stale ticks included. */
  lemma {:induction false} OvershootBound(cfg: Config, boot: int, steps: seq<Step>, scope: Scope, dim: Dimension,
                                          k: int, most: int)
    requires Limited(cfg, scope, dim) && 0 <= Limit(cfg, scope, dim) && 1 <= k && 1 <= most
    requires RunWithin(cfg, Boot(boot), steps, scope, dim, k, most)
    ensures Reserved(cfg, Run(cfg, Boot(boot), steps), scope, dim, k, most)
    ensures Usage(Run(cfg, Boot(boot), steps).t.rows, scope, dim) <= Limit(cfg, scope, dim) + (k - 1) * most
  {
    if steps == [] {
      assert 0 <= (k - 1) * most;
    } else {
      var n := |steps| - 1;
      forall m | 0 <= m < n
        ensures StepWithin(cfg, Run(cfg, Boot(boot), steps[..n][..m]), steps[..n][m], scope, dim, k, most)
      {
        assert steps[..n][..m] == steps[..m];
      }
      OvershootBound(cfg, boot, steps[..n], scope, dim, k, most);
      RunKeepsSane(cfg, Boot(boot), steps[..n]);
      assert StepWithin(cfg, Run(cfg, Boot(boot), steps[..n]), steps[n], scope, dim, k, most);
      StepKeepsReserved(cfg, Run(cfg, Boot(boot), steps[..n]), steps[n], scope, dim, k, most);
    }
    OutstandingBound(Run(cfg, Boot(boot), steps).calls, scope, dim, most);
  }
}
