/**
 The overshoot bound is reached, in every dimension: for every number of overlapping Creates there is a run
 that ends exactly at the limit plus one largest request for each call but one.
 */
module ComputeOvershoot {
  import opened Lifecycle
  import opened ComputeTables
  import opened ComputeSpec
  import opened ComputeRuns
  import opened ComputeTheorems
  import opened ComputeTick
  import opened ComputeQuota

  /** Whose limit is to be overrun, in which dimension, and by requests of at most `most`. */
  datatype Goal = Goal(org: int, dim: Dimension, limit: int, most: int)

  /** An instance counts as one whatever its size. */
  predicate Possible(g: Goal) {
    1 <= g.most <= g.limit && (g.dim.Count? ==> g.most == 1)
  }

  /** The organization and the region that the calls below charge. */
  predicate Charged(g: Goal, scope: Scope) {
    scope == Org(g.org) || scope == Region(DEFAULT_REGION)
  }

  /** How many requests of at most `most` it takes to ask for n. */
  function Calls(n: nat, most: int): nat
    requires most >= 1
  {
    if n == 0 then 0 else 1 + Calls(if n <= most then 0 else n - most, most)
  }

  /** Room for `limit` in the dimension, and in the others for one unit of each instance stored before the
      calls overlap, and of one more. */
  ghost predicate Roomy(cfg: Config, g: Goal)
    requires Possible(g)
  {
    && DEFAULT_REGION in cfg.capacities
    && forall scope, d :: Charged(g, scope) && Limited(cfg, scope, d) ==>
         Limit(cfg, scope, d) >= if d == g.dim then g.limit else Calls(g.limit - g.most, g.most) + 1
  }

  /** So much in the dimension and one unit in the others. */
  function SizeIn(dim: Dimension, each: int): Size {
    match dim
    case Count => Size(1, 1, 1)
    case Cpu => Size(each, 1, 1)
    case Memory => Size(1, each, 1)
    case Disk => Size(1, 1, each)
  }

  function Ask(dim: Dimension, each: int): CreateRequest {
    var size := SizeIn(dim, each);
    CreateRequest("", size.cpu, size.memory, size.disk)
  }

  lemma AskedSize(g: Goal, each: int)
    requires Possible(g) && 1 <= each <= g.most
    ensures SizeOf(Ask(g.dim, each)) == SizeIn(g.dim, each) && RegionOf(Ask(g.dim, each)) == DEFAULT_REGION
    ensures forall d :: Amount(SizeIn(g.dim, each), d) == if d == g.dim then each else 1
  {
  }

  /** So much is in use by n rows with one unit each in the other dimensions. */
  ghost predicate Uses(rows: seq<Row>, g: Goal, used: int, n: int) {
    forall scope, d :: Charged(g, scope) ==> Usage(rows, scope, d) == if d == g.dim then used else n
  }

  /** `done` calls are over, and `open` calls for `each` are provisioned, with their own positions for provider
      ids. */
  ghost predicate Stage(s: State, g: Goal, done: nat, open: nat, each: int, used: int) {
    && |s.calls| == done + open
    && (forall c :: 0 <= c < done ==> s.calls[c].phase.Done?)
    && (forall c :: done <= c < done + open ==>
          s.calls[c] == CreateCall(g.org, DEFAULT_REGION, SizeIn(g.dim, each), Provisioned(c)))
    && (forall pid :: pid in s.t.records ==> pid < done + open)
    && (forall i :: 0 <= i < |s.t.rows| ==> s.t.rows[i].pid < done + open)
    && (forall scope :: Charged(g, scope) ==> OpenCount(s.calls, scope) == open)
    && Uses(s.t.rows, g, used, done)
  }

  /** Within k and `most` for the organization and the region alike. */
  ghost predicate Within(cfg: Config, s: State, steps: seq<Step>, g: Goal, k: int) {
    NoRequests(steps) && forall scope :: Charged(g, scope) ==> RunWithin(cfg, s, steps, scope, g.dim, k, g.most)
  }

  lemma WithinOneMore(cfg: Config, s: State, steps: seq<Step>, step: Step, g: Goal, k: int)
    requires Within(cfg, s, steps, g, k) && !step.UserRequest?
    requires forall scope :: Charged(g, scope) ==> StepWithin(cfg, Run(cfg, s, steps), step, scope, g.dim, k, g.most)
    ensures Within(cfg, s, steps + [step], g, k)
    ensures Run(cfg, s, steps + [step]) == Next(cfg, Run(cfg, s, steps), step)
  {
    var all := steps + [step];
    assert all[..|steps|] == steps;
    forall scope, m | Charged(g, scope) && 0 <= m < |all|
      ensures StepWithin(cfg, Run(cfg, s, all[..m]), all[m], scope, g.dim, k, g.most)
    {
      if m < |steps| {
        assert all[..m] == steps[..m];
        assert RunWithin(cfg, s, steps, scope, g.dim, k, g.most);
      }
    }
  }

  // ----- one call -----

  lemma FitsInRoom(cfg: Config, rows: seq<Row>, g: Goal, each: int, used: int, n: int)
    requires Possible(g) && Roomy(cfg, g) && Uses(rows, g, used, n) && 1 <= each <= g.most
    requires used + each <= g.limit && n <= Calls(g.limit - g.most, g.most)
    ensures forall scope :: Charged(g, scope) ==> Fits(cfg, rows, scope, SizeIn(g.dim, each))
  {
    AskedSize(g, each);
  }

  lemma OneMoreCall(calls: seq<CreateCall>, g: Goal, each: int, phase: Phase, scope: Scope)
    requires Charged(g, scope)
    ensures var count := OpenCount(calls + [CreateCall(g.org, DEFAULT_REGION, SizeIn(g.dim, each), phase)], scope);
            && count <= OpenCount(calls, scope) + 1
            && (!phase.Done? && !phase.QuotaChecked? ==> count == OpenCount(calls, scope) + 1)
  {
    CallsAppend(calls, CreateCall(g.org, DEFAULT_REGION, SizeIn(g.dim, each), phase), scope, g.dim);
  }

  /** One more call gets as far as its provisioning. */
  lemma OpenOne(cfg: Config, s: State, g: Goal, done: nat, open: nat, each: int, used: int)
    requires Possible(g) && 1 <= each <= g.most && DEFAULT_REGION in cfg.capacities
    requires Stage(s, g, done, open, each, used)
    requires forall scope :: Charged(g, scope) ==> Fits(cfg, s.t.rows, scope, SizeIn(g.dim, each))
    ensures var c := done + open;
            var s1 := Next(cfg, s, BeginCreate(true, g.org, Ask(g.dim, each)));
            var s2 := Next(cfg, s1, CheckCapacity(c));
            var s3 := Next(cfg, s2, Provision(c, c));
            && (forall scope :: Charged(g, scope) ==> OpenCount(s1.calls, scope) <= open + 1)
            && (forall scope :: Charged(g, scope) ==> OpenCount(s2.calls, scope) <= open + 1)
            && Stage(s3, g, done, open + 1, each, used)
  {
    var c := done + open;
    var size := SizeIn(g.dim, each);
    assert Charged(g, Org(g.org)) && Charged(g, Region(DEFAULT_REGION));
    AskedSize(g, each);
    var call := CreateCall(g.org, DEFAULT_REGION, size, QuotaChecked);
    var s1 := Next(cfg, s, BeginCreate(true, g.org, Ask(g.dim, each)));
    assert s1 == s.(calls := s.calls + [call]);
    var s2 := Next(cfg, s1, CheckCapacity(c));
    assert s2 == s.(calls := s.calls + [call.(phase := CapacityChecked)]);
    var s3 := Next(cfg, s2, Provision(c, c));
    assert Fresh(s2, c);
    assert s3.calls == s.calls + [call.(phase := Provisioned(c))];
    forall scope | Charged(g, scope)
      ensures OpenCount(s1.calls, scope) <= open + 1 && OpenCount(s2.calls, scope) <= open + 1
      ensures OpenCount(s3.calls, scope) == open + 1
    {
      OneMoreCall(s.calls, g, each, QuotaChecked, scope);
      OneMoreCall(s.calls, g, each, CapacityChecked, scope);
      OneMoreCall(s.calls, g, each, Provisioned(c), scope);
    }
  }

  /** A run may open one more call, if so many may overlap. */
  lemma RunOpensOne(cfg: Config, s: State, before: seq<Step>, g: Goal, k: int,
                    done: nat, open: nat, each: int, used: int)
    returns (steps: seq<Step>)
    requires Within(cfg, s, before, g, k) && Stage(Run(cfg, s, before), g, done, open, each, used)
    requires Possible(g) && Roomy(cfg, g) && 1 <= each <= g.most && open < k
    requires used + each <= g.limit && done <= Calls(g.limit - g.most, g.most)
    ensures Within(cfg, s, steps, g, k) && Stage(Run(cfg, s, steps), g, done, open + 1, each, used)
  {
    var c := done + open;
    FitsInRoom(cfg, Run(cfg, s, before).t.rows, g, each, used, done);
    OpenOne(cfg, Run(cfg, s, before), g, done, open, each, used);
    AskedSize(g, each);
    var begin := BeginCreate(true, g.org, Ask(g.dim, each));
    WithinOneMore(cfg, s, before, begin, g, k);
    WithinOneMore(cfg, s, before + [begin], CheckCapacity(c), g, k);
    WithinOneMore(cfg, s, before + [begin] + [CheckCapacity(c)], Provision(c, c), g, k);
    steps := before + [begin] + [CheckCapacity(c)] + [Provision(c, c)];
  }

  lemma OneMoreRow(rows: seq<Row>, row: Row, g: Goal, each: int, used: int, n: int)
    requires Possible(g) && 1 <= each <= g.most && Uses(rows, g, used, n)
    requires row.org == g.org && row.region == DEFAULT_REGION && !row.status.Terminated?
    requires row.size == SizeIn(g.dim, each)
    ensures Uses(rows + [row], g, used + each, n + 1)
  {
    AskedSize(g, each);
    forall scope, d | Charged(g, scope)
      ensures Usage(rows + [row], scope, d) == if d == g.dim then used + each else n + 1
    {
      UsageAppend(rows, row, scope, d);
    }
  }

  /** The first of the open calls stores its row. */
  lemma CloseOne(cfg: Config, s: State, g: Goal, done: nat, open: nat, each: int, used: int)
    requires Possible(g) && 1 <= each <= g.most && Stage(s, g, done, open, each, used) && open >= 1
    ensures Stage(Next(cfg, s, Finish(done, Stored)), g, done + 1, open - 1, each, used + each)
  {
    var s' := Next(cfg, s, Finish(done, Stored));
    OneMoreRow(s.t.rows, NewRow(s.calls[done]), g, each, used, done);
    forall scope | Charged(g, scope)
      ensures OpenCount(s'.calls, scope) == open - 1
    {
      CallsUpdate(s.calls, done, s'.calls[done], scope, g.dim);
    }
  }

  lemma RunClosesOne(cfg: Config, s: State, before: seq<Step>, g: Goal, k: int,
                     done: nat, open: nat, each: int, used: int)
    returns (steps: seq<Step>)
    requires Within(cfg, s, before, g, k) && Stage(Run(cfg, s, before), g, done, open, each, used)
    requires Possible(g) && 1 <= each <= g.most && 1 <= open <= k
    ensures Within(cfg, s, steps, g, k) && Stage(Run(cfg, s, steps), g, done + 1, open - 1, each, used + each)
  {
    CloseOne(cfg, Run(cfg, s, before), g, done, open, each, used);
    WithinOneMore(cfg, s, before, Finish(done, Stored), g, k);
    steps := before + [Finish(done, Stored)];
  }

  // ----- filling up and overlapping -----

  /** With no call open, what the next ones will ask for is still open. */
  lemma NextMayAsk(s: State, g: Goal, done: nat, each: int, used: int, next: int)
    requires Stage(s, g, done, 0, each, used)
    ensures Stage(s, g, done, 0, next, used)
  {
  }

  /** One call after the other, until n is in use. */
  lemma {:induction false} Fill(cfg: Config, boot: int, g: Goal, k: int, n: nat, each: int) returns (steps: seq<Step>)
    requires Possible(g) && Roomy(cfg, g) && 1 <= k
    requires n <= g.limit - g.most && Calls(n, g.most) <= Calls(g.limit - g.most, g.most)
    ensures Within(cfg, Boot(boot), steps, g, k)
    ensures Stage(Run(cfg, Boot(boot), steps), g, Calls(n, g.most), 0, each, n)
    decreases n
  {
    if n == 0 {
      steps := [];
    } else {
      var last := if n <= g.most then n else g.most;
      var done := Calls(n - last, g.most);
      var before := Fill(cfg, boot, g, k, n - last, last);
      var under := RunOpensOne(cfg, Boot(boot), before, g, k, done, 0, last, n - last);
      steps := RunClosesOne(cfg, Boot(boot), under, g, k, done, 1, last, n - last);
      NextMayAsk(Run(cfg, Boot(boot), steps), g, done + 1, last, n, each);
    }
  }

  /** Then calls for `most` each, all of which pass their checks before any stores its row. */
  lemma {:induction false} Overlap(cfg: Config, boot: int, g: Goal, k: int, open: nat) returns (steps: seq<Step>)
    requires Possible(g) && Roomy(cfg, g) && 1 <= k && open <= k
    ensures Within(cfg, Boot(boot), steps, g, k)
    ensures Stage(Run(cfg, Boot(boot), steps), g, Calls(g.limit - g.most, g.most), open, g.most, g.limit - g.most)
    decreases open
  {
    if open == 0 {
      steps := Fill(cfg, boot, g, k, g.limit - g.most, g.most);
    } else {
      var before := Overlap(cfg, boot, g, k, open - 1);
      steps := RunOpensOne(cfg, Boot(boot), before, g, k, Calls(g.limit - g.most, g.most), open - 1, g.most,
                           g.limit - g.most);
    }
  }

  /** And then they store their rows. */
  lemma {:induction false} Pile(cfg: Config, boot: int, g: Goal, k: nat, stored: nat) returns (steps: seq<Step>)
    requires Possible(g) && Roomy(cfg, g) && 1 <= k && stored <= k
    ensures Within(cfg, Boot(boot), steps, g, k)
    ensures Stage(Run(cfg, Boot(boot), steps), g, Calls(g.limit - g.most, g.most) + stored, k - stored, g.most,
                  g.limit - g.most + stored * g.most)
    decreases stored
  {
    if stored == 0 {
      steps := Overlap(cfg, boot, g, k, k);
    } else {
      var before := Pile(cfg, boot, g, k, stored - 1);
      steps := RunClosesOne(cfg, Boot(boot), before, g, k, Calls(g.limit - g.most, g.most) + stored - 1,
                            k - stored + 1, g.most, g.limit - g.most + (stored - 1) * g.most);
      assert (stored - 1) * g.most + g.most == stored * g.most;
    }
  }

  /** For every k the overshoot bound is reached, by a run within k and `most` in which nothing is cut, lost or
      terminated: limit + (k - 1) * most is in use, by the organization and in the region. */
  lemma BoundIsReached(cfg: Config, boot: int, g: Goal, k: nat) returns (steps: seq<Step>)
    requires Possible(g) && Roomy(cfg, g) && 1 <= k
    ensures NoRequests(steps)
    ensures forall scope :: Charged(g, scope) ==>
              && RunWithin(cfg, Boot(boot), steps, scope, g.dim, k, g.most)
              && Usage(Run(cfg, Boot(boot), steps).t.rows, scope, g.dim) == g.limit + (k - 1) * g.most
  {
    steps := Pile(cfg, boot, g, k, k);
    assert k * g.most == (k - 1) * g.most + g.most;
  }

  // ----- when the limit itself holds -----

  /** Usage is within the limit after every run in which at most k Creates overlap. */
  ghost predicate HoldsOnAllRuns(cfg: Config, boot: int, scope: Scope, g: Goal, k: int) {
    forall steps :: RunWithin(cfg, Boot(boot), steps, scope, g.dim, k, g.most) ==>
                      Usage(Run(cfg, Boot(boot), steps).t.rows, scope, g.dim) <= g.limit
  }

  lemma HoldsWithoutOverlap(cfg: Config, boot: int, scope: Scope, g: Goal)
    requires Possible(g) && Limited(cfg, scope, g.dim) && Limit(cfg, scope, g.dim) == g.limit
    ensures HoldsOnAllRuns(cfg, boot, scope, g, 1)
  {
    forall steps | RunWithin(cfg, Boot(boot), steps, scope, g.dim, 1, g.most)
      ensures Usage(Run(cfg, Boot(boot), steps).t.rows, scope, g.dim) <= g.limit
    {
      OvershootBound(cfg, boot, steps, scope, g.dim, 1, g.most);
    }
  }

  lemma OvershootIsPositive(k: nat, most: int)
    requires 1 <= most && 2 <= k
    ensures (k - 1) * most >= 1
  {
  }

  lemma RefutesLimit(cfg: Config, boot: int, scope: Scope, g: Goal, k: int, steps: seq<Step>)
    requires RunWithin(cfg, Boot(boot), steps, scope, g.dim, k, g.most)
    requires Usage(Run(cfg, Boot(boot), steps).t.rows, scope, g.dim) > g.limit
    ensures !HoldsOnAllRuns(cfg, boot, scope, g, k)
  {
  }

  lemma FailsWithOverlap(cfg: Config, boot: int, scope: Scope, g: Goal, k: nat)
    requires Possible(g) && Roomy(cfg, g) && 2 <= k && Charged(g, scope)
    ensures !HoldsOnAllRuns(cfg, boot, scope, g, k)
  {
    var steps := BoundIsReached(cfg, boot, g, k);
    OvershootIsPositive(k, g.most);
    RefutesLimit(cfg, boot, scope, g, k, steps);
  }

  /** The limit itself holds on all runs in which at most k Creates overlap exactly when they do not. */
  lemma LimitHoldsExactlyWhen(cfg: Config, boot: int, scope: Scope, g: Goal, k: nat)
    requires Possible(g) && Roomy(cfg, g) && 1 <= k && Charged(g, scope)
    requires Limited(cfg, scope, g.dim) && Limit(cfg, scope, g.dim) == g.limit
    ensures HoldsOnAllRuns(cfg, boot, scope, g, k) <==> k == 1
  {
    if k == 1 {
      HoldsWithoutOverlap(cfg, boot, scope, g);
    } else {
      FailsWithOverlap(cfg, boot, scope, g, k);
    }
  }

  // ----- the default quota -----

  const SEEDED := Config(Delays(5, 3), map[], map["us-east-1" := Size(64, 131072, 2000)])

  /** The default quota of one dimension, for requests that need at most 16 calls to use it up, which is as many
      as its 16 cores allow. Its 20 instances need more. */
  predicate DefaultGoal(g: Goal) {
    match g.dim
    case Count => false
    case Cpu => g.limit == 16 && 1 <= g.most <= 16
    case Memory => g.limit == 32768 && 2048 <= g.most <= 32768
    case Disk => g.limit == 500 && 32 <= g.most <= 500
  }

  lemma {:induction false} CallsAtMost(n: nat, most: int, calls: nat)
    requires most >= 1 && n <= calls * most
    ensures Calls(n, most) <= calls
    decreases n
  {
    if n > most {
      assert n - most <= (calls - 1) * most;
      CallsAtMost(n - most, most, calls - 1);
    } else if n > 0 {
      assert calls >= 1;
    }
  }

  lemma DefaultIsRoomy(g: Goal)
    requires DefaultGoal(g)
    ensures Possible(g) && Roomy(SEEDED, g) && Limit(SEEDED, Org(g.org), g.dim) == g.limit
  {
    CallsAtMost(g.limit - g.most, g.most, 15);
  }

  /** An organization with the default quota stays within it exactly when its Creates do not overlap. */
  lemma DefaultQuotaHoldsExactlyWhen(boot: int, g: Goal, k: nat)
    requires DefaultGoal(g) && 1 <= k
    ensures HoldsOnAllRuns(SEEDED, boot, Org(g.org), g, k) <==> k == 1
  {
    DefaultIsRoomy(g);
    LimitHoldsExactlyWhen(SEEDED, boot, Org(g.org), g, k);
  }

  /** Two overlapping Creates, each within quota when checked, reach exactly the bound: 32 cores. */
  lemma TwoOverlappingCreatesExceedQuota() returns (steps: seq<Step>)
    ensures NoRequests(steps)
    ensures QuotaOf(SEEDED, 1).cpu == 16
    ensures RunWithin(SEEDED, Boot(0), steps, Org(1), Cpu, 2, 16)
    ensures Usage(Run(SEEDED, Boot(0), steps).t.rows, Org(1), Cpu) == 32
  {
    var g := Goal(1, Cpu, 16, 16);
    DefaultIsRoomy(g);
    steps := BoundIsReached(SEEDED, 0, g, 2);
    assert Charged(g, Org(1));
  }
}
