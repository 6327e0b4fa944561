/** What every run of the delivery queue keeps: accounting, the retry schedule, and progress. */
module WebhookTheorems {
  import opened Sums
  import opened Backoff
  import opened WebhookQueue

  // ----- what is listed -----

  /** A listing is current: distinct rows still to be delivered, with the columns as they were listed. */
  ghost predicate Current(s: State) {
    && (forall k :: 0 <= k < |s.listed| ==>
          && s.listed[k].id < |s.q.rows|
          && s.listed[k] == ListedRow(s.q, s.listed[k].id)
          && s.q.rows[s.listed[k].id].status in {Pending, Failed}
          && s.q.rows[s.listed[k].id].next <= s.q.now)
    && (forall j, k :: 0 <= j < k < |s.listed| ==> s.listed[j].id != s.listed[k].id)
  }

  lemma AttemptKeepsCurrent(s: State, step: Step)
    requires Current(s) && step.NextAttempt?
    ensures Current(Next(s, step))
  {
  }

  /** Nobody but the dispatcher changes rows, so its listing stays current whatever comes between attempts. */
  lemma StepKeepsCurrent(s: State, step: Step)
    requires Current(s)
    ensures Current(Next(s, step))
  {
    if step.NextAttempt? {
      AttemptKeepsCurrent(s, step);
    } else if !step.BeginPoll? {
      RowsOnlyGrow(s, step);
    }
  }

  lemma {:induction false} RunKeepsCurrent(s: State, steps: seq<Step>)
    requires Current(s)
    ensures Current(Run(s, steps))
  {
    if steps != [] {
      RunKeepsCurrent(s, steps[..|steps| - 1]);
      StepKeepsCurrent(Run(s, steps[..|steps| - 1]), steps[|steps| - 1]);
    }
  }

  /** All other steps add rows at most, and never move the clock back. */
  lemma RowsOnlyGrow(s: State, step: Step)
    requires !step.NextAttempt?
    ensures var s' := Next(s, step);
            && |s.q.rows| <= |s'.q.rows| && s.q.now <= s'.q.now
            && (forall id :: 0 <= id < |s.q.rows| ==> s'.q.rows[id] == s.q.rows[id])
            && (forall id :: |s.q.rows| <= id < |s'.q.rows| ==>
                  s'.q.rows[id] == NewDelivery(s'.q.rows[id].hook, s'.q.rows[id].maxAttempts, s.q.now))
  {
  }

  lemma {:induction false} RunConcat(s: State, first: seq<Step>, second: seq<Step>)
    ensures Run(s, first + second) == Run(Run(s, first), second)
  {
    if second == [] {
      assert first + second == first;
    } else {
      var n := |second| - 1;
      assert (first + second)[..|first + second| - 1] == first + second[..n];
      RunConcat(s, first, second[..n]);
    }
  }

  // ----- a whole poll is a run -----

  function AttemptSteps(attempts: nat -> Attempt, i: nat, n: nat): seq<Step> {
    seq(n, k requires 0 <= k < n => NextAttempt(attempts(i + k)))
  }

  lemma FirstAttemptStep(attempts: nat -> Attempt, i: nat, n: nat)
    requires n >= 1
    ensures AttemptSteps(attempts, i, n) == [NextAttempt(attempts(i))] + AttemptSteps(attempts, i + 1, n - 1)
  {
  }

  lemma StepThenRun(s: State, first: Step, rest: seq<Step>)
    ensures Run(s, [first] + rest) == Run(Next(s, first), rest)
  {
    assert [first][..0] == [];
    assert Run(s, [first]) == Next(s, first);
    RunConcat(s, [first], rest);
  }

  lemma {:induction false} LoopIsRun(s: State, attempts: nat -> Attempt, i: nat)
    ensures Run(s, AttemptSteps(attempts, i, |s.listed|)) == State(DeliverAll(s.q, s.listed, attempts, i), [])
    decreases |s.listed|
  {
    if s.listed != [] {
      var first := NextAttempt(attempts(i));
      FirstAttemptStep(attempts, i, |s.listed|);
      StepThenRun(s, first, AttemptSteps(attempts, i + 1, |s.listed| - 1));
      LoopIsRun(Next(s, first), attempts, i + 1);
    }
  }

  /** A poll that nothing comes between, as the dispatcher's loop performs it, is one of the runs. */
  lemma PollIsRun(s: State, limit: nat, ids: seq<nat>, attempts: nat -> Attempt)
    requires AnswersListDue(s.q, limit, ids)
    ensures Run(s, [BeginPoll(limit, ids)] + AttemptSteps(attempts, 0, |ids|))
         == State(DeliverAll(s.q, ListedRows(s.q, ids), attempts, 0), [])
  {
    var s1 := Next(s, BeginPoll(limit, ids));
    assert s1 == ListAll(s, ids);
    LoopIsRun(s1, attempts, 0);
    StepThenRun(s, BeginPoll(limit, ids), AttemptSteps(attempts, 0, |ids|));
  }

  // ----- accounting -----

  function DeliveredFlags(rows: seq<Delivery>): seq<int> {
    seq(|rows|, i requires 0 <= i < |rows| => if rows[i].status.Delivered? then 1 else 0)
  }

  function DeliveredCount(rows: seq<Delivery>): int {
    Sum(DeliveredFlags(rows))
  }

  function AttemptCounts(rows: seq<Delivery>): seq<int> {
    seq(|rows|, i requires 0 <= i < |rows| => rows[i].attempts)
  }

  function TotalAttempts(rows: seq<Delivery>): int {
    Sum(AttemptCounts(rows))
  }

  lemma CountsAppend(rows: seq<Delivery>, d: Delivery)
    ensures DeliveredCount(rows + [d]) == DeliveredCount(rows) + if d.status.Delivered? then 1 else 0
    ensures TotalAttempts(rows + [d]) == TotalAttempts(rows) + d.attempts
  {
    var flag := if d.status.Delivered? then 1 else 0;
    assert DeliveredFlags(rows + [d]) == DeliveredFlags(rows) + [flag];
    assert AttemptCounts(rows + [d]) == AttemptCounts(rows) + [d.attempts];
    SumAppend(DeliveredFlags(rows), flag);
    SumAppend(AttemptCounts(rows), d.attempts);
  }

  lemma CountsUpdate(rows: seq<Delivery>, i: nat, d: Delivery)
    requires i < |rows|
    ensures DeliveredCount(rows[i := d])
         == DeliveredCount(rows) - (if rows[i].status.Delivered? then 1 else 0) + (if d.status.Delivered? then 1 else 0)
    ensures TotalAttempts(rows[i := d]) == TotalAttempts(rows) - rows[i].attempts + d.attempts
  {
    var flag := if d.status.Delivered? then 1 else 0;
    assert DeliveredFlags(rows[i := d]) == DeliveredFlags(rows)[i := flag];
    assert AttemptCounts(rows[i := d]) == AttemptCounts(rows)[i := d.attempts];
    SumUpdate(DeliveredFlags(rows), i, flag);
    SumUpdate(AttemptCounts(rows), i, d.attempts);
  }

  lemma {:induction false} CountsAppendFresh(rows: seq<Delivery>, more: seq<Delivery>)
    requires forall k :: 0 <= k < |more| ==> more[k].status.Pending? && more[k].attempts == 0
    ensures DeliveredCount(rows + more) == DeliveredCount(rows) && TotalAttempts(rows + more) == TotalAttempts(rows)
  {
    if more == [] {
      assert rows + more == rows;
    } else {
      var n := |more| - 1;
      CountsAppendFresh(rows, more[..n]);
      CountsAppend(rows + more[..n], more[n]);
      assert rows + more == rows + more[..n] + [more[n]];
    }
  }

  ghost predicate Accounted(q: Queue) {
    && q.counters.delivered == DeliveredCount(q.rows)
    && q.counters.retried + q.counters.failed == TotalAttempts(q.rows)
  }

  lemma AttemptKeepsAccounts(s: State, step: Step)
    requires Current(s) && Accounted(s.q) && step.NextAttempt?
    ensures Accounted(Next(s, step).q)
  {
    var s' := Next(s, step);
    if s'.q.rows != s.q.rows {
      CountsUpdate(s.q.rows, s.listed[0].id, s'.q.rows[s.listed[0].id]);
    }
  }

  /** After every run the delivered counter is the number of delivered rows, and the retried and failed
      counters add up to the attempts of all rows, whichever store writes failed. */
  lemma {:induction false} CountersAccountForRows(boot: int, steps: seq<Step>)
    ensures Accounted(Run(Boot(boot), steps).q)
  {
    if steps != [] {
      var n := |steps| - 1;
      CountersAccountForRows(boot, steps[..n]);
      RunKeepsCurrent(Boot(boot), steps[..n]);
      var s := Run(Boot(boot), steps[..n]);
      match steps[n]
      case Emit(org, event, max) => CountsAppendFresh(s.q.rows, Fanout(s.q.hooks, org, event, max, s.q.now));
      case Ping(id, max) => CountsAppend(s.q.rows, NewDelivery(id, max, s.q.now));
      case NextAttempt(_) => AttemptKeepsAccounts(s, steps[n]);
      case _ =>
    }
  }

  lemma StepKeepsDelivered(s: State, step: Step, id: nat)
    requires Current(s) && id < |s.q.rows| && s.q.rows[id].status.Delivered?
    ensures id < |Next(s, step).q.rows| && Next(s, step).q.rows[id] == s.q.rows[id]
  {
    if !step.NextAttempt? {
      RowsOnlyGrow(s, step);
    }
  }

  lemma {:induction false} RunKeepsDelivered(s: State, steps: seq<Step>, id: nat)
    requires Current(s) && id < |s.q.rows| && s.q.rows[id].status.Delivered?
    ensures id < |Run(s, steps).q.rows| && Run(s, steps).q.rows[id] == s.q.rows[id]
  {
    if steps != [] {
      var n := |steps| - 1;
      RunKeepsDelivered(s, steps[..n], id);
      RunKeepsCurrent(s, steps[..n]);
      StepKeepsDelivered(Run(s, steps[..n]), steps[n], id);
    }
  }

  lemma DeliveredIsNotListed(s: State, id: nat)
    requires Current(s) && id < |s.q.rows| && s.q.rows[id].status.Delivered?
    ensures forall k :: 0 <= k < |s.listed| ==> s.listed[k].id != id
    ensures forall limit, ids :: AnswersListDue(s.q, limit, ids) ==> id !in ids
  {
  }

  /** A delivered row never changes, is not waiting to be attempted, and is in no answer to the due query,
      whatever happens after. */
  lemma DeliveredIsFinal(boot: int, before: seq<Step>, after: seq<Step>, id: nat)
    requires var q := Run(Boot(boot), before).q; id < |q.rows| && q.rows[id].status.Delivered?
    ensures var s, s' := Run(Boot(boot), before), Run(Boot(boot), before + after);
            && id < |s'.q.rows| && s'.q.rows[id] == s.q.rows[id]
            && (forall k :: 0 <= k < |s'.listed| ==> s'.listed[k].id != id)
            && forall limit, ids :: AnswersListDue(s'.q, limit, ids) ==> id !in ids
  {
    RunConcat(Boot(boot), before, after);
    RunKeepsCurrent(Boot(boot), before);
    var s := Run(Boot(boot), before);
    RunKeepsDelivered(s, after, id);
    RunKeepsCurrent(s, after);
    DeliveredIsNotListed(Run(s, after), id);
  }

  // ----- the retry schedule -----

  /** The waits before the n-th retry, added up. */
  function DelaySum(n: nat): int {
    if n == 0 then 0 else DelaySum(n - 1) + Delay(n)
  }

  /** A row within its budget is pending and on schedule; one past its budget is failed. */
  ghost predicate OnSchedule(d: Delivery) {
    && (d.status.Pending? ==> d.attempts < d.maxAttempts && d.next >= d.created + DelaySum(d.attempts))
    && (d.status.Failed? ==> d.attempts >= d.maxAttempts)
  }

  ghost predicate AllOnSchedule(q: Queue) {
    forall id :: 0 <= id < |q.rows| ==> OnSchedule(q.rows[id])
  }

  predicate HasBudget(step: Step) {
    (step.Emit? ==> step.maxAttempts >= 1) && (step.Ping? ==> step.maxAttempts >= 1)
  }

  lemma StepKeepsSchedule(s: State, step: Step)
    requires Current(s) && AllOnSchedule(s.q) && HasBudget(step)
    ensures AllOnSchedule(Next(s, step).q)
  {
    if !step.NextAttempt? {
      RowsOnlyGrow(s, step);
    }
  }

  /** In every run with budgets of at least one attempt: pending means attempts are left, failed means they
      are used up, and a pending row is never due before its creation plus all waits so far. */
  lemma {:induction false} RunKeepsSchedule(boot: int, steps: seq<Step>)
    requires forall n :: 0 <= n < |steps| ==> HasBudget(steps[n])
    ensures AllOnSchedule(Run(Boot(boot), steps).q)
  {
    if steps != [] {
      var n := |steps| - 1;
      RunKeepsSchedule(boot, steps[..n]);
      RunKeepsCurrent(Boot(boot), steps[..n]);
      StepKeepsSchedule(Run(Boot(boot), steps[..n]), steps[n]);
    }
  }

  /** A row before and after its n-th failed attempt at time `now`: within the budget it comes no earlier than
      creation plus the first n - 1 waits; it turns the row failed exactly when n uses up the budget, and
      otherwise waits Delay(n), which is the intended doubling for budgets up to 34. */
  ghost predicate FollowsSchedule(row: Delivery, row': Delivery, now: int) {
    var n := row.attempts + 1;
    && row' == row.(attempts := n, status := row'.status, next := row'.next)
    && (row'.status.Failed? <==> n >= row.maxAttempts)
    && (row.status.Pending? && row'.status.Failed? ==> n == row.maxAttempts)
    && (n <= row.maxAttempts ==> now >= row.created + DelaySum(n - 1))
    && (n < row.maxAttempts ==> row'.status.Pending? && row'.next == now + Delay(n))
    && (n < row.maxAttempts <= 34 ==> row'.next == now + Intended(n))
  }

  /** The dispatcher's next attempt is recorded as failed. */
  predicate FailsNext(s: State, a: Attempt) {
    s.listed != [] && a.stored && !a.ok
  }

  /** What a failed attempt does to a row that was due and on schedule. */
  lemma FailedAttemptFollowsSchedule(s: State, a: Attempt)
    requires Current(s) && AllOnSchedule(s.q) && FailsNext(s, a)
    ensures var s', id := Next(s, NextAttempt(a)), s.listed[0].id;
            FollowsSchedule(s.q.rows[id], s'.q.rows[id], s'.q.now)
  {
    var dl := s.listed[0];
    if dl.attempts + 1 < dl.maxAttempts <= 34 {
      BudgetIsSafeExactlyWhen(dl.maxAttempts);
    }
  }

  /** Every failed attempt of every run follows the schedule, whatever came between it and its listing. */
  lemma FailedAttemptsFollowSchedule(boot: int, steps: seq<Step>, a: Attempt)
    requires forall n :: 0 <= n < |steps| ==> HasBudget(steps[n])
    requires FailsNext(Run(Boot(boot), steps), a)
    ensures var s := Run(Boot(boot), steps);
            var s', id := Next(s, NextAttempt(a)), s.listed[0].id;
            id < |s.q.rows| && FollowsSchedule(s.q.rows[id], s'.q.rows[id], s'.q.now)
  {
    RunKeepsSchedule(boot, steps);
    RunKeepsCurrent(Boot(boot), steps);
    FailedAttemptFollowsSchedule(Run(Boot(boot), steps), a);
  }

  /** Where the budget ends: a recorded failure keeps a row's attempts within its budget exactly when the row
      was pending. The failed rows that the query lists as well always go past it. */
  lemma WithinBudgetExactlyWhenPending(boot: int, steps: seq<Step>, a: Attempt)
    requires forall n :: 0 <= n < |steps| ==> HasBudget(steps[n])
    requires FailsNext(Run(Boot(boot), steps), a)
    ensures var s := Run(Boot(boot), steps);
            var s', id := Next(s, NextAttempt(a)), s.listed[0].id;
            && id < |s.q.rows|
            && (s'.q.rows[id].attempts <= s'.q.rows[id].maxAttempts <==> s.q.rows[id].status.Pending?)
  {
    FailedAttemptsFollowSchedule(boot, steps, a);
    RunKeepsSchedule(boot, steps);
    RunKeepsCurrent(Boot(boot), steps);
  }

  // ----- progress -----

  /** Other rows the query may prefer to x. */
  ghost function Ahead(q: Queue, x: nat): set<nat>
    requires x < |q.rows|
  {
    set id: nat | id < |q.rows| && id != x && Eligible(q, id) && q.rows[id].next <= q.rows[x].next
  }

  ghost predicate IsListed(s: State, id: nat) {
    exists k :: 0 <= k < |s.listed| && s.listed[k].id == id
  }

  /** Those of them that are not listed to be attempted already. */
  ghost function AheadUnlisted(s: State, x: nat): set<nat>
    requires x < |s.q.rows|
  {
    set id: nat | id in Ahead(s.q, x) && !IsListed(s, id)
  }

  /** Every row has a webhook, and a budget that keeps its waits from overflowing. */
  ghost predicate SafeRows(q: Queue) {
    forall id :: 0 <= id < |q.rows| ==> q.rows[id].hook < |q.hooks| && q.rows[id].maxAttempts <= 34
  }

  /** A row that is due, on an active webhook, and not listed yet. */
  ghost predicate Waiting(s: State, x: nat) {
    x < |s.q.rows| && Due(s.q, x) && !IsListed(s, x)
  }

  /** Steps that may happen meanwhile: polls of this limit that really answer the query, each begun when the
      last is done; attempts whose store writes succeed, and new deliveries, in both cases with the clock past
      x's time; no webhook is re-enabled, and x's is not disabled. */
  ghost predicate Fair(s: State, step: Step, x: nat, limit: nat)
    requires x < |s.q.rows|
  {
    var q := s.q;
    match step
    case Register(_) => true
    case Update(id, _, active) =>
      id < |q.hooks| ==> (active ==> q.hooks[id].active) && (id == q.rows[x].hook ==> active)
    case Emit(_, _, max) => max <= 34 && q.rows[x].next < q.now
    case Ping(_, max) => max <= 34 && q.rows[x].next < q.now
    case BeginPoll(l, ids) => s.listed == [] && l == limit && AnswersListDue(q, limit, ids)
    case NextAttempt(a) => a.stored && (s.listed != [] ==> q.rows[x].next < q.now + a.wait)
    case Advance(_) => true
  }

  ghost function IdSet(ids: seq<nat>): set<nat> {
    set id | id in ids
  }

  lemma {:induction false} DistinctIds(ids: seq<nat>)
    requires forall j, k :: 0 <= j < k < |ids| ==> ids[j] != ids[k]
    ensures |IdSet(ids)| == |ids|
  {
    if ids == [] {
      assert IdSet(ids) == {};
    } else {
      var n := |ids| - 1;
      DistinctIds(ids[..n]);
      assert ids == ids[..n] + [ids[n]];
      assert IdSet(ids) == IdSet(ids[..n]) + {ids[n]};
    }
  }

  lemma {:induction false} SubsetSize(a: set<nat>, b: set<nat>)
    requires a <= b
    ensures |a| <= |b|
  {
    if a != {} {
      var e :| e in a;
      SubsetSize(a - {e}, b - {e});
    }
  }

  /** Disjoint parts of a set are together no larger than it. */
  lemma PartsSize(a: set<nat>, b: set<nat>, whole: set<nat>)
    requires a <= whole && b <= whole && a !! b
    ensures |a| + |b| <= |whole|
  {
    assert |a + b| == |a| + |b|;
    SubsetSize(a + b, whole);
  }

  ghost predicate Attempts(s: State, step: Step, x: nat) {
    step.NextAttempt? && s.listed != [] && s.listed[0].id == x
  }

  /** An attempted row is delivered or moves to a time no earlier than its attempt. */
  lemma AttemptedRowMoves(s: State, step: Step)
    requires Current(s) && SafeRows(s.q) && step.NextAttempt? && step.attempt.stored && s.listed != []
    ensures var row := Next(s, step).q.rows[s.listed[0].id];
            row.status.Delivered? || row.next >= s.q.now + step.attempt.wait
  {
    var dl := s.listed[0];
    if dl.attempts + 1 < dl.maxAttempts {
      NoOverflow(dl.attempts + 1);
    }
  }

  lemma StepKeepsSafeRows(s: State, step: Step, x: nat, limit: nat)
    requires SafeRows(s.q) && x < |s.q.rows| && Fair(s, step, x, limit)
    ensures SafeRows(Next(s, step).q)
  {
  }

  lemma ListedTail(s: State, s': State, id: nat)
    requires s.listed != [] && s'.listed == s.listed[1..]
    ensures IsListed(s, id) <==> s.listed[0].id == id || IsListed(s', id)
  {
    if IsListed(s, id) && s.listed[0].id != id {
      var k :| 0 <= k < |s.listed| && s.listed[k].id == id;
      assert s'.listed[k - 1].id == id;
    }
    if IsListed(s', id) {
      var k :| 0 <= k < |s'.listed| && s'.listed[k].id == id;
      assert s.listed[k + 1].id == id;
    }
  }

  /** An attempt on another row leaves x waiting, and puts nothing ahead of it. */
  lemma AttemptKeepsPlace(s: State, step: Step, x: nat, limit: nat)
    requires Waiting(s, x) && Current(s) && SafeRows(s.q) && step.NextAttempt? && Fair(s, step, x, limit)
    ensures var s' := Next(s, step);
            Waiting(s', x) && s'.q.rows[x] == s.q.rows[x] && AheadUnlisted(s', x) <= AheadUnlisted(s, x)
  {
    var s' := Next(s, step);
    if s.listed != [] {
      AttemptedRowMoves(s, step);
      ListedTail(s, s', x);
      forall id | id in AheadUnlisted(s', x)
        ensures id in AheadUnlisted(s, x)
      {
        ListedTail(s, s', id);
      }
    }
  }

  /** So do all steps that are neither attempts nor polls. */
  lemma OtherStepKeepsPlace(s: State, step: Step, x: nat, limit: nat)
    requires Waiting(s, x) && SafeRows(s.q) && Fair(s, step, x, limit) && !step.NextAttempt? && !step.BeginPoll?
    ensures var s' := Next(s, step);
            Waiting(s', x) && s'.q.rows[x] == s.q.rows[x] && AheadUnlisted(s', x) <= AheadUnlisted(s, x)
  {
    var s' := Next(s, step);
    RowsOnlyGrow(s, step);
    assert s'.listed == s.listed;
    forall id | id in AheadUnlisted(s', x)
      ensures id in AheadUnlisted(s, x)
    {
      assert id in Ahead(s.q, x);
    }
  }

  /** A poll that passes x over lists `limit` rows that were ahead of it. */
  lemma PollMovesUp(s: State, step: Step, x: nat, limit: nat)
    requires Waiting(s, x) && Fair(s, step, x, limit) && step.BeginPoll? && !IsListed(Next(s, step), x)
    ensures var s' := Next(s, step);
            Waiting(s', x) && s'.q == s.q && |AheadUnlisted(s', x)| + limit <= |AheadUnlisted(s, x)|
  {
    var s', ids := Next(s, step), step.ids;
    assert forall k :: 0 <= k < |ids| ==> s'.listed[k].id == ids[k] && ids[k] != x;
    forall id | id in IdSet(ids)
      ensures id in AheadUnlisted(s, x) && id !in AheadUnlisted(s', x)
    {
      var k :| 0 <= k < |ids| && ids[k] == id;
      assert s'.listed[k].id == id;
    }
    DistinctIds(ids);
    PartsSize(AheadUnlisted(s', x), IdSet(ids), AheadUnlisted(s, x));
  }

  ghost predicate FairRun(s: State, steps: seq<Step>, x: nat, limit: nat) {
    steps == []
    || (var n := |steps| - 1;
        var before := Run(s, steps[..n]);
        FairRun(s, steps[..n], x, limit) && x < |before.q.rows| && Fair(before, steps[n], x, limit))
  }

  function Polls(steps: seq<Step>): nat {
    if steps == [] then 0 else Polls(steps[..|steps| - 1]) + if steps[|steps| - 1].BeginPoll? then 1 else 0
  }

  /** Some step of the run attempts x. */
  ghost predicate Attempted(s: State, steps: seq<Step>, x: nat) {
    steps != []
    && (var n := |steps| - 1;
        Attempted(s, steps[..n], x) || Attempts(Run(s, steps[..n]), steps[n], x))
  }

  lemma OneMorePoll(before: nat, more: nat, limit: nat, ahead: nat, ahead1: nat, ahead2: nat)
    requires ahead1 + before * limit <= ahead && ahead2 + more * limit <= ahead1
    ensures ahead2 + (before + more) * limit <= ahead
  {
    assert (before + more) * limit == before * limit + more * limit;
  }

  /** After so many polls x is listed at last, or still waits, and that many times `limit` rows fewer are ahead
      of it. */
  ghost predicate MovedUp(s: State, x: nat, limit: nat, ahead: nat, polls: nat) {
    && Current(s) && SafeRows(s.q) && x < |s.q.rows|
    && (IsListed(s, x) || (Waiting(s, x) && |AheadUnlisted(s, x)| + polls * limit <= ahead))
  }

  lemma WaitingMovesUp(s: State, step: Step, x: nat, limit: nat, ahead: nat, polls: nat)
    requires MovedUp(s, x, limit, ahead, polls) && Waiting(s, x) && Fair(s, step, x, limit)
    ensures MovedUp(Next(s, step), x, limit, ahead, polls + if step.BeginPoll? then 1 else 0)
  {
    var s' := Next(s, step);
    StepKeepsCurrent(s, step);
    StepKeepsSafeRows(s, step, x, limit);
    if step.BeginPoll? {
      if !IsListed(s', x) {
        PollMovesUp(s, step, x, limit);
        OneMorePoll(polls, 1, limit, ahead, |AheadUnlisted(s, x)|, |AheadUnlisted(s', x)|);
      }
    } else {
      if step.NextAttempt? {
        AttemptKeepsPlace(s, step, x, limit);
      } else {
        OtherStepKeepsPlace(s, step, x, limit);
      }
      SubsetSize(AheadUnlisted(s', x), AheadUnlisted(s, x));
    }
  }

  lemma ListedStaysListed(s: State, step: Step, x: nat, limit: nat)
    requires x < |s.q.rows| && IsListed(s, x) && Fair(s, step, x, limit) && !Attempts(s, step, x)
    ensures IsListed(Next(s, step), x)
  {
    if step.NextAttempt? {
      ListedTail(s, Next(s, step), x);
    }
  }

  lemma StepMovesUp(s: State, step: Step, x: nat, limit: nat, ahead: nat, polls: nat)
    requires MovedUp(s, x, limit, ahead, polls) && Fair(s, step, x, limit) && !Attempts(s, step, x)
    ensures MovedUp(Next(s, step), x, limit, ahead, polls + if step.BeginPoll? then 1 else 0)
  {
    if IsListed(s, x) {
      StepKeepsCurrent(s, step);
      StepKeepsSafeRows(s, step, x, limit);
      ListedStaysListed(s, step, x, limit);
    } else {
      WaitingMovesUp(s, step, x, limit, ahead, polls);
    }
  }

  lemma {:induction false} WaitingRowMovesUp(s: State, steps: seq<Step>, x: nat, limit: nat)
    requires Waiting(s, x) && Current(s) && SafeRows(s.q) && FairRun(s, steps, x, limit) && !Attempted(s, steps, x)
    ensures MovedUp(Run(s, steps), x, limit, |AheadUnlisted(s, x)|, Polls(steps))
  {
    if steps != [] {
      var n := |steps| - 1;
      WaitingRowMovesUp(s, steps[..n], x, limit);
      var s1 := Run(s, steps[..n]);
      StepMovesUp(s1, steps[n], x, limit, |AheadUnlisted(s, x)|, Polls(steps[..n]));
    }
  }

  lemma EnoughPolls(polls: nat, r: nat, limit: nat)
    requires limit >= 1 && polls >= r / limit + 1
    ensures polls * limit > r
  {
    assert polls * limit >= (r / limit + 1) * limit;
    assert (r / limit + 1) * limit == r / limit * limit + limit;
  }

  /** No starvation: a due row with r others ahead of it is attempted within floor(r / limit) + 1 polls, once
      the last of them is done, whatever comes between a poll's attempts. */
  lemma NoStarvation(s: State, steps: seq<Step>, x: nat, limit: nat)
    requires Current(s) && SafeRows(s.q) && Waiting(s, x) && limit >= 1 && FairRun(s, steps, x, limit)
    requires Polls(steps) >= |AheadUnlisted(s, x)| / limit + 1 && Run(s, steps).listed == []
    ensures Attempted(s, steps, x)
  {
    if !Attempted(s, steps, x) {
      WaitingRowMovesUp(s, steps, x, limit);
      EnoughPolls(Polls(steps), |AheadUnlisted(s, x)|, limit);
    }
  }

  // ----- a clock that stands still -----

  const PREFER_FIRST := BeginPoll(1, [0])
  const FAIL_AT_ONCE := NextAttempt(Attempt(0, false, true))

  /** Two deliveries of one attempt each are due at once; the first has failed `polls` times. */
  ghost predicate TiedWithFailed(s: State, polls: nat) {
    && |s.q.hooks| == 1 && s.q.hooks[0].active && |s.q.rows| == 2 && s.q.now == 0 && s.listed == []
    && s.q.rows[0] == Delivery(0, if polls == 0 then Pending else Failed, polls, 1, 0, 0)
    && s.q.rows[1] == Delivery(0, Pending, 0, 1, 0, 0)
  }

  lemma StandingPoll(s: State, polls: nat)
    requires TiedWithFailed(s, polls)
    ensures AnswersListDue(s.q, 1, [0]) && Next(s, PREFER_FIRST).listed == [ListedRow(s.q, 0)]
    ensures TiedWithFailed(Next(Next(s, PREFER_FIRST), FAIL_AT_ONCE), polls + 1)
  {
    assert AnswersListDue(s.q, 1, [0]);
    assert Next(s, PREFER_FIRST).listed == [ListedRow(s.q, 0)];
  }

  lemma RunStep(s: State, steps: seq<Step>, step: Step, x: nat)
    ensures Run(s, steps + [step]) == Next(Run(s, steps), step)
    ensures Polls(steps + [step]) == Polls(steps) + if step.BeginPoll? then 1 else 0
    ensures !Attempted(s, steps, x) && !Attempts(Run(s, steps), step, x) ==> !Attempted(s, steps + [step], x)
  {
    assert (steps + [step])[..|steps|] == steps;
  }

  lemma TwoPings() returns (steps: seq<Step>)
    ensures TiedWithFailed(Run(Boot(0), steps), 0) && Polls(steps) == 0 && !Attempted(Boot(0), steps, 1)
  {
    var a, b := Register(Webhook(1, {}, true)), Ping(0, 1);
    RunStep(Boot(0), [], a, 1);
    RunStep(Boot(0), [] + [a], b, 1);
    RunStep(Boot(0), [] + [a] + [b], b, 1);
    steps := [] + [a] + [b] + [b];
  }

  /** Progress needs the clock to move: while it stands, a failed row rescheduled for "now" ties with a row
      that is due just now, and the query may prefer it in any number of polls. */
  lemma {:induction false} StandingClockStarves(polls: nat) returns (steps: seq<Step>)
    ensures Polls(steps) == polls && !Attempted(Boot(0), steps, 1)
    ensures TiedWithFailed(Run(Boot(0), steps), polls) && Waiting(Run(Boot(0), steps), 1)
  {
    if polls == 0 {
      steps := TwoPings();
    } else {
      var before := StandingClockStarves(polls - 1);
      StandingPoll(Run(Boot(0), before), polls - 1);
      RunStep(Boot(0), before, PREFER_FIRST, 1);
      RunStep(Boot(0), before + [PREFER_FIRST], FAIL_AT_ONCE, 1);
      steps := before + [PREFER_FIRST] + [FAIL_AT_ONCE];
    }
  }
}
