/**
 The dispatcher worker as the source has it, over a delivery table it updates in place, and a query plan
 that answers ListDue. Also where the retry budget ends: it does not.
 */
module WebhookDispatcher {
  import opened Backoff
  import opened WebhookQueue
  import opened WebhookTheorems

  // ----- a plan for ListDue -----

  ghost predicate Ordered(q: Queue, ids: seq<nat>) {
    && (forall k :: 0 <= k < |ids| ==> ids[k] < |q.rows|)
    && (forall j, k :: 0 <= j < k < |ids| ==> ids[j] != ids[k] && q.rows[ids[j]].next <= q.rows[ids[k]].next)
  }

  lemma HeadComesFirst(q: Queue, ids: seq<nat>)
    requires Ordered(q, ids) && ids != []
    ensures Ordered(q, ids[1..])
    ensures forall e :: e in ids <==> e == ids[0] || e in ids[1..]
    ensures forall e :: e in ids[1..] ==> e < |q.rows| && e != ids[0] && q.rows[ids[0]].next <= q.rows[e].next
  {
    assert ids == [ids[0]] + ids[1..];
    forall e | e in ids[1..]
      ensures e < |q.rows| && e != ids[0] && q.rows[ids[0]].next <= q.rows[e].next
    {
      var k :| 0 <= k < |ids[1..]| && ids[1..][k] == e;
      assert ids[k + 1] == e;
    }
  }

  lemma HeadBefore(q: Queue, head: nat, rest: seq<nat>)
    requires Ordered(q, rest) && head < |q.rows|
    requires forall e :: e in rest ==> e < |q.rows| && e != head && q.rows[head].next <= q.rows[e].next
    ensures Ordered(q, [head] + rest)
  {
    forall k | 0 <= k < |rest|
      ensures rest[k] in rest
    {
    }
  }

  function InsertByNext(q: Queue, ids: seq<nat>, id: nat): (r: seq<nat>)
    requires Ordered(q, ids) && id < |q.rows| && id !in ids
    ensures Ordered(q, r)
    ensures forall e :: e in r <==> e in ids || e == id
  {
    if ids == [] then [id]
    else
      HeadComesFirst(q, ids);
      if q.rows[id].next < q.rows[ids[0]].next then
        HeadBefore(q, id, ids);
        [id] + ids
      else
        var rest := InsertByNext(q, ids[1..], id);
        HeadBefore(q, ids[0], rest);
        [ids[0]] + rest
  }

  function DueBelow(q: Queue, n: nat): (ids: seq<nat>)
    requires n <= |q.rows|
    ensures Ordered(q, ids)
    ensures forall id: nat :: id in ids <==> id < n && Due(q, id)
  {
    if n == 0 then [] else
    var before := DueBelow(q, n - 1);
    if Due(q, n - 1) then InsertByNext(q, before, n - 1) else before
  }

  /** Sorting the due rows and cutting at the limit answers the query, so every queue has an answer. */
  function PlanListDue(q: Queue, limit: nat): (ids: seq<nat>)
    ensures AnswersListDue(q, limit, ids)
  {
    var due := DueBelow(q, |q.rows|);
    if |due| <= limit then due
    else
      assert forall id | id in due && id !in due[..limit] :: exists k :: limit <= k < |due| && due[k] == id;
      due[..limit]
  }

  lemma CountersDoNotMatter(q: Queue, c: Counters, limit: nat, ids: seq<nat>)
    ensures AnswersListDue(q.(counters := c), limit, ids) <==> AnswersListDue(q, limit, ids)
  {
    assert forall id: nat :: id < |q.rows| ==> (Due(q.(counters := c), id) <==> Due(q, id));
  }

  // ----- the worker -----

  class DeliveryTable {
    var hooks: seq<Webhook>
    var rows: seq<Delivery>

    /** ListDue at the database's `now`, if the query succeeds. Callers may rely on no more than the query's
        meaning: how ties are broken is left open. */
    method ListDue(limit: nat, now: int) returns (due: seq<Listed>, ghost ids: seq<nat>)
      ensures var q := Queue(hooks, rows, Counters(0, 0, 0), now);
              AnswersListDue(q, limit, ids) && due == ListedRows(q, ids)
    {
      var q := Queue(hooks, rows, Counters(0, 0, 0), now);
      var plan := PlanListDue(q, limit);
      due, ids := ListedRows(q, plan), plan;
    }

    method MarkDelivered(id: nat, ok: bool) returns (stored: bool)
      modifies this`rows
      ensures stored == (ok && id < |old(rows)|)
      ensures rows == if ok then WebhookQueue.MarkDelivered(old(rows), id) else old(rows)
    {
      stored := ok && id < |rows|;
      if stored {
        rows := rows[id := rows[id].(status := Delivered)];
      }
    }

    method MarkFailed(id: nat, status: Status, next: int, ok: bool) returns (stored: bool)
      modifies this`rows
      ensures stored == (ok && id < |old(rows)|)
      ensures rows == if ok then WebhookQueue.MarkFailed(old(rows), id, status, next) else old(rows)
    {
      stored := ok && id < |rows|;
      if stored {
        rows := rows[id := rows[id].(status := status, attempts := rows[id].attempts + 1, next := next)];
      }
    }
  }

  class Dispatcher {
    const table: DeliveryTable
    var delivered: nat
    var failed: nat
    var retried: nat
    var now: int

    constructor (table: DeliveryTable, now: int)
      ensures this.table == table && delivered == failed == retried == 0 && this.now == now
    {
      this.table, delivered, failed, retried, this.now := table, 0, 0, 0, now;
    }

    ghost function Contents(): Queue
      reads this, table
    {
      Queue(table.hooks, table.rows, Counters(delivered, retried, failed), now)
    }

    method Fail(dl: Listed, ok: bool)
      modifies this, table`rows
      ensures Contents() == WebhookQueue.DeliverOne(old(Contents()), dl, Attempt(0, false, ok))
    {
      var attempts := dl.attempts + 1;
      var status := Pending;
      var next := now + Delay(attempts);
      if attempts >= dl.maxAttempts {
        status := Failed;
        next := now;
      }
      var stored := table.MarkFailed(dl.id, status, next, ok);
      if !stored {
        return;
      }
      if status == Failed {
        failed := failed + 1;
      } else {
        retried := retried + 1;
      }
    }

    method DeliverOne(dl: Listed, a: Attempt)
      modifies this, table`rows
      ensures Contents() == WebhookQueue.DeliverOne(old(Contents()), dl, a)
    {
      now := now + a.wait;
      if !a.ok {
        Fail(dl, a.stored);
        return;
      }
      var stored := table.MarkDelivered(dl.id, a.stored);
      if !stored {
        return;
      }
      delivered := delivered + 1;
    }

    /** One poll. If the query fails nothing happens; otherwise the rows of some answer `ids` to the query are
        attempted in order, which is one of the runs (WebhookTheorems.PollIsRun). */
    method DispatchOnce(limit: nat, listOk: bool, attempts: nat -> Attempt)
      returns (ok: bool, n: nat, ghost ids: seq<nat>)
      modifies this, table`rows
      ensures ok == listOk
      ensures !ok ==> n == 0 && Contents() == old(Contents())
      ensures ok ==> AnswersListDue(old(Contents()), limit, ids) && n == |ids|
      ensures ok ==> Contents() == DeliverAll(old(Contents()), ListedRows(old(Contents()), ids), attempts, 0)
    {
      if !listOk {
        return false, 0, [];
      }
      ghost var q0 := Contents();
      var due;
      due, ids := table.ListDue(limit, now);
      CountersDoNotMatter(q0, Counters(0, 0, 0), limit, ids);
      assert due == ListedRows(q0, ids);
      var i := 0;
      assert due[0..] == due;
      while i < |due|
        invariant 0 <= i <= |due|
        invariant DeliverAll(Contents(), due[i..], attempts, i) == DeliverAll(q0, due, attempts, 0)
      {
        OneAttempt(Contents(), due, attempts, i);
        DeliverOne(due[i], attempts(i));
        i := i + 1;
      }
      return true, |due|, ids;
    }
  }

  // ----- the budget does not end the attempts -----

  /** The row of a lone webhook whose endpoint is down. */
  ghost predicate DownSince(s: State, maxAttempts: nat, failures: nat) {
    && |s.q.hooks| == |s.q.rows| == 1 && s.q.hooks[0].active && s.listed == []
    && s.q.rows[0].hook == 0 && s.q.rows[0].attempts == failures && s.q.rows[0].maxAttempts == maxAttempts
    && s.q.rows[0].status in {Pending, Failed} && s.q.rows[0].next <= s.q.now + BACKOFF_MAX
  }

  const WAIT := Advance(BACKOFF_MAX)
  const LIST := BeginPoll(1, [0])
  const FAIL := NextAttempt(Attempt(0, false, true))

  lemma DownOnceMore(s: State, maxAttempts: nat, failures: nat)
    requires DownSince(s, maxAttempts, failures)
    ensures var s' := Next(Next(Next(s, WAIT), LIST), FAIL);
            DownSince(s', maxAttempts, failures + 1) && (s'.q.rows[0].status.Failed? <==> failures + 1 >= maxAttempts)
  {
    var s1 := Next(s, WAIT);
    assert AnswersListDue(s1.q, 1, [0]);
    assert Next(s1, LIST).listed == [ListedRow(s1.q, 0)];
  }

  lemma JustPinged(maxAttempts: nat) returns (steps: seq<Step>)
    ensures DownSince(Run(Boot(0), steps), maxAttempts, 0)
  {
    RunStep(Boot(0), [], Register(Webhook(1, {}, true)), 0);
    steps := [] + [Register(Webhook(1, {}, true))];
    RunStep(Boot(0), steps, Ping(0, maxAttempts), 0);
    steps := steps + [Ping(0, maxAttempts)];
  }

  /** A failed row stays in the queue: for any budget and any number of failures there is a run in which one
      row is attempted that often, although its budget was used up long before. */
  lemma {:induction false} AttemptsExceedAnyBudget(maxAttempts: nat, failures: nat) returns (steps: seq<Step>)
    ensures DownSince(Run(Boot(0), steps), maxAttempts, failures)
    ensures 1 <= maxAttempts <= failures ==> Run(Boot(0), steps).q.rows[0].status.Failed?
  {
    if failures == 0 {
      steps := JustPinged(maxAttempts);
    } else {
      var before := AttemptsExceedAnyBudget(maxAttempts, failures - 1);
      DownOnceMore(Run(Boot(0), before), maxAttempts, failures - 1);
      RunStep(Boot(0), before, WAIT, 0);
      RunStep(Boot(0), before + [WAIT], LIST, 0);
      RunStep(Boot(0), before + [WAIT] + [LIST], FAIL, 0);
      steps := before + [WAIT] + [LIST] + [FAIL];
    }
  }
}
