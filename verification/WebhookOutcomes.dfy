/**
 What becomes of a delivery, in terms of its columns and the counters alone: what an event enqueues, which
 rows a poll lists, what each outcome of an attempt writes, and that healthy endpoints get their deliveries.
 */
module WebhookOutcomes {
  import opened Backoff
  import opened WebhookQueue
  import opened WebhookTheorems

  // ----- enqueueing -----

  /** An event adds rows, at the end, that are pending, never attempted, and due at once: one for each active
      webhook of the organization that subscribes to it, and none for another. */
  lemma EmitOutcome(s: State, org: int, event: string, max: nat)
    ensures var q, q' := s.q, Next(s, Emit(org, event, max)).q;
            var n := |q.rows|;
            && q' == q.(rows := q'.rows) && n <= |q'.rows| && q'.rows[..n] == q.rows
            && (forall id :: n <= id < |q'.rows| ==>
                  q'.rows[id] == Delivery(q'.rows[id].hook, Pending, 0, max, q.now, q.now))
            && (forall id, id' :: n <= id < id' < |q'.rows| ==> q'.rows[id].hook != q'.rows[id'].hook)
            && (forall h: nat ::
                  (exists id :: n <= id < |q'.rows| && q'.rows[id].hook == h)
                  <==> h < |q.hooks| && q.hooks[h].org == org && q.hooks[h].active && event in q.hooks[h].events)
  {
    var q, q', n := s.q, Next(s, Emit(org, event, max)).q, |s.q.rows|;
    var more := Fanout(q.hooks, org, event, max, q.now);
    FanoutReachesSubscribers(q.hooks, org, event, max, q.now);
    assert forall id :: n <= id < |q'.rows| ==> q'.rows[id] == more[id - n];
    forall h: nat
      ensures (exists id :: n <= id < |q'.rows| && q'.rows[id].hook == h) <==> Reached(more, h)
    {
      if Reached(more, h) {
        var k :| 0 <= k < |more| && more[k].hook == h;
        assert q'.rows[n + k].hook == h;
      }
    }
  }

  // ----- listing -----

  /** To be attempted, in the columns' own terms. */
  predicate ToAttempt(q: Queue, id: nat) {
    && id < |q.rows|
    && q.rows[id].hook < |q.hooks| && q.hooks[q.rows[id].hook].active
    && (q.rows[id].status.Pending? || q.rows[id].status.Failed?)
    && q.rows[id].next <= q.now
  }

  /** A poll lists nothing but rows to be attempted, all of them if there are fewer than its limit, and
      otherwise none of them after one it leaves out. */
  lemma ListedExactlyWhen(q: Queue, limit: nat, ids: seq<nat>, id: nat)
    requires AnswersListDue(q, limit, ids)
    ensures id in ids ==> ToAttempt(q, id)
    ensures |ids| < limit ==> (id in ids <==> ToAttempt(q, id))
    ensures ToAttempt(q, id) && id !in ids ==>
              |ids| == limit && forall k :: 0 <= k < |ids| ==> q.rows[ids[k]].next <= q.rows[id].next
  {
  }

  // ----- attempts -----

  /** What one attempt does, in every run. Recorded as a success, it makes the row delivered, and counts it
      once as such. Recorded as a failure, it counts once as a failure if it used the budget up, which makes the
      row failed and due again at once, and otherwise once as a retry. Not recorded, it changes nothing. No
      other row is touched. */
  lemma AttemptOutcome(boot: int, steps: seq<Step>, a: Attempt)
    requires Run(Boot(boot), steps).listed != []
    ensures var s := Run(Boot(boot), steps);
            var s' := Next(s, NextAttempt(a));
            var id, now, c := s.listed[0].id, s.q.now + a.wait, s.q.counters;
            && id < |s.q.rows| == |s'.q.rows|
            && s'.listed == s.listed[1..] && s'.q.hooks == s.q.hooks && s'.q.now == now
            && (forall j :: 0 <= j < |s.q.rows| && j != id ==> s'.q.rows[j] == s.q.rows[j])
            && var row, row', c' := s.q.rows[id], s'.q.rows[id], s'.q.counters;
               if !a.stored then row' == row && c' == c
               else if a.ok then
                 row' == row.(status := Delivered) && c' == Counters(c.delivered + 1, c.retried, c.failed)
               else if row.attempts + 1 >= row.maxAttempts then
                 && row' == row.(status := Failed, attempts := row.attempts + 1, next := now)
                 && c' == Counters(c.delivered, c.retried, c.failed + 1)
               else
                 && row' == row.(status := Pending, attempts := row.attempts + 1, next := now + Delay(row.attempts + 1))
                 && c' == Counters(c.delivered, c.retried + 1, c.failed)
  {
    RunKeepsCurrent(Boot(boot), steps);
  }

  // ----- delivery -----

  /** Every attempt succeeds and is recorded. */
  predicate Healthy(steps: seq<Step>) {
    forall n :: 0 <= n < |steps| && steps[n].NextAttempt? ==> steps[n].attempt.ok && steps[n].attempt.stored
  }

  lemma SuccessDelivers(s: State, step: Step, x: nat)
    requires Current(s) && Attempts(s, step, x) && step.attempt.ok && step.attempt.stored
    ensures x < |Next(s, step).q.rows| && Next(s, step).q.rows[x].status.Delivered?
    ensures Next(s, step).q.rows[x].attempts == s.q.rows[x].attempts
  {
  }

  lemma {:induction false} AttemptedIsDelivered(s: State, steps: seq<Step>, x: nat)
    requires Current(s) && Healthy(steps) && Attempted(s, steps, x)
    ensures x < |Run(s, steps).q.rows| && Run(s, steps).q.rows[x].status.Delivered?
  {
    var n := |steps| - 1;
    var s1 := Run(s, steps[..n]);
    RunKeepsCurrent(s, steps[..n]);
    if Attempted(s, steps[..n], x) {
      AttemptedIsDelivered(s, steps[..n], x);
      StepKeepsDelivered(s1, steps[n], x);
    } else {
      SuccessDelivers(s1, steps[n], x);
    }
  }

  /** Endpoints that answer get their deliveries: after floor(r / limit) + 1 polls in which every attempt
      succeeds, a due row that had r others ahead of it is delivered, and stays so. */
  lemma HealthyEndpointsDeliver(s: State, steps: seq<Step>, x: nat, limit: nat)
    requires Current(s) && SafeRows(s.q) && Waiting(s, x) && limit >= 1 && FairRun(s, steps, x, limit)
    requires Polls(steps) >= |AheadUnlisted(s, x)| / limit + 1 && Run(s, steps).listed == []
    requires Healthy(steps)
    ensures x < |Run(s, steps).q.rows| && Run(s, steps).q.rows[x].status.Delivered?
  {
    NoStarvation(s, steps, x, limit);
    AttemptedIsDelivered(s, steps, x);
  }
}
