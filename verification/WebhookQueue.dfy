/**
 The webhook delivery queue: delivery rows in id order, the meaning of the repository's queries on them,
 and what one attempt, one poll and one emitted event do. Whether a POST succeeds and whether a store
 write succeeds are part of the environment; every attempt reads the clock for itself.
 */
module WebhookQueue {
  import opened Backoff

  datatype Status = Pending | Delivered | Failed

  datatype Delivery = Delivery(hook: nat, status: Status, attempts: nat, maxAttempts: nat, next: int, created: int)

  datatype Webhook = Webhook(org: int, events: set<string>, active: bool)

  datatype Counters = Counters(delivered: nat, retried: nat, failed: nat)

  datatype Queue = Queue(hooks: seq<Webhook>, rows: seq<Delivery>, counters: Counters, now: int)

  // ----- ListDue -----

  predicate Eligible(q: Queue, id: nat)
    requires id < |q.rows|
  {
    && q.rows[id].hook < |q.hooks| && q.hooks[q.rows[id].hook].active
    && q.rows[id].status in {Pending, Failed}
  }

  predicate Due(q: Queue, id: nat)
    requires id < |q.rows|
  {
    Eligible(q, id) && q.rows[id].next <= q.now
  }

  /** Answers the query allows: due rows, each once, by next attempt (ties in any order), at most `limit`,
      and no due row left out while there is room or in favour of a later one. */
  ghost predicate AnswersListDue(q: Queue, limit: nat, ids: seq<nat>) {
    && (forall k :: 0 <= k < |ids| ==> ids[k] < |q.rows| && Due(q, ids[k]))
    && (forall j, k :: 0 <= j < k < |ids| ==> ids[j] != ids[k] && q.rows[ids[j]].next <= q.rows[ids[k]].next)
    && |ids| <= limit
    && (forall id: nat :: id < |q.rows| && Due(q, id) && id !in ids ==>
          |ids| == limit && forall k :: 0 <= k < |ids| ==> q.rows[ids[k]].next <= q.rows[id].next)
  }

  /** The columns of a listed row that the dispatcher works with. */
  datatype Listed = Listed(id: nat, attempts: nat, maxAttempts: nat)

  function ListedRow(q: Queue, id: nat): Listed
    requires id < |q.rows|
  {
    Listed(id, q.rows[id].attempts, q.rows[id].maxAttempts)
  }

  function ListedRows(q: Queue, ids: seq<nat>): (listed: seq<Listed>)
    requires forall k :: 0 <= k < |ids| ==> ids[k] < |q.rows|
  {
    seq(|ids|, k requires 0 <= k < |ids| => ListedRow(q, ids[k]))
  }

  // ----- one attempt -----

  /** How one attempt goes: the time since the previous clock reading, whether the endpoint answered 2xx,
      and whether recording the outcome succeeds. */
  datatype Attempt = Attempt(wait: nat, ok: bool, stored: bool)

  function MarkDelivered(rows: seq<Delivery>, id: nat): seq<Delivery> {
    if id < |rows| then rows[id := rows[id].(status := Delivered)] else rows
  }

  function MarkFailed(rows: seq<Delivery>, id: nat, status: Status, next: int): seq<Delivery> {
    if id >= |rows| then rows
    else rows[id := rows[id].(status := status, attempts := rows[id].attempts + 1, next := next)]
  }

  /** The status and time a failed attempt writes, from the attempt count that was listed. */
  function FailedAs(dl: Listed, now: int): (Status, int) {
    if dl.attempts + 1 >= dl.maxAttempts then (Failed, now) else (Pending, now + Delay(dl.attempts + 1))
  }

  function DeliverOne(q: Queue, dl: Listed, a: Attempt): (q': Queue)
    ensures |q'.rows| == |q.rows| && q'.hooks == q.hooks && q'.now == q.now + a.wait
  {
    var now := q.now + a.wait;
    if !a.stored || dl.id >= |q.rows| then q.(now := now)
    else if a.ok then
      q.(rows := MarkDelivered(q.rows, dl.id),
         counters := q.counters.(delivered := q.counters.delivered + 1),
         now := now)
    else
      var (status, next) := FailedAs(dl, now);
      q.(rows := MarkFailed(q.rows, dl.id, status, next),
         counters := if status.Failed? then q.counters.(failed := q.counters.failed + 1)
                     else q.counters.(retried := q.counters.retried + 1),
         now := now)
  }

  /** The loop of DispatchOnce over a listing, the i-th attempt going as `attempts` says. */
  function DeliverAll(q: Queue, listed: seq<Listed>, attempts: nat -> Attempt, i: nat): (q': Queue)
    ensures |q'.rows| == |q.rows| && q'.hooks == q.hooks && q'.now >= q.now
    decreases |listed|
  {
    if listed == [] then q
    else DeliverAll(DeliverOne(q, listed[0], attempts(i)), listed[1..], attempts, i + 1)
  }

  lemma OneAttempt(q: Queue, listed: seq<Listed>, attempts: nat -> Attempt, i: nat)
    requires i < |listed|
    ensures DeliverAll(q, listed[i..], attempts, i)
         == DeliverAll(DeliverOne(q, listed[i], attempts(i)), listed[i + 1..], attempts, i + 1)
  {
    assert listed[i..][1..] == listed[i + 1..];
  }

  // ----- CreateDeliveries -----

  predicate Subscribed(w: Webhook, org: int, event: string) {
    w.org == org && w.active && event in w.events
  }

  function NewDelivery(hook: nat, maxAttempts: nat, now: int): Delivery {
    Delivery(hook, Pending, 0, maxAttempts, now, now)
  }

  /** The rows one event enqueues. */
  function Fanout(hooks: seq<Webhook>, org: int, event: string, maxAttempts: nat, now: int): (rows: seq<Delivery>)
    ensures forall k :: 0 <= k < |rows| ==>
              rows[k].hook < |hooks| && rows[k] == NewDelivery(rows[k].hook, maxAttempts, now)
  {
    if hooks == [] then [] else
    var n := |hooks| - 1;
    var before := Fanout(hooks[..n], org, event, maxAttempts, now);
    if Subscribed(hooks[n], org, event) then before + [NewDelivery(n, maxAttempts, now)] else before
  }

  ghost predicate Reached(rows: seq<Delivery>, hook: nat) {
    exists k :: 0 <= k < |rows| && rows[k].hook == hook
  }

  /** An event enqueues exactly one delivery for each active subscriber of the organization, none for others. */
  lemma {:induction false} FanoutReachesSubscribers(hooks: seq<Webhook>, org: int, event: string, maxAttempts: nat,
                                                    now: int)
    ensures var rows := Fanout(hooks, org, event, maxAttempts, now);
            && (forall h: nat :: Reached(rows, h) <==> h < |hooks| && Subscribed(hooks[h], org, event))
            && (forall j, k :: 0 <= j < k < |rows| ==> rows[j].hook != rows[k].hook)
  {
    if hooks != [] {
      var n := |hooks| - 1;
      var before := Fanout(hooks[..n], org, event, maxAttempts, now);
      var rows := Fanout(hooks, org, event, maxAttempts, now);
      FanoutReachesSubscribers(hooks[..n], org, event, maxAttempts, now);
      forall k | 0 <= k < |before|
        ensures before[k].hook < n
      {
        assert Reached(before, before[k].hook);
      }
      forall h: nat
        ensures Reached(rows, h) <==> h < |hooks| && Subscribed(hooks[h], org, event)
      {
        if Subscribed(hooks[n], org, event) {
          assert rows[|before|].hook == n;
          if Reached(before, h) {
            var k :| 0 <= k < |before| && before[k].hook == h;
            assert rows[k].hook == h;
          }
          if Reached(rows, h) && h != n {
            var k :| 0 <= k < |rows| && rows[k].hook == h;
            assert before[k].hook == h;
          }
        }
      }
    }
  }

  // ----- runs -----

  /** The queue, and what the dispatcher has listed and not yet attempted. */
  datatype State = State(q: Queue, listed: seq<Listed>)

  /** A poll is its listing and then one step for each attempt; anything may come between them. */
  datatype Step =
    | Register(hook: Webhook)
    | Update(id: nat, events: set<string>, active: bool)
    | Emit(org: int, event: string, maxAttempts: nat)
    | Ping(id: nat, maxAttempts: nat)
    | BeginPoll(limit: nat, ids: seq<nat>)
    | NextAttempt(attempt: Attempt)
    | Advance(duration: nat)

  function ListAll(s: State, ids: seq<nat>): State
    requires forall k :: 0 <= k < |ids| ==> ids[k] < |s.q.rows|
  {
    s.(listed := ListedRows(s.q, ids))
  }

  ghost function Next(s: State, step: Step): State {
    var q := s.q;
    match step
    case Register(w) => s.(q := q.(hooks := q.hooks + [w]))
    case Update(id, events, active) =>
      if id >= |q.hooks| then s
      else s.(q := q.(hooks := q.hooks[id := q.hooks[id].(events := events, active := active)]))
    case Emit(org, event, max) => s.(q := q.(rows := q.rows + Fanout(q.hooks, org, event, max, q.now)))
    case Ping(id, max) =>
      if id >= |q.hooks| then s else s.(q := q.(rows := q.rows + [NewDelivery(id, max, q.now)]))
    case BeginPoll(limit, ids) => if AnswersListDue(q, limit, ids) then ListAll(s, ids) else s
    case NextAttempt(a) =>
      if s.listed == [] then s else State(DeliverOne(q, s.listed[0], a), s.listed[1..])
    case Advance(d) => s.(q := q.(now := q.now + d))
  }

  ghost function Run(s: State, steps: seq<Step>): State {
    if steps == [] then s else Next(Run(s, steps[..|steps| - 1]), steps[|steps| - 1])
  }

  function Boot(now: int): State {
    State(Queue([], [], Counters(0, 0, 0), now), [])
  }
}
