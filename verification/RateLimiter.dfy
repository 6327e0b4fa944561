/**
 The token-bucket rate limiter: per-visitor tokens that drop fractional intervals on every call, and a
 sweep that forgets idle visitors. Compared with an exact bucket and with a limiter that never forgets.
 Times are integer nanoseconds.
 */
module RateLimiter {
  import opened Options

  datatype Limits = Limits(rate: int, burst: int, interval: int)

  /** What the limiter needs of its settings to run at all, and tokens never to be taken away by waiting. */
  predicate Sane(l: Limits) {
    l.interval > 0 && l.rate >= 0
  }

  const IDLE := 30 * 60 * 1_000_000_000

  datatype Visitor = Visitor(tokens: int, lastSeen: int)

  function Min(a: int, b: int): int {
    if a < b then a else b
  }

  function Max(a: int, b: int): int {
    if a > b then a else b
  }

  /** Go's integer division by a positive divisor: it truncates toward zero. */
  function Quotient(a: int, b: int): int
    requires b > 0
  {
    if a >= 0 then a / b else -((-a) / b)
  }

  function Refilled(l: Limits, v: Visitor, now: int): int
    requires Sane(l)
  {
    Min(l.burst, v.tokens + Quotient(now - v.lastSeen, l.interval) * l.rate)
  }

  function Allow(l: Limits, v: Option<Visitor>, now: int): (Visitor, bool)
    requires Sane(l)
  {
    match v
    case None => (Visitor(l.burst - 1, now), true)
    case Some(v) =>
      var tokens := Refilled(l, v, now);
      if tokens <= 0 then (Visitor(tokens, now), false) else (Visitor(tokens - 1, now), true)
  }

  predicate Forgotten(v: Visitor, now: int) {
    now - v.lastSeen > IDLE
  }

  // ----- one visitor's history -----

  datatype Event = Call(at: int) | Sweep(at: int)

  function Step(l: Limits, v: Option<Visitor>, e: Event): (Option<Visitor>, seq<bool>)
    requires Sane(l)
  {
    match e
    case Call(at) => var (v', ok) := Allow(l, v, at); (Some(v'), [ok])
    case Sweep(at) => (if v.Some? && Forgotten(v.value, at) then None else v, [])
  }

  /** The visitor after a history, and the answers to its calls in order. */
  function Serve(l: Limits, v: Option<Visitor>, events: seq<Event>): (Option<Visitor>, seq<bool>)
    requires Sane(l)
    decreases |events|
  {
    if events == [] then (v, []) else
    var (v1, answer) := Step(l, v, events[0]);
    var (v2, answers) := Serve(l, v1, events[1..]);
    (v2, answer + answers)
  }

  /** Times do not run backwards, from `since` on. */
  ghost predicate Chronological(since: int, events: seq<Event>)
    decreases |events|
  {
    events == [] || (since <= events[0].at && Chronological(events[0].at, events[1..]))
  }

  ghost predicate OnlyCalls(events: seq<Event>) {
    forall i :: 0 <= i < |events| ==> events[i].Call?
  }

  /** A whole number of intervals that fits into a gap is at most the gap's quotient. */
  lemma QuotientIsLargest(a: int, n: int, interval: int)
    requires interval > 0 && n * interval <= a
    ensures n <= a / interval
  {
    if n >= a / interval + 1 {
      MultiplyMonotone(a / interval + 1, n, interval);
    }
  }

  lemma MultiplyMonotone(m: int, n: int, factor: int)
    requires m <= n && factor >= 0
    ensures m * factor <= n * factor
  {
  }

  lemma QuotientMonotone(a: int, b: int, interval: int, rate: int)
    requires 0 <= a <= b && interval > 0 && rate >= 0
    ensures 0 <= a / interval <= b / interval
    ensures 0 <= a / interval * rate <= b / interval * rate
  {
    QuotientIsLargest(b, a / interval, interval);
    MultiplyMonotone(a / interval, b / interval, rate);
    MultiplyMonotone(0, a / interval, rate);
  }

  // ----- the exact bucket -----

  /** An exact bucket refills at whole intervals from its anchor, and carries the rest of an interval over. */
  datatype Bucket = Bucket(tokens: int, anchor: int)

  function AllowExactly(l: Limits, b: Option<Bucket>, now: int): (Bucket, bool)
    requires Sane(l)
  {
    match b
    case None => (Bucket(l.burst - 1, now), true)
    case Some(b) =>
      var intervals := Quotient(now - b.anchor, l.interval);
      var anchor := b.anchor + intervals * l.interval;
      var tokens := Min(l.burst, b.tokens + intervals * l.rate);
      if tokens <= 0 then (Bucket(tokens, anchor), false) else (Bucket(tokens - 1, anchor), true)
  }

  function ServeExactly(l: Limits, b: Option<Bucket>, events: seq<Event>): (Option<Bucket>, seq<bool>)
    requires Sane(l) && OnlyCalls(events)
    decreases |events|
  {
    if events == [] then (b, []) else
    var (b1, ok) := AllowExactly(l, b, events[0].at);
    var (b2, answers) := ServeExactly(l, Some(b1), events[1..]);
    (b2, [ok] + answers)
  }

  /** The limiter's bucket is no fuller than the exact one, and was anchored no earlier. */
  ghost predicate Below(v: Option<Visitor>, b: Option<Bucket>) {
    match (v, b)
    case (None, None) => true
    case (Some(v), Some(b)) => v.tokens <= b.tokens && b.anchor <= v.lastSeen
    case _ => false
  }

  lemma CallStaysBelow(l: Limits, v: Option<Visitor>, b: Option<Bucket>, now: int)
    requires Sane(l) && Below(v, b) && (v.Some? ==> v.value.lastSeen <= now)
    ensures var (v', ok) := Allow(l, v, now);
            var (b', exactOk) := AllowExactly(l, b, now);
            Below(Some(v'), Some(b')) && v'.lastSeen == now && (ok ==> exactOk)
  {
    if v.Some? {
      QuotientMonotone(now - v.value.lastSeen, now - b.value.anchor, l.interval, l.rate);
      assert (now - b.value.anchor) / l.interval * l.interval <= now - b.value.anchor;
    }
  }

  /** The limiter is simulated by the exact bucket: on any calls its tokens stay at or below the exact ones,
      so it never admits what the exact bucket refuses. */
  lemma {:induction false} ExactBucketSimulates(l: Limits, v: Option<Visitor>, b: Option<Bucket>, events: seq<Event>,
                                                since: int)
    requires Sane(l) && Below(v, b) && (v.Some? ==> v.value.lastSeen <= since)
    requires OnlyCalls(events) && Chronological(since, events)
    ensures var (v', answers) := Serve(l, v, events);
            var (b', exact) := ServeExactly(l, b, events);
            && Below(v', b')
            && |answers| == |exact| == |events|
            && forall i :: 0 <= i < |answers| && answers[i] ==> exact[i]
    decreases |events|
  {
    if events != [] {
      var now := events[0].at;
      CallStaysBelow(l, v, b, now);
      ExactBucketSimulates(l, Some(Allow(l, v, now).0), Some(AllowExactly(l, b, now).0), events[1..], now);
    }
  }

  // ----- exactly what the limiter loses -----

  /** The calls with each gap shortened to whole intervals: the first after `last` is moved to so long after
      `from`, and so on. */
  function Rounded(l: Limits, last: int, from: int, events: seq<Event>): seq<Event>
    requires Sane(l)
    decreases |events|
  {
    if events == [] then [] else
    var at := from + Quotient(events[0].at - last, l.interval) * l.interval;
    [Call(at)] + Rounded(l, events[0].at, at, events[1..])
  }

  lemma {:induction false} RoundedIsCalls(l: Limits, last: int, from: int, events: seq<Event>)
    requires Sane(l)
    ensures OnlyCalls(Rounded(l, last, from, events)) && |Rounded(l, last, from, events)| == |events|
    decreases |events|
  {
    if events != [] {
      var at := from + Quotient(events[0].at - last, l.interval) * l.interval;
      RoundedIsCalls(l, events[0].at, at, events[1..]);
    }
  }

  lemma WholeIntervals(n: int, interval: int)
    requires interval > 0 && n >= 0
    ensures n * interval >= 0 && n * interval / interval == n
  {
    QuotientIsLargest(n * interval, n, interval);
    if n * interval / interval >= n + 1 {
      MultiplyMonotone(n + 1, n * interval / interval, interval);
    }
  }

  /** One call: the limiter after any gap does what the exact bucket does after the whole intervals of it. */
  lemma CallIsExactOnRoundedGap(l: Limits, v: Visitor, b: Bucket, now: int)
    requires Sane(l) && v.tokens == b.tokens && v.lastSeen <= now
    ensures var at := b.anchor + Quotient(now - v.lastSeen, l.interval) * l.interval;
            var (v', ok) := Allow(l, Some(v), now);
            var (b', exactOk) := AllowExactly(l, Some(b), at);
            ok == exactOk && v'.tokens == b'.tokens && v'.lastSeen == now && b'.anchor == at
  {
    QuotientMonotone(0, now - v.lastSeen, l.interval, l.rate);
    WholeIntervals((now - v.lastSeen) / l.interval, l.interval);
  }

  lemma {:induction false} KnownVisitorIsExactOnRoundedGaps(l: Limits, v: Visitor, b: Bucket, events: seq<Event>)
    requires Sane(l) && v.tokens == b.tokens && OnlyCalls(events) && Chronological(v.lastSeen, events)
    ensures OnlyCalls(Rounded(l, v.lastSeen, b.anchor, events))
    ensures Serve(l, Some(v), events).1 == ServeExactly(l, Some(b), Rounded(l, v.lastSeen, b.anchor, events)).1
    decreases |events|
  {
    RoundedIsCalls(l, v.lastSeen, b.anchor, events);
    if events != [] {
      var now := events[0].at;
      var at := b.anchor + Quotient(now - v.lastSeen, l.interval) * l.interval;
      CallIsExactOnRoundedGap(l, v, b, now);
      var (v1, ok) := Allow(l, Some(v), now);
      var (b1, exactOk) := AllowExactly(l, Some(b), at);
      KnownVisitorIsExactOnRoundedGaps(l, v1, b1, events[1..]);
      assert Rounded(l, v.lastSeen, b.anchor, events)[1..] == Rounded(l, now, at, events[1..]);
    }
  }

  /** The limiter is an exact bucket that sees each gap rounded down to whole intervals: on every sequence of
      calls it gives exactly those answers, no fewer and no more. */
  lemma LimiterIsExactOnRoundedGaps(l: Limits, events: seq<Event>)
    requires Sane(l) && events != [] && OnlyCalls(events) && Chronological(events[0].at, events)
    ensures var s := events[0].at;
            && OnlyCalls(Rounded(l, s, s, events))
            && Serve(l, None, events).1 == ServeExactly(l, None, Rounded(l, s, s, events)).1
  {
    var s := events[0].at;
    var rest := events[1..];
    assert Quotient(0, l.interval) * l.interval == 0;
    RoundedIsCalls(l, s, s, events);
    assert Rounded(l, s, s, events)[0] == Call(s) && Rounded(l, s, s, events)[1..] == Rounded(l, s, s, rest);
    KnownVisitorIsExactOnRoundedGaps(l, Visitor(l.burst - 1, s), Bucket(l.burst - 1, s), rest);
  }

  /** Every gap is a whole number of intervals. */
  ghost predicate Aligned(l: Limits, since: int, events: seq<Event>)
    requires Sane(l)
    decreases |events|
  {
    events == [] || ((events[0].at - since) % l.interval == 0 && Aligned(l, events[0].at, events[1..]))
  }

  lemma {:induction false} RoundedAligned(l: Limits, since: int, events: seq<Event>)
    requires Sane(l) && OnlyCalls(events) && Chronological(since, events) && Aligned(l, since, events)
    ensures Rounded(l, since, since, events) == events
    decreases |events|
  {
    if events != [] {
      RoundedAligned(l, events[0].at, events[1..]);
      var gap := events[0].at - since;
      assert gap == gap / l.interval * l.interval;
    }
  }

  /** On calls whose gaps are whole intervals the limiter loses nothing. */
  lemma AlignedCallsAreExact(l: Limits, events: seq<Event>)
    requires Sane(l) && events != [] && OnlyCalls(events) && Chronological(events[0].at, events)
    requires Aligned(l, events[0].at, events)
    ensures Serve(l, None, events).1 == ServeExactly(l, None, events).1
  {
    LimiterIsExactOnRoundedGaps(l, events);
    RoundedAligned(l, events[0].at, events);
  }

  /** Each call comes at least one interval after the one before it. */
  ghost predicate Spaced(l: Limits, since: int, events: seq<Event>)
    decreases |events|
  {
    events == [] || (events[0].at - since >= l.interval && Spaced(l, events[0].at, events[1..]))
  }

  /** n answers, all of them yes. */
  ghost predicate AllYes(answers: seq<bool>, n: nat) {
    |answers| == n && forall i :: 0 <= i < n ==> answers[i]
  }

  lemma SpacedCall(l: Limits, v: Visitor, now: int)
    requires Sane(l) && l.rate >= 1 && l.burst >= 1 && v.tokens >= 0 && now - v.lastSeen >= l.interval
    ensures var (v', ok) := Allow(l, Some(v), now); ok && v'.tokens >= 0 && v'.lastSeen == now
  {
    QuotientMonotone(l.interval, now - v.lastSeen, l.interval, l.rate);
    WholeIntervals(1, l.interval);
  }

  lemma {:induction false} SpacedFrom(l: Limits, v: Visitor, events: seq<Event>)
    requires Sane(l) && l.rate >= 1 && l.burst >= 1 && v.tokens >= 0
    requires OnlyCalls(events) && Spaced(l, v.lastSeen, events)
    ensures AllYes(Serve(l, Some(v), events).1, |events|)
    decreases |events|
  {
    if events != [] {
      SpacedCall(l, v, events[0].at);
      var v1 := Allow(l, Some(v), events[0].at).0;
      SpacedFrom(l, v1, events[1..]);
      assert Serve(l, Some(v), events).1 == [true] + Serve(l, Some(v1), events[1..]).1;
    }
  }

  /** Who keeps to one call an interval is never refused. */
  lemma SpacedCallsAreAdmitted(l: Limits, events: seq<Event>)
    requires Sane(l) && l.rate >= 1 && l.burst >= 1
    requires events != [] && OnlyCalls(events) && Spaced(l, events[0].at, events[1..])
    ensures AllYes(Serve(l, None, events).1, |events|)
  {
    var v1 := Visitor(l.burst - 1, events[0].at);
    SpacedFrom(l, v1, events[1..]);
    assert Serve(l, None, events).1 == [true] + Serve(l, Some(v1), events[1..]).1;
  }

  // ----- how much a window admits -----

  function Admitted(answers: seq<bool>): nat {
    if answers == [] then 0 else (if answers[0] then 1 else 0) + Admitted(answers[1..])
  }

  function EndOf(since: int, events: seq<Event>): int
    decreases |events|
  {
    if events == [] then since else EndOf(events[0].at, events[1..])
  }

  lemma {:induction false} EndIsLater(since: int, events: seq<Event>)
    requires Chronological(since, events)
    ensures since <= EndOf(since, events)
    decreases |events|
  {
    if events != [] {
      EndIsLater(events[0].at, events[1..]);
    }
  }

  /** Refilling over two gaps never gives more than over both at once. */
  lemma GapsAddUp(a: int, b: int, interval: int, rate: int)
    requires a >= 0 && b >= 0 && interval > 0 && rate >= 0
    ensures a / interval * rate + b / interval * rate <= (a + b) / interval * rate
  {
    var m, n := a / interval, b / interval;
    assert (m + n) * interval == m * interval + n * interval;
    QuotientIsLargest(a + b, m + n, interval);
    MultiplyMonotone(m + n, (a + b) / interval, rate);
    assert (m + n) * rate == m * rate + n * rate;
  }

  lemma {:induction false} AdmittedFrom(l: Limits, v: Visitor, events: seq<Event>)
    requires Sane(l) && OnlyCalls(events) && Chronological(v.lastSeen, events)
    ensures Admitted(Serve(l, Some(v), events).1)
         <= Max(v.tokens, 0) + (EndOf(v.lastSeen, events) - v.lastSeen) / l.interval * l.rate
    decreases |events|
  {
    if events == [] {
      assert 0 / l.interval == 0;
    } else {
      var now := events[0].at;
      var (v1, ok) := Allow(l, Some(v), now);
      AdmittedFrom(l, v1, events[1..]);
      EndIsLater(now, events[1..]);
      var end := EndOf(now, events[1..]);
      GapsAddUp(now - v.lastSeen, end - now, l.interval, l.rate);
      var answers := Serve(l, Some(v1), events[1..]).1;
      assert Serve(l, Some(v), events).1 == [ok] + answers;
      assert ([ok] + answers)[1..] == answers;
      QuotientMonotone(0, now - v.lastSeen, l.interval, l.rate);
    }
  }

  /** In any window of calls, from whatever the visitor was before: at most burst + rate * floor((t - s) / interval)
      are admitted, s being the first call and t the last (a burst below 1 still admits a new visitor once). */
  lemma WindowBound(l: Limits, v: Option<Visitor>, events: seq<Event>)
    requires Sane(l) && events != [] && OnlyCalls(events) && Chronological(events[0].at, events)
    ensures var s, t := events[0].at, EndOf(events[0].at, events);
            Admitted(Serve(l, v, events).1) <= Max(l.burst, 1) + (t - s) / l.interval * l.rate
  {
    var s := events[0].at;
    var (v1, ok) := Allow(l, v, s);
    AdmittedFrom(l, v1, events[1..]);
    var answers := Serve(l, Some(v1), events[1..]).1;
    assert Serve(l, v, events).1 == [ok] + answers;
    assert ([ok] + answers)[1..] == answers;
  }

  // ----- forgetting idle visitors -----

  function WithoutSweeps(events: seq<Event>): seq<Event> {
    if events == [] then []
    else (if events[0].Sweep? then [] else [events[0]]) + WithoutSweeps(events[1..])
  }

  /** A visitor idle for longer than the sweep's limit has a full bucket again. */
  predicate RefillsWhileIdle(l: Limits)
    requires Sane(l)
  {
    (IDLE + 1) / l.interval * l.rate >= l.burst
  }

  /** The sweeping limiter knows the same visitor, or has forgotten one that has been idle for long enough. */
  ghost predicate SameOrForgotten(swept: Option<Visitor>, kept: Option<Visitor>, now: int) {
    && (kept.Some? ==> kept.value.tokens >= 0 && kept.value.lastSeen <= now)
    && (swept == kept || (swept.None? && kept.Some? && Forgotten(kept.value, now)))
  }

  lemma ForgottenIsFull(l: Limits, v: Visitor, now: int)
    requires Sane(l) && l.burst >= 1 && RefillsWhileIdle(l) && v.tokens >= 0 && Forgotten(v, now)
    ensures Allow(l, Some(v), now) == Allow(l, None, now)
  {
    QuotientMonotone(IDLE + 1, now - v.lastSeen, l.interval, l.rate);
  }

  /** A call is answered alike, and from then on both know the same visitor. */
  lemma CallRemembers(l: Limits, swept: Option<Visitor>, kept: Option<Visitor>, since: int, at: int)
    requires Sane(l) && l.burst >= 1 && RefillsWhileIdle(l) && SameOrForgotten(swept, kept, since) && since <= at
    ensures Allow(l, swept, at) == Allow(l, kept, at)
    ensures var v := Some(Allow(l, kept, at).0); SameOrForgotten(v, v, at)
  {
    if swept != kept {
      ForgottenIsFull(l, kept.value, at);
    }
    if kept.Some? {
      QuotientMonotone(0, at - kept.value.lastSeen, l.interval, l.rate);
    }
  }

  lemma {:induction false} SweepsAreInvisibleFrom(l: Limits, swept: Option<Visitor>, kept: Option<Visitor>,
                                                  events: seq<Event>, since: int)
    requires Sane(l) && l.burst >= 1 && RefillsWhileIdle(l)
    requires SameOrForgotten(swept, kept, since) && Chronological(since, events)
    ensures Serve(l, swept, events).1 == Serve(l, kept, WithoutSweeps(events)).1
    decreases |events|
  {
    if events != [] {
      var e, rest := events[0], events[1..];
      var swept1 := Step(l, swept, e).0;
      if e.Sweep? {
        assert WithoutSweeps(events) == WithoutSweeps(rest);
        SweepsAreInvisibleFrom(l, swept1, kept, rest, e.at);
        assert Serve(l, swept, events).1 == [] + Serve(l, swept1, rest).1;
      } else {
        CallRemembers(l, swept, kept, since, e.at);
        SweepsAreInvisibleFrom(l, swept1, swept1, rest, e.at);
        assert WithoutSweeps(events) == [e] + WithoutSweeps(rest);
        assert WithoutSweeps(events)[1..] == WithoutSweeps(rest);
      }
    }
  }

  // ----- when forgetting shows -----

  function Burst(n: nat, at: int): seq<Event> {
    seq(n, i => Call(at))
  }

  lemma AllowAtOnce(l: Limits, v: Visitor)
    requires Sane(l) && v.tokens <= l.burst
    ensures Allow(l, Some(v), v.lastSeen)
         == if v.tokens <= 0 then (v, false) else (Visitor(v.tokens - 1, v.lastSeen), true)
  {
    assert 0 / l.interval == 0;
  }

  /** Calls at one moment take the tokens there are, and are refused after that. */
  lemma {:induction false} BurstAnswers(l: Limits, v: Visitor, n: nat)
    requires Sane(l) && v.tokens <= l.burst
    ensures var (v', answers) := Serve(l, Some(v), Burst(n, v.lastSeen));
            && |answers| == n
            && (forall i :: 0 <= i < n ==> answers[i] == (i < v.tokens))
            && v' == Some(Visitor(if v.tokens <= 0 then v.tokens else Max(v.tokens - n, 0), v.lastSeen))
    decreases n
  {
    if n > 0 {
      AllowAtOnce(l, v);
      var (v1, ok) := Allow(l, Some(v), v.lastSeen);
      assert Burst(n, v.lastSeen)[1..] == Burst(n - 1, v.lastSeen);
      BurstAnswers(l, v1, n - 1);
      var (v2, answers) := Serve(l, Some(v1), Burst(n - 1, v.lastSeen));
      assert Serve(l, Some(v), Burst(n, v.lastSeen)) == (v2, [ok] + answers);
    }
  }

  lemma {:induction false} ServeConcat(l: Limits, v: Option<Visitor>, a: seq<Event>, b: seq<Event>)
    requires Sane(l)
    ensures Serve(l, v, a + b)
         == (Serve(l, Serve(l, v, a).0, b).0, Serve(l, v, a).1 + Serve(l, Serve(l, v, a).0, b).1)
    decreases |a|
  {
    if a == [] {
      assert a + b == b;
      assert Serve(l, v, a) == (v, []);
      assert [] + Serve(l, v, b).1 == Serve(l, v, b).1;
    } else {
      assert (a + b)[1..] == a[1..] + b;
      var (v1, answer) := Step(l, v, a[0]);
      ServeConcat(l, v1, a[1..], b);
      var mid, rest := Serve(l, v1, a[1..]).1, Serve(l, Serve(l, v, a).0, b).1;
      assert answer + (mid + rest) == (answer + mid) + rest;
    }
  }

  lemma {:induction false} CallsHaveNoSweeps(events: seq<Event>)
    requires OnlyCalls(events)
    ensures WithoutSweeps(events) == events
  {
    if events != [] {
      CallsHaveNoSweeps(events[1..]);
    }
  }

  lemma {:induction false} WithoutSweepsConcat(a: seq<Event>, b: seq<Event>)
    ensures WithoutSweeps(a + b) == WithoutSweeps(a) + WithoutSweeps(b)
  {
    if a == [] {
      assert a + b == b;
    } else {
      assert (a + b)[1..] == a[1..] + b;
      WithoutSweepsConcat(a[1..], b);
    }
  }

  lemma {:induction false} BurstIsChronological(n: nat, at: int, since: int)
    requires since <= at
    ensures Chronological(since, Burst(n, at))
  {
    if n > 0 {
      assert Burst(n, at)[1..] == Burst(n - 1, at);
      BurstIsChronological(n - 1, at, at);
    }
  }

  lemma {:induction false} ChronologicalConcat(since: int, a: seq<Event>, b: seq<Event>)
    requires Chronological(since, a) && Chronological(EndOf(since, a), b)
    ensures Chronological(since, a + b)
    decreases |a|
  {
    if a == [] {
      assert a + b == b;
    } else {
      assert (a + b)[1..] == a[1..] + b;
      ChronologicalConcat(a[0].at, a[1..], b);
    }
  }

  /** Spend the bucket, be swept a moment after the idle limit, and spend again. */
  function Telltale(l: Limits): seq<Event>
    requires l.burst >= 1
  {
    Burst(l.burst, 0) + ([Sweep(IDLE + 1)] + Burst(l.burst, IDLE + 1))
  }

  lemma {:induction false} EndOfBurst(n: nat, at: int)
    requires n >= 1
    ensures EndOf(at, Burst(n, at)) == at
  {
    assert Burst(n, at)[1..] == Burst(n - 1, at);
    if n > 1 {
      EndOfBurst(n - 1, at);
    }
  }

  lemma TelltaleIsChronological(l: Limits)
    requires l.burst >= 1
    ensures Chronological(0, Telltale(l))
  {
    var later := [Sweep(IDLE + 1)] + Burst(l.burst, IDLE + 1);
    BurstIsChronological(l.burst, 0, 0);
    EndOfBurst(l.burst, 0);
    BurstIsChronological(l.burst, IDLE + 1, IDLE + 1);
    assert later[1..] == Burst(l.burst, IDLE + 1);
    ChronologicalConcat(0, Burst(l.burst, 0), later);
  }

  lemma FirstBurst(l: Limits, at: int)
    requires Sane(l) && l.burst >= 1
    ensures var (v, answers) := Serve(l, None, Burst(l.burst, at));
            v == Some(Visitor(0, at)) && |answers| == l.burst && forall i :: 0 <= i < l.burst ==> answers[i]
  {
    assert Burst(l.burst, at)[1..] == Burst(l.burst - 1, at);
    BurstAnswers(l, Visitor(l.burst - 1, at), l.burst - 1);
  }

  lemma SweepShowsOnTelltale(l: Limits)
    requires Sane(l) && l.burst >= 1 && !RefillsWhileIdle(l)
    ensures Serve(l, None, Telltale(l)).1 != Serve(l, None, WithoutSweeps(Telltale(l))).1
  {
    var first, second := Burst(l.burst, 0), Burst(l.burst, IDLE + 1);
    var later := [Sweep(IDLE + 1)] + second;
    assert later[1..] == second;
    FirstBurst(l, 0);
    FirstBurst(l, IDLE + 1);
    ServeConcat(l, None, first, later);
    CallsHaveNoSweeps(first);
    CallsHaveNoSweeps(second);
    WithoutSweepsConcat(first, later);
    assert WithoutSweeps(later) == second;
    ServeConcat(l, None, first, second);
    // Without the sweep, the second burst starts from a bucket that is not full.
    var refill := Refilled(l, Visitor(0, 0), IDLE + 1);
    QuotientMonotone(0, IDLE + 1, l.interval, l.rate);
    assert 0 <= refill < l.burst;
    SecondBurst(l, Visitor(0, 0), IDLE + 1);
    var n := 2 * l.burst - 1;
    assert Serve(l, None, Telltale(l)).1[n];
    assert !Serve(l, None, WithoutSweeps(Telltale(l))).1[n];
  }

  /** A burst of calls against a bucket that refills to less than the burst is not all admitted. */
  lemma SecondBurst(l: Limits, v: Visitor, at: int)
    requires Sane(l) && l.burst >= 1 && 0 <= Refilled(l, v, at) < l.burst
    ensures var answers := Serve(l, Some(v), Burst(l.burst, at)).1;
            |answers| == l.burst && !answers[l.burst - 1]
  {
    var (v1, ok) := Allow(l, Some(v), at);
    assert Burst(l.burst, at)[1..] == Burst(l.burst - 1, at);
    BurstAnswers(l, v1, l.burst - 1);
  }

  /** The sweeping limiter answers this history as one that never forgets. */
  ghost predicate AnswersAlike(l: Limits, events: seq<Event>)
    requires Sane(l)
  {
    Serve(l, None, events).1 == Serve(l, None, WithoutSweeps(events)).1
  }

  ghost predicate History(events: seq<Event>) {
    events == [] || Chronological(events[0].at, events)
  }

  /** Forgetting idle visitors is invisible on every history exactly when a bucket refills while idle. */
  lemma SweepsAreInvisibleExactlyWhen(l: Limits)
    requires Sane(l) && l.burst >= 1
    ensures (forall events: seq<Event> :: History(events) ==> AnswersAlike(l, events)) <==> RefillsWhileIdle(l)
  {
    if RefillsWhileIdle(l) {
      forall events: seq<Event> | History(events)
        ensures AnswersAlike(l, events)
      {
        SweepsAreInvisibleFrom(l, None, None, events, if events == [] then 0 else events[0].at);
      }
    } else {
      TelltaleIsChronological(l);
      SweepShowsOnTelltale(l);
      assert History(Telltale(l)) && !AnswersAlike(l, Telltale(l));
    }
  }

  /** The configured limiter: one token a second, ten at most. */
  const CONFIGURED := Limits(1, 10, 1_000_000_000)

  lemma ConfiguredLimiterForgetsInvisibly(events: seq<Event>)
    requires History(events)
    ensures AnswersAlike(CONFIGURED, events)
  {
    assert (IDLE + 1) / 1_000_000_000 == 1800;
    SweepsAreInvisibleExactlyWhen(CONFIGURED);
  }

  // ----- the bounds, with sweeps -----

  /** What is left of a history without its sweeps is a history that ends no later. */
  lemma {:induction false} CallsOfHistory(since: int, events: seq<Event>)
    requires Chronological(since, events)
    ensures var calls := WithoutSweeps(events);
            OnlyCalls(calls) && Chronological(since, calls) && EndOf(since, calls) <= EndOf(since, events)
    decreases |events|
  {
    if events != [] {
      var e, rest := events[0], events[1..];
      CallsOfHistory(e.at, rest);
      if e.Sweep? {
        assert WithoutSweeps(events) == WithoutSweeps(rest);
        LaterStart(since, e.at, WithoutSweeps(rest));
      } else {
        assert WithoutSweeps(events) == [e] + WithoutSweeps(rest);
        assert WithoutSweeps(events)[1..] == WithoutSweeps(rest);
      }
    }
  }

  lemma LaterStart(since: int, later: int, events: seq<Event>)
    requires since <= later && Chronological(later, events)
    ensures Chronological(since, events) && EndOf(since, events) <= EndOf(later, events)
  {
  }

  lemma {:induction false} ChronologicalSplit(since: int, a: seq<Event>, b: seq<Event>)
    requires Chronological(since, a + b)
    ensures Chronological(since, a) && Chronological(EndOf(since, a), b)
    decreases |a|
  {
    if a == [] {
      assert a + b == b;
    } else {
      assert (a + b)[1..] == a[1..] + b;
      ChronologicalSplit(a[0].at, a[1..], b);
    }
  }

  lemma {:induction false} HistoryKeepsTokens(l: Limits, v: Option<Visitor>, events: seq<Event>, since: int)
    requires Sane(l) && l.burst >= 1 && RefillsWhileIdle(l)
    requires SameOrForgotten(v, v, since) && Chronological(since, events)
    ensures var v' := Serve(l, v, events).0; SameOrForgotten(v', v', EndOf(since, events))
    decreases |events|
  {
    if events != [] {
      var e := events[0];
      var v1 := Step(l, v, e).0;
      if e.Call? {
        CallRemembers(l, v, v, since, e.at);
      }
      HistoryKeepsTokens(l, v1, events[1..], e.at);
    }
  }

  /** The limiter as it runs, sweeps at any times included, never admits what the exact bucket refuses. */
  lemma SweepingLimiterIsSimulated(l: Limits, events: seq<Event>)
    requires Sane(l) && l.burst >= 1 && RefillsWhileIdle(l) && History(events)
    ensures OnlyCalls(WithoutSweeps(events))
    ensures var answers, exact := Serve(l, None, events).1, ServeExactly(l, None, WithoutSweeps(events)).1;
            |answers| == |exact| && forall i :: 0 <= i < |answers| && answers[i] ==> exact[i]
  {
    var since := if events == [] then 0 else events[0].at;
    CallsOfHistory(since, events);
    SweepsAreInvisibleFrom(l, None, None, events, since);
    ExactBucketSimulates(l, None, None, WithoutSweeps(events), since);
  }

  /** Within any history of calls and sweeps, a window from a call at s to an event at t admits at most
      burst + rate * floor((t - s) / interval). */
  lemma SweptWindowBound(l: Limits, before: seq<Event>, window: seq<Event>)
    requires Sane(l) && l.burst >= 1 && RefillsWhileIdle(l)
    requires window != [] && window[0].Call? && History(before + window)
    ensures var s, t := window[0].at, EndOf(window[0].at, window);
            Admitted(Serve(l, Serve(l, None, before).0, window).1) <= l.burst + (t - s) / l.interval * l.rate
  {
    var s := window[0].at;
    var since := if before == [] then s else before[0].at;
    assert before == [] ==> before + window == window;
    ChronologicalSplit(since, before, window);
    HistoryKeepsTokens(l, None, before, since);
    SweptWindowBoundFrom(l, Serve(l, None, before).0, EndOf(since, before), window);
  }

  lemma SweptWindowBoundFrom(l: Limits, v: Option<Visitor>, since: int, window: seq<Event>)
    requires Sane(l) && l.burst >= 1 && RefillsWhileIdle(l) && SameOrForgotten(v, v, since)
    requires window != [] && window[0].Call? && Chronological(since, window)
    ensures var s, t := window[0].at, EndOf(window[0].at, window);
            Admitted(Serve(l, v, window).1) <= l.burst + (t - s) / l.interval * l.rate
  {
    var s, calls := window[0].at, WithoutSweeps(window);
    SweepsAreInvisibleFrom(l, v, v, window, since);
    CallsOfHistory(s, window);
    assert calls == [window[0]] + WithoutSweeps(window[1..]);
    WindowBound(l, v, calls);
    EndIsLater(s, calls);
    QuotientMonotone(EndOf(s, calls) - s, EndOf(s, window) - s, l.interval, l.rate);
  }

  // ----- and without refilling they fail -----

  /** The window bound holds of this window inside this history. */
  ghost predicate WindowBounded(l: Limits, before: seq<Event>, window: seq<Event>)
    requires Sane(l) && window != []
  {
    var s, t := window[0].at, EndOf(window[0].at, window);
    Admitted(Serve(l, Serve(l, None, before).0, window).1) <= l.burst + (t - s) / l.interval * l.rate
  }

  ghost predicate WindowIn(before: seq<Event>, window: seq<Event>) {
    window != [] && window[0].Call? && History(before + window)
  }

  lemma {:induction false} AllAdmitted(answers: seq<bool>)
    requires forall i :: 0 <= i < |answers| ==> answers[i]
    ensures Admitted(answers) == |answers|
  {
    if answers != [] {
      AllAdmitted(answers[1..]);
    }
  }

  /** With the sweep, both bursts of the telltale are admitted whole. */
  lemma TelltaleAnswers(l: Limits)
    requires Sane(l) && l.burst >= 1
    ensures var answers := Serve(l, None, Telltale(l)).1;
            |answers| == 2 * l.burst && forall i :: 0 <= i < |answers| ==> answers[i]
  {
    var later := [Sweep(IDLE + 1)] + Burst(l.burst, IDLE + 1);
    assert later[1..] == Burst(l.burst, IDLE + 1);
    FirstBurst(l, 0);
    FirstBurst(l, IDLE + 1);
    ServeConcat(l, None, Burst(l.burst, 0), later);
  }

  lemma {:induction false} EndOfConcat(since: int, a: seq<Event>, b: seq<Event>)
    ensures EndOf(since, a + b) == EndOf(EndOf(since, a), b)
    decreases |a|
  {
    if a == [] {
      assert a + b == b;
    } else {
      assert (a + b)[1..] == a[1..] + b;
      EndOfConcat(a[0].at, a[1..], b);
    }
  }

  lemma TelltaleEnds(l: Limits)
    requires l.burst >= 1
    ensures Telltale(l) != [] && Telltale(l)[0] == Call(0) && EndOf(0, Telltale(l)) == IDLE + 1
  {
    var later := [Sweep(IDLE + 1)] + Burst(l.burst, IDLE + 1);
    assert later[1..] == Burst(l.burst, IDLE + 1);
    EndOfBurst(l.burst, 0);
    EndOfBurst(l.burst, IDLE + 1);
    EndOfConcat(0, Burst(l.burst, 0), later);
  }

  lemma TelltaleExceedsBound(l: Limits)
    requires Sane(l) && l.burst >= 1 && !RefillsWhileIdle(l)
    ensures WindowIn([], Telltale(l)) && !WindowBounded(l, [], Telltale(l))
  {
    TelltaleEnds(l);
    TelltaleIsChronological(l);
    assert [] + Telltale(l) == Telltale(l);
    TelltaleAnswers(l);
    AllAdmitted(Serve(l, None, Telltale(l)).1);
  }

  /** The window bound holds of every window in every history of calls and sweeps exactly when a bucket refills
      while idle. */
  lemma SweptWindowBoundExactlyWhen(l: Limits)
    requires Sane(l) && l.burst >= 1
    ensures (forall before: seq<Event>, window: seq<Event> :: WindowIn(before, window) ==>
               WindowBounded(l, before, window))
            <==> RefillsWhileIdle(l)
  {
    if RefillsWhileIdle(l) {
      forall before: seq<Event>, window: seq<Event> | WindowIn(before, window)
        ensures WindowBounded(l, before, window)
      {
        SweptWindowBound(l, before, window);
      }
    } else {
      TelltaleExceedsBound(l);
    }
  }

  /** Nothing is admitted in this history that the exact bucket refuses. */
  ghost predicate NeverAheadOfExact(l: Limits, events: seq<Event>)
    requires Sane(l)
  {
    OnlyCalls(WithoutSweeps(events))
    && var answers, exact := Serve(l, None, events).1, ServeExactly(l, None, WithoutSweeps(events)).1;
       |answers| == |exact| && forall i :: 0 <= i < |answers| && answers[i] ==> exact[i]
  }

  /** Calls at one moment take the exact bucket's tokens too, and are refused after that. */
  lemma {:induction false} ExactBurstAnswers(l: Limits, b: Bucket, n: nat, at: int)
    requires Sane(l) && b.tokens <= l.burst && b.anchor <= at < b.anchor + l.interval
    ensures OnlyCalls(Burst(n, at))
    ensures var answers := ServeExactly(l, Some(b), Burst(n, at)).1;
            |answers| == n && forall i :: 0 <= i < n ==> answers[i] == (i < b.tokens)
    decreases n
  {
    if n > 0 {
      assert (at - b.anchor) / l.interval == 0;
      var (b1, ok) := AllowExactly(l, Some(b), at);
      assert b1 == if b.tokens <= 0 then b else Bucket(b.tokens - 1, b.anchor);
      assert Burst(n, at)[1..] == Burst(n - 1, at);
      ExactBurstAnswers(l, b1, n - 1, at);
      assert ServeExactly(l, Some(b), Burst(n, at)).1 == [ok] + ServeExactly(l, Some(b1), Burst(n - 1, at)).1;
    }
  }

  lemma CallsConcat(a: seq<Event>, c: seq<Event>)
    requires OnlyCalls(a) && OnlyCalls(c)
    ensures OnlyCalls(a + c)
  {
  }

  lemma {:induction false} ServeExactlyConcat(l: Limits, b: Option<Bucket>, a: seq<Event>, c: seq<Event>)
    requires Sane(l) && OnlyCalls(a) && OnlyCalls(c) && OnlyCalls(a + c)
    ensures ServeExactly(l, b, a + c).1 == ServeExactly(l, b, a).1 + ServeExactly(l, ServeExactly(l, b, a).0, c).1
    decreases |a|
  {
    if a == [] {
      assert a + c == c;
    } else {
      var tail := a[1..];
      assert (a + c)[0] == a[0] && (a + c)[1..] == tail + c;
      var (b1, ok) := AllowExactly(l, b, a[0].at);
      CallsConcat(tail, c);
      ServeExactlyConcat(l, Some(b1), tail, c);
      assert ServeExactly(l, b, a + c).1 == [ok] + ServeExactly(l, Some(b1), tail + c).1;
      assert ServeExactly(l, b, a).1 == [ok] + ServeExactly(l, Some(b1), tail).1;
    }
  }

  lemma {:induction false} ExactBurstEmpties(l: Limits, b: Bucket, n: nat, at: int)
    requires Sane(l) && n == b.tokens <= l.burst && b.anchor == at
    ensures OnlyCalls(Burst(n, at)) && ServeExactly(l, Some(b), Burst(n, at)).0 == Some(Bucket(0, at))
    decreases n
  {
    if n > 0 {
      assert (at - b.anchor) / l.interval == 0;
      assert Burst(n, at)[1..] == Burst(n - 1, at);
      ExactBurstEmpties(l, Bucket(n - 1, at), n - 1, at);
    }
  }

  lemma ExactFirstBurst(l: Limits)
    requires Sane(l) && l.burst >= 1
    ensures OnlyCalls(Burst(l.burst, 0))
    ensures var (b, answers) := ServeExactly(l, None, Burst(l.burst, 0));
            b == Some(Bucket(0, 0)) && |answers| == l.burst
  {
    assert Burst(l.burst, 0)[1..] == Burst(l.burst - 1, 0);
    ExactBurstEmpties(l, Bucket(l.burst - 1, 0), l.burst - 1, 0);
    ExactBurstAnswers(l, Bucket(l.burst - 1, 0), l.burst - 1, 0);
  }

  lemma ExactRefillFallsShort(l: Limits)
    requires Sane(l) && l.burst >= 1 && !RefillsWhileIdle(l)
    ensures var (b, ok) := AllowExactly(l, Some(Bucket(0, 0)), IDLE + 1);
            && (b.tokens < l.burst - 1 || (l.burst == 1 && !ok))
            && b.tokens <= l.burst && b.anchor <= IDLE + 1 < b.anchor + l.interval
  {
    QuotientMonotone(0, IDLE + 1, l.interval, l.rate);
    var intervals := (IDLE + 1) / l.interval;
    assert intervals * l.interval <= IDLE + 1 < intervals * l.interval + l.interval;
  }

  /** A second burst is refused in part by the exact bucket, if it has not refilled since the first. */
  lemma ExactRefusesSecondBurst(l: Limits)
    requires Sane(l) && l.burst >= 1 && !RefillsWhileIdle(l)
    ensures var calls := Burst(l.burst, 0) + Burst(l.burst, IDLE + 1);
            && OnlyCalls(calls)
            && |ServeExactly(l, None, calls).1| == 2 * l.burst
            && !ServeExactly(l, None, calls).1[2 * l.burst - 1]
  {
    var first, second := Burst(l.burst, 0), Burst(l.burst, IDLE + 1);
    ExactFirstBurst(l);
    ExactRefillFallsShort(l);
    var (b, ok) := AllowExactly(l, Some(Bucket(0, 0)), IDLE + 1);
    LastOfSecondBurst(l, b, ok);
    CallsConcat(first, second);
    ServeExactlyConcat(l, None, first, second);
  }

  lemma LastOfSecondBurst(l: Limits, b: Bucket, ok: bool)
    requires Sane(l) && l.burst >= 1 && AllowExactly(l, Some(Bucket(0, 0)), IDLE + 1) == (b, ok)
    requires b.tokens < l.burst - 1 || (l.burst == 1 && !ok)
    requires b.tokens <= l.burst && b.anchor <= IDLE + 1 < b.anchor + l.interval
    ensures OnlyCalls(Burst(l.burst, IDLE + 1))
    ensures var answers := ServeExactly(l, Some(Bucket(0, 0)), Burst(l.burst, IDLE + 1)).1;
            |answers| == l.burst && !answers[l.burst - 1]
  {
    assert Burst(l.burst, IDLE + 1)[1..] == Burst(l.burst - 1, IDLE + 1);
    ExactBurstAnswers(l, b, l.burst - 1, IDLE + 1);
    assert ServeExactly(l, Some(Bucket(0, 0)), Burst(l.burst, IDLE + 1)).1
        == [ok] + ServeExactly(l, Some(b), Burst(l.burst - 1, IDLE + 1)).1;
  }

  lemma TelltaleIsAhead(l: Limits)
    requires Sane(l) && l.burst >= 1 && !RefillsWhileIdle(l)
    ensures History(Telltale(l)) && !NeverAheadOfExact(l, Telltale(l))
  {
    var first, second := Burst(l.burst, 0), Burst(l.burst, IDLE + 1);
    var later := [Sweep(IDLE + 1)] + second;
    assert later[1..] == second;
    TelltaleEnds(l);
    TelltaleIsChronological(l);
    CallsHaveNoSweeps(first);
    CallsHaveNoSweeps(second);
    WithoutSweepsConcat(first, later);
    assert WithoutSweeps(later) == second;
    TelltaleAnswers(l);
    ExactRefusesSecondBurst(l);
  }

  /** The limiter never admits what the exact bucket refuses, in any history of calls and sweeps, exactly when a
      bucket refills while idle. */
  lemma SimulatedExactlyWhen(l: Limits)
    requires Sane(l) && l.burst >= 1
    ensures (forall events: seq<Event> :: History(events) ==> NeverAheadOfExact(l, events)) <==> RefillsWhileIdle(l)
  {
    if RefillsWhileIdle(l) {
      forall events: seq<Event> | History(events)
        ensures NeverAheadOfExact(l, events)
      {
        SweepingLimiterIsSimulated(l, events);
      }
    } else {
      TelltaleIsAhead(l);
    }
  }

  /** The configured limiter admits at most ten and one more for every whole second of the window. */
  lemma ConfiguredWindowBound(before: seq<Event>, window: seq<Event>)
    requires window != [] && window[0].Call? && History(before + window)
    ensures var s, t := window[0].at, EndOf(window[0].at, window);
            Admitted(Serve(CONFIGURED, Serve(CONFIGURED, None, before).0, window).1) <= 10 + (t - s) / 1_000_000_000
  {
    assert (IDLE + 1) / 1_000_000_000 == 1800;
    SweptWindowBound(CONFIGURED, before, window);
  }

  // ----- many visitors -----

  datatype Traffic = Request(key: string, at: int) | SweepAll(at: int)

  function Lookup(visitors: map<string, Visitor>, key: string): Option<Visitor> {
    if key in visitors then Some(visitors[key]) else None
  }

  function Swept(visitors: map<string, Visitor>, now: int): map<string, Visitor> {
    map key | key in visitors && !Forgotten(visitors[key], now) :: visitors[key]
  }

  function Handle(l: Limits, visitors: map<string, Visitor>, e: Traffic): map<string, Visitor>
    requires Sane(l)
  {
    match e
    case Request(key, at) => visitors[key := Allow(l, Lookup(visitors, key), at).0]
    case SweepAll(at) => Swept(visitors, at)
  }

  /** The answers that one key gets out of mixed traffic. */
  function AnswersTo(l: Limits, visitors: map<string, Visitor>, traffic: seq<Traffic>, key: string): seq<bool>
    requires Sane(l)
    decreases |traffic|
  {
    if traffic == [] then [] else
    (if traffic[0].Request? && traffic[0].key == key then [Allow(l, Lookup(visitors, key), traffic[0].at).1] else [])
    + AnswersTo(l, Handle(l, visitors, traffic[0]), traffic[1..], key)
  }

  /** What one key sees of the traffic: its own requests and every sweep. */
  function SeenBy(traffic: seq<Traffic>, key: string): seq<Event> {
    if traffic == [] then [] else
    (match traffic[0]
     case Request(k, at) => if k == key then [Call(at)] else []
     case SweepAll(at) => [Sweep(at)])
    + SeenBy(traffic[1..], key)
  }

  /** Keys do not interfere: each gets the answers it would get alone, so what is proved of one visitor's
      history holds of every key in any traffic. */
  lemma {:induction false} KeysAreIndependent(l: Limits, visitors: map<string, Visitor>, traffic: seq<Traffic>,
                                              key: string)
    requires Sane(l)
    ensures AnswersTo(l, visitors, traffic, key) == Serve(l, Lookup(visitors, key), SeenBy(traffic, key)).1
    decreases |traffic|
  {
    if traffic != [] {
      var e := traffic[0];
      var next := Handle(l, visitors, e);
      var rest := SeenBy(traffic[1..], key);
      KeysAreIndependent(l, next, traffic[1..], key);
      if e.SweepAll? || e.key == key {
        assert SeenBy(traffic, key)[1..] == rest;
      } else {
        assert Lookup(next, key) == Lookup(visitors, key);
        assert SeenBy(traffic, key) == rest;
      }
    }
  }

  /** A sweep keeps exactly the visitors seen in the last 30 minutes, as they were. */
  lemma SweepOutcome(l: Limits, visitors: map<string, Visitor>, now: int, key: string)
    requires Sane(l)
    ensures var visitors' := Handle(l, visitors, SweepAll(now));
            && (key in visitors' <==>
                  key in visitors && now - visitors[key].lastSeen <= 30 * 60 * 1_000_000_000)
            && (key in visitors' ==> visitors'[key] == visitors[key])
  {
  }

  // ----- the limiter itself -----

  class Limiter {
    const limits: Limits
    var visitors: map<string, Visitor>

    constructor (limits: Limits)
      ensures this.limits == limits && visitors == map[]
    {
      this.limits, visitors := limits, map[];
    }

    method AllowKey(key: string, now: int) returns (ok: bool)
      requires Sane(limits)
      modifies this
      ensures visitors == Handle(limits, old(visitors), Request(key, now))
      ensures ok == Allow(limits, Lookup(old(visitors), key), now).1
    {
      if key !in visitors {
        visitors := visitors[key := Visitor(limits.burst - 1, now)];
        return true;
      }
      var v := visitors[key];
      var elapsed := now - v.lastSeen;
      v := v.(lastSeen := now, tokens := v.tokens + Quotient(elapsed, limits.interval) * limits.rate);
      if v.tokens > limits.burst {
        v := v.(tokens := limits.burst);
      }
      if v.tokens <= 0 {
        visitors := visitors[key := v];
        return false;
      }
      visitors := visitors[key := v.(tokens := v.tokens - 1)];
      return true;
    }

    method Cleanup(now: int)
      modifies this
      ensures visitors == Swept(old(visitors), now)
    {
      ghost var before := visitors;
      var keys := visitors.Keys;
      while keys != {}
        invariant keys <= before.Keys && visitors.Keys <= before.Keys
        invariant forall k :: k in visitors ==> visitors[k] == before[k]
        invariant forall k :: k in before ==> (k in visitors <==> k in keys || !Forgotten(before[k], now))
        decreases keys
      {
        var k :| k in keys;
        keys := keys - {k};
        if now - visitors[k].lastSeen > IDLE {
          visitors := visitors - {k};
        }
      }
    }
  }
}
