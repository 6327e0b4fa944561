/** One whole Tick of the reconciler: what it writes, what it counts, when it has nothing left to do. */
module ComputeTick {
  import opened Lifecycle
  import opened ComputeTables
  import opened ComputeSpec
  import opened ComputeRuns
  import opened ComputeTheorems

  /** Nothing fails in the tick; every turn reads the clock for itself. */
  ghost predicate ErrorFree(turns: nat -> Turn) {
    forall i: nat :: turns(i).readOk && turns(i).writeOk
  }

  ghost predicate NotBefore(now: int, turns: nat -> Turn) {
    forall i: nat :: now <= turns(i).now
  }

  /** The status a row should have according to the provider; a terminated row is not looked at. */
  function Observed(delays: Delays, records: map<ProviderID, ProviderRecord>, row: Row, now: int): Status {
    if row.status.Terminated? then Terminated else
    match GetState(delays, records, row.pid, now)
    case NotFound => Failed
    case UnexpectedDesired(_) => row.status
    case Reported(state) => state
  }

  /** The status a turn leaves in its row. */
  function StatusAfter(delays: Delays, records: map<ProviderID, ProviderRecord>, row: Row, turn: Turn): Status {
    if turn.readOk && turn.writeOk then Observed(delays, records, row, turn.now) else row.status
  }

  /** Which turn of a Tick a row gets. */
  function TurnOf(rows: seq<Row>, id: nat): nat
    requires id <= |rows|
  {
    |ListActive(rows[..id])|
  }

  lemma {:induction false} RowGetsItsTurn(rows: seq<Row>, id: nat)
    requires id < |rows| && !rows[id].status.Terminated?
    ensures TurnOf(rows, id) < |ListActive(rows)| && ListActive(rows)[TurnOf(rows, id)] == ListedRow(rows, id)
  {
    var n := |rows| - 1;
    if id < n {
      RowGetsItsTurn(rows[..n], id);
      assert rows[..n][..id] == rows[..id];
    }
  }

  ghost predicate IsListed(listed: seq<Listed>, id: nat) {
    exists i :: 0 <= i < |listed| && listed[i].id == id
  }

  ghost function ChangedRows(rows: seq<Row>, rows': seq<Row>): set<nat> {
    set i: nat | i < |rows| && i < |rows'| && rows[i].status != rows'[i].status
  }

  lemma ListedHeadOrTail(listed: seq<Listed>, id: nat)
    requires listed != []
    ensures IsListed(listed, id) <==> id == listed[0].id || IsListed(listed[1..], id)
  {
    if IsListed(listed, id) && id != listed[0].id {
      var k :| 0 <= k < |listed| && listed[k].id == id;
      assert listed[1..][k - 1].id == id;
    }
    if IsListed(listed[1..], id) {
      var k :| 0 <= k < |listed[1..]| && listed[1..][k].id == id;
      assert listed[k + 1].id == id;
    }
  }

  /** One turn: only the listed row changes, and the turn counts if it does. */
  lemma TurnWritesView(delays: Delays, t: Tables, e: Listed, turn: Turn)
    requires e.id < |t.rows| && !t.rows[e.id].status.Terminated? && e == ListedRow(t.rows, e.id)
    ensures var t1 := Reconcile(delays, t, e, turn);
            && t1.records == t.records
            && t1.rows == t.rows[e.id := t.rows[e.id].(status := StatusAfter(delays, t.records, t.rows[e.id], turn))]
            && |StatusToWrite(delays, t.records, e, turn)|
               == if t1.rows[e.id].status != t.rows[e.id].status then 1 else 0
  {
  }

  /** The rest of a listing is one of the tables after the turn. */
  lemma TurnKeepsTail(delays: Delays, t: Tables, listed: seq<Listed>, turn: Turn)
    requires listed != [] && IsListing(t.rows, listed)
    ensures IsListing(Reconcile(delays, t, listed[0], turn).rows, listed[1..])
    ensures !IsListed(listed[1..], listed[0].id)
  {
    TurnWritesView(delays, t, listed[0], turn);
  }

  /** The loop of Tick, from any point on: each listed row gets what its own turn sees, the others stay. */
  lemma {:induction false} LoopWritesView(delays: Delays, t: Tables, listed: seq<Listed>, turns: nat -> Turn, i: nat)
    requires IsListing(t.rows, listed)
    ensures var t' := ReconcileAll(delays, t, listed, turns, i).0;
            && t'.records == t.records
            && |t'.rows| == |t.rows|
            && (forall k :: 0 <= k < |listed| ==>
                  var row := t.rows[listed[k].id];
                  t'.rows[listed[k].id] == row.(status := StatusAfter(delays, t.records, row, turns(i + k))))
            && (forall id: nat :: id < |t.rows| && !IsListed(listed, id) ==> t'.rows[id] == t.rows[id])
    decreases |listed|
  {
    if listed != [] {
      var e := listed[0];
      var t1 := Reconcile(delays, t, e, turns(i));
      var t' := ReconcileAll(delays, t, listed, turns, i).0;
      TurnWritesView(delays, t, e, turns(i));
      TurnKeepsTail(delays, t, listed, turns(i));
      LoopWritesView(delays, t1, listed[1..], turns, i + 1);
      forall k | 0 <= k < |listed|
        ensures var row := t.rows[listed[k].id];
                t'.rows[listed[k].id] == row.(status := StatusAfter(delays, t.records, row, turns(i + k)))
      {
        if k > 0 {
          assert listed[1..][k - 1] == listed[k];
          assert i + k == i + 1 + (k - 1);
        }
      }
      forall id: nat | id < |t.rows| && !IsListed(listed, id)
        ensures t'.rows[id] == t.rows[id]
      {
        ListedHeadOrTail(listed, id);
      }
    }
  }

  lemma ChangedOneMore(rows: seq<Row>, id: nat, row: Row, rows': seq<Row>)
    requires id < |rows| == |rows'| && rows'[id] == row
    ensures |ChangedRows(rows, rows')|
         == |ChangedRows(rows[id := row], rows')| + if row.status != rows[id].status then 1 else 0
  {
    var before, after := ChangedRows(rows, rows'), ChangedRows(rows[id := row], rows');
    assert id !in after;
    assert before == if row.status != rows[id].status then after + {id} else after;
  }

  /** The count that Tick returns is the number of rows whose status it changed. */
  lemma {:induction false} LoopCountsChanges(delays: Delays, t: Tables, listed: seq<Listed>, turns: nat -> Turn, i: nat)
    requires IsListing(t.rows, listed)
    ensures var (t', changed) := ReconcileAll(delays, t, listed, turns, i);
            changed == |ChangedRows(t.rows, t'.rows)|
    decreases |listed|
  {
    if listed == [] {
      assert ChangedRows(t.rows, t.rows) == {};
    } else {
      var e := listed[0];
      var t1 := Reconcile(delays, t, e, turns(i));
      var t' := ReconcileAll(delays, t1, listed[1..], turns, i + 1).0;
      TurnWritesView(delays, t, e, turns(i));
      TurnKeepsTail(delays, t, listed, turns(i));
      LoopWritesView(delays, t1, listed[1..], turns, i + 1);
      LoopCountsChanges(delays, t1, listed[1..], turns, i + 1);
      ChangedOneMore(t.rows, e.id, t1.rows[e.id], t'.rows);
    }
  }

  lemma ActiveRowsAreListed(rows: seq<Row>)
    ensures IsListing(rows, ListActive(rows))
    ensures forall id: nat :: IsListed(ListActive(rows), id) <==> id < |rows| && !rows[id].status.Terminated?
  {
    var listed := ListActive(rows);
    ActiveAreListed(rows);
    forall id: nat | id < |rows| && !rows[id].status.Terminated?
      ensures IsListed(listed, id)
    {
      assert ListedRow(rows, id) in listed;
    }
  }

  /** A Tick, whatever fails in it and however the clock moves: each row ends with the provider's view at its
      own turn if that turn succeeds, and as it was if not; and Tick returns how many rows it changed. */
  lemma TickWritesView(delays: Delays, t: Tables, turns: nat -> Turn)
    ensures var (t', changed) := Tick(delays, t, turns);
            && t'.records == t.records
            && |t'.rows| == |t.rows|
            && (forall id: nat :: id < |t.rows| ==>
                  var turn := turns(TurnOf(t.rows, id));
                  t'.rows[id] == t.rows[id].(status := StatusAfter(delays, t.records, t.rows[id], turn)))
            && changed == |ChangedRows(t.rows, t'.rows)|
  {
    var listed := ListActive(t.rows);
    var t' := Tick(delays, t, turns).0;
    ActiveRowsAreListed(t.rows);
    LoopWritesView(delays, t, listed, turns, 0);
    LoopCountsChanges(delays, t, listed, turns, 0);
    forall id: nat | id < |t.rows|
      ensures var turn := turns(TurnOf(t.rows, id));
              t'.rows[id] == t.rows[id].(status := StatusAfter(delays, t.records, t.rows[id], turn))
    {
      if !t.rows[id].status.Terminated? {
        RowGetsItsTurn(t.rows, id);
        assert listed[TurnOf(t.rows, id)].id == id;
      }
    }
  }

  /** A listed instance that a turn would not touch: its status is already the provider's. */
  ghost predicate Idle(delays: Delays, records: map<ProviderID, ProviderRecord>, e: Listed, now: int) {
    match GetState(delays, records, e.pid, now)
    case NotFound => e.status.Failed?
    case UnexpectedDesired(_) => true
    case Reported(state) => state == e.status
  }

  lemma {:induction false} IdleLoop(delays: Delays, t: Tables, listed: seq<Listed>, turns: nat -> Turn, i: nat)
    requires forall j, k: nat :: 0 <= j < |listed| && i <= k ==> Idle(delays, t.records, listed[j], turns(k).now)
    ensures ReconcileAll(delays, t, listed, turns, i) == (t, 0)
    decreases |listed|
  {
    if listed != [] {
      assert Idle(delays, t.records, listed[0], turns(i).now);
      IdleLoop(delays, t, listed[1..], turns, i + 1);
    }
  }

  /** At a fixed clock, after an error-free Tick a second one finds nothing to do. */
  lemma SecondTickIsIdle(delays: Delays, t: Tables, now: int, first: nat -> Turn, second: nat -> Turn)
    requires ErrorFree(first) && forall i: nat :: first(i).now == second(i).now == now
    ensures var t' := Tick(delays, t, first).0; Tick(delays, t', second) == (t', 0)
  {
    TickWritesView(delays, t, first);
    var t' := Tick(delays, t, first).0;
    var listed := ListActive(t'.rows);
    ActiveAreListed(t'.rows);
    forall j, k: nat | 0 <= j < |listed|
      ensures Idle(delays, t'.records, listed[j], second(k).now)
    {
    }
    IdleLoop(delays, t', listed, second, 0);
  }

  // ----- settling -----

  /** Steps after the last user request and the last data loss. */
  predicate Quiet(step: Step) {
    step.Advance? || step.BeginTick? || step.ReadView? || step.WriteView?
  }

  lemma {:induction false} QuietKeepsRecords(cfg: Config, s: State, steps: seq<Step>)
    requires forall i :: 0 <= i < |steps| ==> Quiet(steps[i])
    ensures Run(cfg, s, steps).t.records == s.t.records && Run(cfg, s, steps).now >= s.now
  {
    if steps != [] {
      QuietKeepsRecords(cfg, s, steps[..|steps| - 1]);
    }
  }

  ghost predicate Elapsed(delays: Delays, records: map<ProviderID, ProviderRecord>, now: int) {
    forall pid :: pid in records ==> now - records[pid].at >= delays.provision && now - records[pid].at >= delays.stop
                                     && records[pid].desired in {Pending, Stopping, Terminated}
  }

  /** A row looked at after all delays have passed is settled, and idle whenever it is looked at again. */
  lemma SettledRowIsIdle(delays: Delays, records: map<ProviderID, ProviderRecord>, row: Row, now: int, at: int,
                         later: int)
    requires Elapsed(delays, records, now) && now <= at && now <= later
    ensures var status := Observed(delays, records, row, at);
            && status in {Running, Stopped, Terminated, Failed}
            && (status.Terminated? || Idle(delays, records, Listed(0, row.pid, status), later))
  {
    if row.pid in records {
      ViewIsStable(delays, records, row.pid, now, at);
      ViewIsStable(delays, records, row.pid, now, later);
    }
  }

  lemma IdleIgnoresID(delays: Delays, records: map<ProviderID, ProviderRecord>, e: Listed, id: nat, now: int)
    ensures Idle(delays, records, e, now) <==> Idle(delays, records, e.(id := id), now)
  {
  }

  lemma ElapsedTickSettles(delays: Delays, t: Tables, now: int, first: nat -> Turn, turns: nat -> Turn)
    requires Elapsed(delays, t.records, now)
    requires ErrorFree(first) && NotBefore(now, first) && NotBefore(now, turns)
    ensures var t' := Tick(delays, t, first).0;
            && (forall id: nat :: id < |t'.rows| ==> t'.rows[id].status in {Running, Stopped, Terminated, Failed})
            && Tick(delays, t', turns) == (t', 0)
  {
    TickWritesView(delays, t, first);
    var t' := Tick(delays, t, first).0;
    forall id: nat | id < |t'.rows|
      ensures t'.rows[id].status in {Running, Stopped, Terminated, Failed}
    {
      SettledRowIsIdle(delays, t.records, t.rows[id], now, first(TurnOf(t.rows, id)).now, now);
    }
    var listed := ListActive(t'.rows);
    ActiveAreListed(t'.rows);
    forall j, k: nat | 0 <= j < |listed|
      ensures Idle(delays, t'.records, listed[j], turns(k).now)
    {
      var e := listed[j];
      SettledRowIsIdle(delays, t.records, t.rows[e.id], now, first(TurnOf(t.rows, e.id)).now, turns(k).now);
      IdleIgnoresID(delays, t.records, e, 0, turns(k).now);
    }
    IdleLoop(delays, t', listed, turns, 0);
  }

  /** Long enough after the last request, in any run, cuts and races included, one error-free Tick settles
      every instance, however its clock moves, and every later Tick, whatever fails in it, changes nothing. */
  lemma TickSettles(cfg: Config, boot: int, busy: seq<Step>, quiet: seq<Step>, first: nat -> Turn, turns: nat -> Turn)
    requires forall i :: 0 <= i < |quiet| ==> Quiet(quiet[i])
    requires var last, s := Run(cfg, Boot(boot), busy), Run(cfg, Boot(boot), busy + quiet);
             && s.now - last.now >= cfg.delays.provision && s.now - last.now >= cfg.delays.stop
             && ErrorFree(first) && NotBefore(s.now, first) && NotBefore(s.now, turns)
    ensures var s := Run(cfg, Boot(boot), busy + quiet);
            var t' := Tick(cfg.delays, s.t, first).0;
            && (forall id: nat :: id < |t'.rows| ==> t'.rows[id].status in {Running, Stopped, Terminated, Failed})
            && Tick(cfg.delays, t', turns) == (t', 0)
  {
    var last, s := Run(cfg, Boot(boot), busy), Run(cfg, Boot(boot), busy + quiet);
    RunConcat(cfg, Boot(boot), busy, quiet);
    RunKeepsSane(cfg, Boot(boot), busy);
    QuietKeepsRecords(cfg, last, quiet);
    ElapsedTickSettles(cfg.delays, s.t, s.now, first, turns);
  }

  /** A row's status is what the provider says of it, or failed if the provider knows nothing. */
  predicate Agrees(status: Status, view: View) {
    if view.NotFound? then status.Failed? else view == Reported(status)
  }

  lemma ObservedAgrees(delays: Delays, records: map<ProviderID, ProviderRecord>, row: Row, now: int)
    requires !row.status.Terminated? && !GetState(delays, records, row.pid, now).UnexpectedDesired?
    ensures Agrees(Observed(delays, records, row, now), GetState(delays, records, row.pid, now))
  {
  }

  /** In every reachable state, cuts and races included, an error-free Tick makes each active status the
      provider's view at the time of that instance's own turn. */
  lemma TickHealsCuts(cfg: Config, boot: int, steps: seq<Step>, turns: nat -> Turn, id: nat)
    requires ErrorFree(turns)
    requires var s := Run(cfg, Boot(boot), steps); id < |s.t.rows| && !s.t.rows[id].status.Terminated?
    ensures var t := Run(cfg, Boot(boot), steps).t;
            var t' := Tick(cfg.delays, t, turns).0;
            && id < |t'.rows|
            && Agrees(t'.rows[id].status,
                      GetState(cfg.delays, t.records, t.rows[id].pid, turns(TurnOf(t.rows, id)).now))
  {
    var t := Run(cfg, Boot(boot), steps).t;
    var now := turns(TurnOf(t.rows, id)).now;
    UnexpectedStateUnreachable(cfg, boot, steps, t.rows[id].pid, now);
    TickWritesView(cfg.delays, t, turns);
    ObservedAgrees(cfg.delays, t.records, t.rows[id], now);
  }

  // ----- a whole Tick and a whole Create are runs -----

  ghost predicate ClockRuns(now: int, turns: nat -> Turn, i: nat) {
    now <= turns(i).now && forall k: nat :: i <= k ==> turns(k).now <= turns(k + 1).now
  }

  lemma TwoSteps(cfg: Config, s: State, a: Step, b: Step)
    ensures Run(cfg, s, [a]) == Next(cfg, s, a)
    ensures Run(cfg, s, [a, b]) == Next(cfg, Next(cfg, s, a), b)
  {
    assert [a][..0] == [] && [a, b][..1] == [a];
  }

  lemma TurnIsThreeSteps(cfg: Config, s: State, turn: Turn)
    requires s.listed != [] && s.glance.NotLooking? && s.now <= turn.now
    ensures var s1 := Run(cfg, s, [Advance(turn.now - s.now), ReadView(turn.readOk), WriteView(turn.writeOk)]);
            s1 == s.(t := Reconcile(cfg.delays, s.t, s.listed[0], turn), listed := s.listed[1..], now := turn.now)
  {
    var a, b, c := Advance(turn.now - s.now), ReadView(turn.readOk), WriteView(turn.writeOk);
    TwoSteps(cfg, s, a, b);
    assert [a, b, c][..2] == [a, b];
  }

  /** Steps that no user takes: none of them is cut, and none races with the reconciler. */
  predicate NoRequests(steps: seq<Step>) {
    forall i :: 0 <= i < |steps| ==> !steps[i].UserRequest?
  }

  lemma {:induction false} NoRequestsIsCalm(cfg: Config, s: State, steps: seq<Step>)
    requires NoRequests(steps)
    ensures AllUncut(steps) && CalmRun(cfg, s, steps)
  {
    if steps != [] {
      NoRequestsIsCalm(cfg, s, steps[..|steps| - 1]);
    }
  }

  lemma {:induction false} LoopIsRun(cfg: Config, s: State, turns: nat -> Turn, i: nat) returns (steps: seq<Step>)
    requires ClockRuns(s.now, turns, i) && s.glance.NotLooking?
    ensures NoRequests(steps)
    ensures var s' := Run(cfg, s, steps);
            s'.t == ReconcileAll(cfg.delays, s.t, s.listed, turns, i).0 && s'.calls == s.calls
    decreases |s.listed|
  {
    if s.listed == [] {
      steps := [];
    } else {
      var turn := turns(i);
      var here := [Advance(turn.now - s.now), ReadView(turn.readOk), WriteView(turn.writeOk)];
      var s1 := Run(cfg, s, here);
      TurnIsThreeSteps(cfg, s, turn);
      var rest := LoopIsRun(cfg, s1, turns, i + 1);
      steps := here + rest;
      RunConcat(cfg, s, here, rest);
    }
  }

  /** Tick with any clock that does not run backwards, and any failures, is a run of uncut and calm steps:
      what is proved of all runs holds of it. */
  lemma TickIsRun(cfg: Config, s: State, turns: nat -> Turn) returns (steps: seq<Step>)
    requires ClockRuns(s.now, turns, 0)
    ensures NoRequests(steps) && AllUncut(steps) && CalmRun(cfg, s, steps)
    ensures Run(cfg, s, steps).t == Tick(cfg.delays, s.t, turns).0
  {
    var s1 := Next(cfg, s, BeginTick);
    var rest := LoopIsRun(cfg, s1, turns, 0);
    steps := [BeginTick] + rest;
    TwoSteps(cfg, s, BeginTick, BeginTick);
    RunConcat(cfg, s, [BeginTick], rest);
    NoRequestsIsCalm(cfg, s, steps);
  }

  /** The steps of a whole Create: its two checks, and then what becomes of the provider write. */
  function StepsOfCreate(c: nat, member: bool, org: int, req: CreateRequest, pid: ProviderID, provisioned: bool,
                         result: InsertResult): seq<Step>
  {
    [BeginCreate(member, org, req), CheckCapacity(c)]
    + if provisioned then [Provision(c, pid), Finish(c, result)] else [AbandonCreate(c)]
  }

  /** A whole Create with a fresh provider id is a run of its stages, whichever of its writes fail. */
  lemma CreateIsRun(cfg: Config, s: State, member: bool, org: int, req: CreateRequest, pid: ProviderID,
                    provisioned: bool, result: InsertResult)
    requires Fresh(s, pid)
    ensures var steps := StepsOfCreate(|s.calls|, member, org, req, pid, provisioned, result);
            NoRequests(steps)
            && Run(cfg, s, steps).t == Create(cfg, s.t, s.now, member, org, req, pid, provisioned, result).0
  {
    var c := |s.calls|;
    var a, b, d, e := BeginCreate(member, org, req), CheckCapacity(c), Provision(c, pid), Finish(c, result);
    TwoSteps(cfg, s, a, b);
    var s2 := Run(cfg, s, [a, b]);
    TwoSteps(cfg, s2, d, e);
    TwoSteps(cfg, s2, AbandonCreate(c), e);
    RunConcat(cfg, s, [a, b], if provisioned then [d, e] else [AbandonCreate(c)]);
    ChecksOfCreate(cfg, s, member, org, req);
    if s2.calls != s.calls && s2.calls[c].phase.CapacityChecked? {
      assert Fresh(s2, pid);
    }
  }

  /** The two checks leave the tables alone and a call behind exactly if Create gets past them. */
  lemma ChecksOfCreate(cfg: Config, s: State, member: bool, org: int, req: CreateRequest)
    ensures var c := |s.calls|;
            var s2 := Next(cfg, Next(cfg, s, BeginCreate(member, org, req)), CheckCapacity(c));
            var passed := member && RegionOf(req) in cfg.capacities && Fits(cfg, s.t.rows, Org(org), SizeOf(req));
            if !passed then s2 == s
            else s2 == s.(calls := s.calls + [CreateCall(org, RegionOf(req), SizeOf(req),
                            if Fits(cfg, s.t.rows, Region(RegionOf(req)), SizeOf(req)) then CapacityChecked else Done)])
  {
    var c := |s.calls|;
    var s1 := Next(cfg, s, BeginCreate(member, org, req));
    if s1.calls != s.calls {
      var call := s1.calls[c];
      assert s1.calls[c := call.(phase := Done)] == s.calls + [call.(phase := Done)];
      assert s1.calls[c := call.(phase := CapacityChecked)] == s.calls + [call.(phase := CapacityChecked)];
    }
  }
}
