/**
 What a caller of the compute service gets, in terms of the request and the stored columns alone: who may
 touch which instance, when a request goes through, and what exactly a Create stores.
 */
module ComputeOutcomes {
  import opened Lifecycle
  import opened ComputeTables
  import opened ComputeSpec
  import opened ComputeRuns
  import opened ComputeTheorems

  // ----- Start, Stop, Terminate -----

  /** The statuses from which each request is possible. */
  predicate Possible(action: Action, status: Status) {
    match action
    case Start => status.Stopped?
    case Stop => status.Running?
    case Terminate => !status.Terminating? && !status.Terminated?
  }

  /** The graph has the edges of these requests and those of the provider, and no others. */
  lemma GraphIsRequestsAndProvider(from: Status, to: Status)
    ensures CanTransition(from, to) <==>
              || (to.Pending? && Possible(Action.Start, from))
              || (to.Stopping? && Possible(Action.Stop, from))
              || (to.Terminating? && Possible(Action.Terminate, from))
              || ProviderEdge(from, to)
  {
  }

  /** A request with both writes succeeding goes through exactly for a member, on an instance of the same
      organization, from a status that admits it. Then it is answered Ok, and one row, its record and one event
      change as the action says; in every other case nothing does, and the answer names the first obstacle. */
  lemma RequestOutcome(t: Tables, now: int, member: bool, action: Action, org: int, id: nat)
    ensures var (t', r) := Request(t, now, member, action, org, id, Writes(true, true));
            var mine := member && id < |t.rows| && t.rows[id].org == org;
            if mine && Possible(action, t.rows[id].status) then
              var (status, desired) := match action
                                       case Start => (Pending, Pending)
                                       case Stop => (Stopping, Stopping)
                                       case Terminate => (Terminating, Terminated);
              && r == Ok
              && t'.rows == t.rows[id := t.rows[id].(status := status)]
              && t'.records == t.records[t.rows[id].pid := ProviderRecord(desired, now)]
              && t'.trail == t.trail + [Requested(action, id)]
            else
              && t' == t
              && r == if !member then ErrNotInOrg
                      else if !mine then ErrNotFound
                      else if action.Terminate? && t.rows[id].status.Terminated? then Ok
                      else ErrInvalidTransition
  {
  }

  /** If the provider write fails nothing changes; if only the row write fails, only the record does. Requests
      that would not go through do not get as far. */
  lemma FailedRequestOutcome(t: Tables, now: int, member: bool, action: Action, org: int, id: nat, w: Writes)
    requires !w.provider || !w.row
    ensures var (t', r) := Request(t, now, member, action, org, id, w);
            var whole := Request(t, now, member, action, org, id, Writes(true, true));
            var mine := member && id < |t.rows| && t.rows[id].org == org;
            if mine && Possible(action, t.rows[id].status) then
              && r == (if w.provider then ErrStore else ErrProvider)
              && t' == t.(records := if w.provider then whole.0.records else t.records)
            else (t', r) == whole
  {
  }

  /** From when on the provider reports what was asked for: after its delay, and at once for Terminate. */
  lemma RequestTakesEffectExactlyWhen(delays: Delays, t: Tables, now: int, action: Action, org: int, id: nat,
                                      later: int)
    requires id < |t.rows| && t.rows[id].org == org && Possible(action, t.rows[id].status)
    ensures var t' := Request(t, now, true, action, org, id, Writes(true, true)).0;
            var view := GetState(delays, t'.records, t.rows[id].pid, later);
            match action
            case Start => view == Reported(if later >= now + delays.provision then Running else Pending)
            case Stop => view == Reported(if later >= now + delays.stop then Stopped else Stopping)
            case Terminate => view == Reported(Terminated)
  {
  }

  // ----- whose instances a request may touch -----

  /** A request changes a row or the record of a row only for a member of the row's organization. */
  lemma OnlyMembersTouch(cfg: Config, boot: int, steps: seq<Step>, step: Step, i: nat)
    requires step.UserRequest? && i < |Run(cfg, Boot(boot), steps).t.rows|
    ensures var s := Run(cfg, Boot(boot), steps);
            var s' := Next(cfg, s, step);
            var row := s.t.rows[i];
            || (i < |s'.t.rows| && s'.t.rows[i] == row && (row.pid in s'.t.records <==> row.pid in s.t.records)
                && (row.pid in s.t.records ==> s'.t.records[row.pid] == s.t.records[row.pid]))
            || (step.id == i && step.member && step.org == row.org && Possible(step.action, row.status))
  {
    RunKeepsSane(cfg, Boot(boot), steps);
    RequestTouches(cfg, Run(cfg, Boot(boot), steps), step, i);
  }

  lemma RequestTouches(cfg: Config, s: State, step: Step, i: nat)
    requires Sane(s) && step.UserRequest? && i < |s.t.rows|
    ensures var s', row := Next(cfg, s, step), s.t.rows[i];
            || (i < |s'.t.rows| && s'.t.rows[i] == row && (row.pid in s'.t.records <==> row.pid in s.t.records)
                && (row.pid in s.t.records ==> s'.t.records[row.pid] == s.t.records[row.pid]))
            || (step.id == i && step.member && step.org == row.org && Possible(step.action, row.status))
  {
  }

  /** Nobody of this organization asks for anything. */
  predicate Stranger(step: Step, org: int) {
    step.UserRequest? ==> !step.member || step.org != org
  }

  lemma StrangerStep(cfg: Config, s: State, step: Step, i: nat)
    requires Sane(s) && i < |s.t.rows| && Stranger(step, s.t.rows[i].org)
    ensures var s', row := Next(cfg, s, step), s.t.rows[i];
            && i < |s'.t.rows| && s'.t.rows[i] == row.(status := s'.t.rows[i].status)
            && (row.pid in s'.t.records ==>
                  row.pid in s.t.records && s'.t.records[row.pid] == s.t.records[row.pid])
  {
    if step.UserRequest? {
      RequestTouches(cfg, s, step, i);
    } else if !step.WriteView? && !step.ReadView? && !step.BeginTick? && !step.Advance? && !step.LoseRecord? {
      CreateTouchesNoRow(cfg, s, step, i);
    }
  }

  lemma {:induction false} StrangersRun(cfg: Config, s: State, steps: seq<Step>, i: nat)
    requires Sane(s) && i < |s.t.rows| && forall n :: 0 <= n < |steps| ==> Stranger(steps[n], s.t.rows[i].org)
    ensures var s', row := Run(cfg, s, steps), s.t.rows[i];
            && i < |s'.t.rows| && s'.t.rows[i] == row.(status := s'.t.rows[i].status)
            && (row.pid in s'.t.records ==>
                  row.pid in s.t.records && s'.t.records[row.pid] == s.t.records[row.pid])
  {
    if steps != [] {
      var n := |steps| - 1;
      StrangersRun(cfg, s, steps[..n], i);
      RunKeepsSane(cfg, s, steps[..n]);
      StrangerStep(cfg, Run(cfg, s, steps[..n]), steps[n], i);
    }
  }

  /** Over any continuation of any run in which no member of its organization asks for anything, the record of
      an instance stays as it is, or is lost, and of its row at most the status changes. */
  lemma StrangersTouchNothing(cfg: Config, boot: int, before: seq<Step>, after: seq<Step>, i: nat)
    requires i < |Run(cfg, Boot(boot), before).t.rows|
    requires forall n :: 0 <= n < |after| ==> Stranger(after[n], Run(cfg, Boot(boot), before).t.rows[i].org)
    ensures var s, s' := Run(cfg, Boot(boot), before), Run(cfg, Boot(boot), before + after);
            var row := s.t.rows[i];
            && i < |s'.t.rows| && s'.t.rows[i] == row.(status := s'.t.rows[i].status)
            && (row.pid in s'.t.records ==>
                  row.pid in s.t.records && s'.t.records[row.pid] == s.t.records[row.pid])
  {
    RunConcat(cfg, Boot(boot), before, after);
    RunKeepsSane(cfg, Boot(boot), before);
    StrangersRun(cfg, Run(cfg, Boot(boot), before), after, i);
  }

  // ----- Create -----

  /** Usage is nothing for no rows, and one more row adds its own amount where it is stored, unless it is
      terminated. */
  lemma UsageCountsActiveRows(rows: seq<Row>, row: Row, scope: Scope, dim: Dimension)
    ensures Usage([], scope, dim) == 0
    ensures var counted := !row.status.Terminated?
                           && match scope case Org(o) => row.org == o case Region(r) => row.region == r;
            var amount := match dim
                          case Count => 1
                          case Cpu => row.size.cpu
                          case Memory => row.size.memory
                          case Disk => row.size.disk;
            Usage(rows + [row], scope, dim) == Usage(rows, scope, dim) + if counted then amount else 0
  {
    UsageAppend(rows, row, scope, dim);
  }

  predicate WithinQuota(cfg: Config, rows: seq<Row>, org: int, cpu: int, memory: int, disk: int) {
    var q := if org in cfg.quotas then cfg.quotas[org] else Quota(20, 16, 32768, 500);
    && Usage(rows, Org(org), Count) + 1 <= q.instances
    && Usage(rows, Org(org), Cpu) + cpu <= q.cpu
    && Usage(rows, Org(org), Memory) + memory <= q.memory
    && Usage(rows, Org(org), Disk) + disk <= q.disk
  }

  predicate WithinCapacity(cfg: Config, rows: seq<Row>, region: string, cpu: int, memory: int, disk: int) {
    && region in cfg.capacities
    && Usage(rows, Region(region), Cpu) + cpu <= cfg.capacities[region].cpu
    && Usage(rows, Region(region), Memory) + memory <= cfg.capacities[region].memory
    && Usage(rows, Region(region), Disk) + disk <= cfg.capacities[region].disk
  }

  lemma FitsExactlyWhen(cfg: Config, rows: seq<Row>, org: int, region: string, cpu: int, memory: int, disk: int)
    ensures Fits(cfg, rows, Org(org), Size(cpu, memory, disk)) <==> WithinQuota(cfg, rows, org, cpu, memory, disk)
    ensures region in cfg.capacities ==>
              (Fits(cfg, rows, Region(region), Size(cpu, memory, disk)) <==>
                 WithinCapacity(cfg, rows, region, cpu, memory, disk))
  {
    assert Limited(cfg, Org(org), Count) && Limited(cfg, Org(org), Cpu) && Limited(cfg, Org(org), Memory)
           && Limited(cfg, Org(org), Disk);
    if region in cfg.capacities {
      assert Limited(cfg, Region(region), Cpu) && Limited(cfg, Region(region), Memory)
             && Limited(cfg, Region(region), Disk) && !Limited(cfg, Region(region), Count);
    }
  }

  /** A request with its defaults written out. */
  datatype Wanted = Wanted(region: string, cpu: int, memory: int, disk: int)

  predicate IsWanted(req: CreateRequest, w: Wanted) {
    && w.region == (if req.region == "" then "us-east-1" else req.region)
    && w.cpu == (if req.cpu > 0 then req.cpu else 1)
    && w.memory == (if req.memory > 0 then req.memory else 1024)
    && w.disk == (if req.disk > 0 then req.disk else 10)
  }

  lemma DefaultsOf(req: CreateRequest, w: Wanted)
    requires IsWanted(req, w)
    ensures RegionOf(req) == w.region && SizeOf(req) == Size(w.cpu, w.memory, w.disk)
  {
  }

  /** Each answer of Create has exactly its own reason, in the order of the checks. */
  lemma CreateAnswer(cfg: Config, t: Tables, now: int, member: bool, org: int, req: CreateRequest, w: Wanted,
                     pid: ProviderID, provisioned: bool, result: InsertResult)
    requires IsWanted(req, w)
    ensures Create(cfg, t, now, member, org, req, pid, provisioned, result).1
         == if !member then ErrNotInOrg
            else if w.region !in cfg.capacities then ErrUnknownRegion
            else if !WithinQuota(cfg, t.rows, org, w.cpu, w.memory, w.disk) then ErrQuotaExceeded
            else if !WithinCapacity(cfg, t.rows, w.region, w.cpu, w.memory, w.disk) then ErrInsufficientCapacity
            else if !provisioned then ErrProvider
            else if !result.Stored? then ErrStore
            else Ok
  {
    DefaultsOf(req, w);
    FitsExactlyWhen(cfg, t.rows, org, w.region, w.cpu, w.memory, w.disk);
  }

  /** Create stores exactly what is wanted, where it is wanted, for the caller's organization, pending, with a
      new provider record. Refused, it leaves everything as it was, but for the provider record of a failed
      insert, which is to be destroyed if the clean-up succeeds. */
  lemma CreateOutcome(cfg: Config, t: Tables, now: int, member: bool, org: int, req: CreateRequest, w: Wanted,
                      pid: ProviderID, provisioned: bool, result: InsertResult)
    requires IsWanted(req, w)
    ensures var (t', r) := Create(cfg, t, now, member, org, req, pid, provisioned, result);
            match r
            case Ok =>
              && t'.rows == t.rows + [Row(org, w.region, pid, Pending, Size(w.cpu, w.memory, w.disk))]
              && t'.records == t.records[pid := ProviderRecord(Pending, now)]
              && t'.trail == t.trail + [Created(|t.rows|, Pending)]
            case ErrStore =>
              var desired := if result.RolledBack? then Terminated else Pending;
              t' == t.(records := t.records[pid := ProviderRecord(desired, now)])
            case _ => t' == t
  {
    DefaultsOf(req, w);
  }

  /** The stages of overlapping calls ask for the same: what a Create that has begun will store. */
  lemma BegunOutcome(cfg: Config, s: State, member: bool, org: int, req: CreateRequest, w: Wanted)
    requires IsWanted(req, w)
    ensures var s' := Next(cfg, s, BeginCreate(member, org, req));
            if member && w.region in cfg.capacities && WithinQuota(cfg, s.t.rows, org, w.cpu, w.memory, w.disk)
            then s' == s.(calls := s.calls + [CreateCall(org, w.region, Size(w.cpu, w.memory, w.disk), QuotaChecked)])
            else s' == s
  {
    DefaultsOf(req, w);
    FitsExactlyWhen(cfg, s.t.rows, org, w.region, w.cpu, w.memory, w.disk);
  }

  /** A member of the organization has asked for this, up to defaults. */
  ghost predicate AskedFor(steps: seq<Step>, org: int, region: string, size: Size) {
    exists n :: 0 <= n < |steps| && Asks(steps[n], org, region, size)
  }

  predicate Asks(step: Step, org: int, region: string, size: Size) {
    && step.BeginCreate? && step.member && step.org == org
    && IsWanted(step.req, Wanted(region, size.cpu, size.memory, size.disk))
  }

  lemma AskedForMore(steps: seq<Step>, step: Step, org: int, region: string, size: Size)
    ensures AskedFor(steps, org, region, size) || Asks(step, org, region, size) ==>
              AskedFor(steps + [step], org, region, size)
  {
    var all := steps + [step];
    if AskedFor(steps, org, region, size) {
      var n :| 0 <= n < |steps| && Asks(steps[n], org, region, size);
      assert Asks(all[n], org, region, size);
    }
    if Asks(step, org, region, size) {
      assert Asks(all[|steps|], org, region, size);
    }
  }

  /** Where a step's rows and calls come from: those before it, or the Create it begins. */
  lemma StepKeepsOrders(cfg: Config, s: State, step: Step)
    ensures var s' := Next(cfg, s, step);
            && (forall c :: 0 <= c < |s'.calls| ==>
                  || Asks(step, s'.calls[c].org, s'.calls[c].region, s'.calls[c].size)
                  || (c < |s.calls| && s'.calls[c] == s.calls[c].(phase := s'.calls[c].phase)))
            && (forall i :: 0 <= i < |s'.t.rows| ==>
                  || (i < |s.t.rows| && s'.t.rows[i] == s.t.rows[i].(status := s'.t.rows[i].status))
                  || exists c :: 0 <= c < |s.calls| && s'.t.rows[i].org == s.calls[c].org
                                 && s'.t.rows[i].region == s.calls[c].region && s'.t.rows[i].size == s.calls[c].size)
  {
    var s' := Next(cfg, s, step);
    if step.BeginCreate? {
      DefaultsOf(step.req, Wanted(RegionOf(step.req), SizeOf(step.req).cpu, SizeOf(step.req).memory,
                                  SizeOf(step.req).disk));
    }
    if step.Finish? && s'.t.rows != s.t.rows {
      var c := s.calls[step.call];
      assert s'.t.rows == s.t.rows + [NewRow(c)];
    }
  }

  ghost predicate AllAskedFor(steps: seq<Step>, s: State) {
    && (forall c :: 0 <= c < |s.calls| ==> AskedFor(steps, s.calls[c].org, s.calls[c].region, s.calls[c].size))
    && (forall i :: 0 <= i < |s.t.rows| ==> AskedFor(steps, s.t.rows[i].org, s.t.rows[i].region, s.t.rows[i].size))
  }

  lemma OneMoreAskedFor(cfg: Config, s: State, steps: seq<Step>, step: Step)
    requires AllAskedFor(steps, s)
    ensures AllAskedFor(steps + [step], Next(cfg, s, step))
  {
    var s' := Next(cfg, s, step);
    StepKeepsOrders(cfg, s, step);
    forall c | 0 <= c < |s'.calls|
      ensures AskedFor(steps + [step], s'.calls[c].org, s'.calls[c].region, s'.calls[c].size)
    {
      AskedForMore(steps, step, s'.calls[c].org, s'.calls[c].region, s'.calls[c].size);
    }
    forall i | 0 <= i < |s'.t.rows|
      ensures AskedFor(steps + [step], s'.t.rows[i].org, s'.t.rows[i].region, s'.t.rows[i].size)
    {
      AskedForMore(steps, step, s'.t.rows[i].org, s'.t.rows[i].region, s'.t.rows[i].size);
    }
  }

  /** In every run, every instance was asked for by a member of its organization, with its region and size. */
  lemma {:induction false} EveryRowWasAskedFor(cfg: Config, boot: int, steps: seq<Step>)
    ensures AllAskedFor(steps, Run(cfg, Boot(boot), steps))
  {
    if steps != [] {
      var n := |steps| - 1;
      EveryRowWasAskedFor(cfg, boot, steps[..n]);
      assert steps == steps[..n] + [steps[n]];
      OneMoreAskedFor(cfg, Run(cfg, Boot(boot), steps[..n]), steps[..n], steps[n]);
    }
  }

  // ----- the reconciler -----

  /** A turn records what it writes, and the status the instance was listed with. */
  lemma TurnOutcome(delays: Delays, t: Tables, e: Listed, turn: Turn)
    requires e.id < |t.rows|
    ensures var t' := Reconcile(delays, t, e, turn);
            if !turn.readOk || !turn.writeOk then t' == t else
            match GetState(delays, t.records, e.pid, turn.now)
            case NotFound =>
              t' == if e.status.Failed? then t
                    else t.(rows := t.rows[e.id := t.rows[e.id].(status := Failed)],
                            trail := t.trail + [StatusChanged(e.id, e.status, Failed)])
            case UnexpectedDesired(_) => t' == t
            case Reported(state) =>
              t' == if e.status == state then t
                    else t.(rows := t.rows[e.id := t.rows[e.id].(status := state)],
                            trail := t.trail + [StatusChanged(e.id, e.status, state)])
  {
  }
}
