/**
 Whole runs of the compute control plane. A run is any list of steps: the stages of overlapping Create
 calls, user requests (possibly cut between their two writes), the reconciler's listing, for each listed
 instance its reading of the provider's view and its writing of the status as two steps that anything may
 come between, the clock, and provider data loss. A step that is not possible in
 a state leaves the state alone, so every list of steps is a run.
 */
module ComputeRuns {
  import opened Lifecycle
  import opened ComputeTables
  import opened ComputeSpec

  /** How far a Create call has come; both checks read usage at their own moment. */
  datatype Phase = QuotaChecked | CapacityChecked | Provisioned(pid: ProviderID) | Done

  datatype CreateCall = CreateCall(org: int, region: string, size: Size, phase: Phase)

  /** Between its two database calls for the first listed instance the reconciler holds the status it is about
      to write, if any. */
  datatype Glance = NotLooking | Seen(write: seq<Status>)

  datatype State = State(t: Tables, calls: seq<CreateCall>, listed: seq<Listed>, glance: Glance, now: int)

  datatype Step =
    | BeginCreate(member: bool, org: int, req: CreateRequest)
    | CheckCapacity(call: nat)
    | Provision(call: nat, pid: ProviderID)
    | Finish(call: nat, result: InsertResult)
    | AbandonCreate(call: nat)
    | UserRequest(member: bool, action: Action, org: int, id: nat, writes: Writes)
    | BeginTick
    | ReadView(ok: bool)
    | WriteView(ok: bool)
    | Advance(duration: nat)
    | LoseRecord(pid: ProviderID)

  /** A provider id nobody holds: what newProviderID draws, up to collisions of 64 random bits. */
  ghost predicate Fresh(s: State, pid: ProviderID) {
    && pid !in s.t.records
    && (forall i :: 0 <= i < |s.t.rows| ==> s.t.rows[i].pid != pid)
    && (forall i :: 0 <= i < |s.calls| ==> s.calls[i].phase != Provisioned(pid))
  }

  function NewRow(c: CreateCall): Row
    requires c.phase.Provisioned?
  {
    Row(c.org, c.region, c.phase.pid, Pending, c.size)
  }

  function InPhase(s: State, call: nat, phase: Phase): State
    requires call < |s.calls|
  {
    s.(calls := s.calls[call := s.calls[call].(phase := phase)])
  }

  ghost function Next(cfg: Config, s: State, step: Step): State {
    match step
    case BeginCreate(member, org, req) =>
      if !member || RegionOf(req) !in cfg.capacities || !Fits(cfg, s.t.rows, Org(org), SizeOf(req)) then s
      else s.(calls := s.calls + [CreateCall(org, RegionOf(req), SizeOf(req), QuotaChecked)])
    case CheckCapacity(c) =>
      if c >= |s.calls| || !s.calls[c].phase.QuotaChecked? then s
      else if !Fits(cfg, s.t.rows, Region(s.calls[c].region), s.calls[c].size) then InPhase(s, c, Done)
      else InPhase(s, c, CapacityChecked)
    case Provision(c, pid) =>
      if c >= |s.calls| || !s.calls[c].phase.CapacityChecked? || !Fresh(s, pid) then s
      else InPhase(s, c, Provisioned(pid)).(t := SetRecord(s.t, pid, Pending, s.now))
    case Finish(c, result) =>
      if c >= |s.calls| || !s.calls[c].phase.Provisioned? then s
      else InPhase(s, c, Done).(t := FinishCreate(s.t, NewRow(s.calls[c]), s.now, result))
    case AbandonCreate(c) =>
      if c >= |s.calls| then s else InPhase(s, c, Done)
    case UserRequest(member, action, org, id, w) =>
      s.(t := ComputeSpec.Request(s.t, s.now, member, action, org, id, w).0)
    case BeginTick =>
      s.(listed := ListActive(s.t.rows), glance := NotLooking)
    case ReadView(ok) =>
      if s.listed == [] || s.glance.Seen? then s
      else s.(glance := Seen(StatusToWrite(cfg.delays, s.t.records, s.listed[0], Turn(s.now, ok, true))))
    case WriteView(ok) =>
      if s.listed == [] || s.glance.NotLooking? then s
      else s.(t := if ok then WriteStatus(s.t, s.listed[0], s.glance.write) else s.t,
              listed := s.listed[1..], glance := NotLooking)
    case Advance(d) => s.(now := s.now + d)
    case LoseRecord(pid) => s.(t := s.t.(records := s.t.records - {pid}))
  }

  ghost function Run(cfg: Config, s: State, steps: seq<Step>): State {
    if steps == [] then s
    else Next(cfg, Run(cfg, s, steps[..|steps| - 1]), steps[|steps| - 1])
  }

  function Boot(now: int): State {
    State(Tables([], map[], []), [], [], NotLooking, now)
  }

  /** No user request is cut between its provider write and its row write. */
  predicate Uncut(step: Step) {
    step.UserRequest? ==> (step.writes.provider ==> step.writes.row)
  }

  predicate AllUncut(steps: seq<Step>) {
    forall i :: 0 <= i < |steps| ==> Uncut(steps[i])
  }

  /** The step is not a user request that goes through on the very instance whose view the reconciler has
      read and not yet written. */
  ghost predicate Calm(cfg: Config, s: State, step: Step) {
    step.UserRequest? && s.glance.Seen? && s.listed != [] && s.listed[0].id == step.id ==> Next(cfg, s, step).t == s.t
  }

  ghost predicate CalmRun(cfg: Config, s: State, steps: seq<Step>) {
    steps == []
    || (CalmRun(cfg, s, steps[..|steps| - 1]) && Calm(cfg, Run(cfg, s, steps[..|steps| - 1]), steps[|steps| - 1]))
  }

  // ----- what every step keeps -----

  ghost predicate DistinctProviders(s: State) {
    && (forall i, j :: 0 <= i < j < |s.t.rows| ==> s.t.rows[i].pid != s.t.rows[j].pid)
    && (forall i, c :: 0 <= i < |s.t.rows| && 0 <= c < |s.calls| ==> s.calls[c].phase != Provisioned(s.t.rows[i].pid))
    && (forall c, d :: 0 <= c < d < |s.calls| && s.calls[c].phase.Provisioned? ==> s.calls[d].phase != s.calls[c].phase)
  }

  ghost predicate RecordsSane(s: State) {
    && (forall pid :: pid in s.t.records ==>
          s.t.records[pid].at <= s.now && s.t.records[pid].desired in {Pending, Stopping, Terminated})
    && (forall c :: 0 <= c < |s.calls| && s.calls[c].phase.Provisioned? && s.calls[c].phase.pid in s.t.records ==>
          s.t.records[s.calls[c].phase.pid].desired.Pending?)
  }

  /** What stays true of a listing while its tick is under way: listed instances are still not terminated. */
  ghost predicate ListingCurrent(s: State) {
    && (forall i :: 0 <= i < |s.listed| ==>
          && s.listed[i].id < |s.t.rows|
          && s.listed[i].pid == s.t.rows[s.listed[i].id].pid
          && !s.t.rows[s.listed[i].id].status.Terminated?)
    && (forall i, j :: 0 <= i < j < |s.listed| ==> s.listed[i].id < s.listed[j].id)
    && (s.glance.Seen? ==> s.listed != [] && |s.glance.write| <= 1)
  }

  ghost predicate Sane(s: State) {
    DistinctProviders(s) && RecordsSane(s) && ListingCurrent(s)
  }

  lemma CheckKeepsSane(cfg: Config, s: State, step: Step)
    requires Sane(s) && (step.BeginCreate? || step.CheckCapacity? || step.AbandonCreate?)
    ensures Sane(Next(cfg, s, step))
  {
  }

  lemma ProvisionKeepsSane(cfg: Config, s: State, step: Step)
    requires Sane(s) && step.Provision?
    ensures Sane(Next(cfg, s, step))
  {
  }

  lemma FinishKeepsSane(cfg: Config, s: State, step: Step)
    requires Sane(s) && step.Finish?
    ensures Sane(Next(cfg, s, step))
  {
  }

  lemma RequestKeepsSane(cfg: Config, s: State, step: Step)
    requires Sane(s) && step.UserRequest?
    ensures Sane(Next(cfg, s, step))
  {
  }

  lemma WriteKeepsSane(cfg: Config, s: State, step: Step)
    requires Sane(s) && step.WriteView?
    ensures Sane(Next(cfg, s, step))
  {
  }

  /** Every step of any kind, cut, racing or failing, keeps provider ids distinct, desired states known and
      listed instances not terminated. */
  lemma StepKeepsSane(cfg: Config, s: State, step: Step)
    requires Sane(s)
    ensures Sane(Next(cfg, s, step))
  {
    match step
    case UserRequest(_, _, _, _, _) => RequestKeepsSane(cfg, s, step);
    case ReadView(_) =>
    case WriteView(_) => WriteKeepsSane(cfg, s, step);
    case BeginTick => ActiveAreListed(s.t.rows);
    case Advance(_) =>
    case LoseRecord(_) =>
    case Provision(_, _) => ProvisionKeepsSane(cfg, s, step);
    case Finish(_, _) => FinishKeepsSane(cfg, s, step);
    case _ => CheckKeepsSane(cfg, s, step);
  }

  lemma {:induction false} RunKeepsSane(cfg: Config, s: State, steps: seq<Step>)
    requires Sane(s)
    ensures Sane(Run(cfg, s, steps))
  {
    if steps != [] {
      var n := |steps| - 1;
      RunKeepsSane(cfg, s, steps[..n]);
      StepKeepsSane(cfg, Run(cfg, s, steps[..n]), steps[n]);
    }
  }

  // ----- the coupling -----

  /** A row's record, while it exists, is coupled to the row's status. */
  ghost predicate RowCoupled(cfg: Config, s: State, strict: bool, i: nat)
    requires i < |s.t.rows|
  {
    s.t.rows[i].pid in s.t.records ==>
      var status, rec := s.t.rows[i].status, s.t.records[s.t.rows[i].pid];
      && LooselyCoupled(cfg.delays, status, rec, s.now)
      && (strict ==> Coupled(cfg.delays, status, rec, s.now))
  }

  ghost predicate RowsCoupled(cfg: Config, s: State, strict: bool) {
    forall i :: 0 <= i < |s.t.rows| ==> RowCoupled(cfg, s, strict, i)
  }

  /** A status the reconciler may write over another: the same, the provider's own edge on, Failed without a
      record, or, unless `strict`, up to two edges on because a cut request left the first one out. */
  ghost predicate MayWrite(from: Status, to: Status, recorded: bool, strict: bool) {
    to == from || ProviderEdge(from, to) || (to.Failed? && !recorded) || (!strict && WithinTwoEdges(from, to))
  }

  /** What the reconciler is about to write is still right for the row: it may follow the row's status, and it
      is coupled to the record. */
  ghost predicate GlanceCurrent(cfg: Config, s: State, strict: bool)
    requires ListingCurrent(s)
  {
    s.glance.Seen? && s.glance.write != [] ==>
      var row, write := s.t.rows[s.listed[0].id], s.glance.write[0];
      && MayWrite(row.status, write, row.pid in s.t.records, strict)
      && (row.pid in s.t.records ==> Coupled(cfg.delays, write, s.t.records[row.pid], s.now))
  }

  ghost predicate Inv(cfg: Config, s: State, strict: bool) {
    Sane(s) && RowsCoupled(cfg, s, strict) && GlanceCurrent(cfg, s, strict)
  }

  /** A step leaves a row alone, with its record unless that is lost. It does so with every row but that of a
      user request that goes through and the one the reconciler writes. */
  ghost predicate Untouched(s: State, s': State, i: nat)
    requires i < |s.t.rows|
  {
    && i < |s'.t.rows| && s'.t.rows[i] == s.t.rows[i] && s.now <= s'.now
    && var pid := s.t.rows[i].pid;
       pid in s'.t.records ==> pid in s.t.records && s'.t.records[pid] == s.t.records[pid]
  }

  lemma UntouchedRowStaysCoupled(cfg: Config, s: State, s': State, strict: bool, i: nat)
    requires i < |s.t.rows| && Untouched(s, s', i) && RowCoupled(cfg, s, strict, i)
    ensures RowCoupled(cfg, s', strict, i)
  {
    var row := s.t.rows[i];
    if row.pid in s'.t.records {
      CouplingSurvivesTime(cfg.delays, row.status, s.t.records[row.pid], s.now, s'.now);
    }
  }

  /** So does what the reconciler is about to write over it. */
  lemma UntouchedGlanceStaysCurrent(cfg: Config, s: State, s': State, strict: bool)
    requires Sane(s) && Sane(s') && s'.listed == s.listed && s'.glance == s.glance && s.glance.Seen?
    requires Untouched(s, s', s.listed[0].id) && GlanceCurrent(cfg, s, strict)
    ensures GlanceCurrent(cfg, s', strict)
  {
    var row := s.t.rows[s.listed[0].id];
    if s.glance.write != [] && row.pid in s'.t.records {
      CouplingSurvivesTime(cfg.delays, s.glance.write[0], s.t.records[row.pid], s.now, s'.now);
    }
  }

  lemma CreateTouchesNoRow(cfg: Config, s: State, step: Step, i: nat)
    requires Sane(s) && i < |s.t.rows|
    requires step.BeginCreate? || step.CheckCapacity? || step.Provision? || step.Finish? || step.AbandonCreate?
    ensures Untouched(s, Next(cfg, s, step), i)
  {
  }

  lemma RequestTouchesOneRow(cfg: Config, s: State, step: Step, i: nat)
    requires Sane(s) && i < |s.t.rows| && step.UserRequest?
    requires i != step.id || Next(cfg, s, step).t == s.t
    ensures Untouched(s, Next(cfg, s, step), i)
  {
  }

  /** The row of a request that goes through is coupled again, loosely if the request was cut. */
  lemma RequestedRowIsCoupled(cfg: Config, s: State, step: Step, strict: bool)
    requires Sane(s) && RowsCoupled(cfg, s, strict) && step.UserRequest? && (strict ==> Uncut(step))
    requires step.id < |s.t.rows|
    ensures step.id < |Next(cfg, s, step).t.rows| && RowCoupled(cfg, Next(cfg, s, step), strict, step.id)
  {
    assert RowCoupled(cfg, s, strict, step.id);
  }

  lemma NewRowIsCoupled(cfg: Config, s: State, step: Step, strict: bool)
    requires Sane(s) && step.Finish? && |Next(cfg, s, step).t.rows| > |s.t.rows|
    ensures var s' := Next(cfg, s, step); |s'.t.rows| == |s.t.rows| + 1 && RowCoupled(cfg, s', strict, |s.t.rows|)
  {
  }

  lemma CreateKeepsInv(cfg: Config, s: State, step: Step, strict: bool)
    requires Inv(cfg, s, strict)
    requires step.BeginCreate? || step.CheckCapacity? || step.Provision? || step.Finish? || step.AbandonCreate?
    ensures Inv(cfg, Next(cfg, s, step), strict)
  {
    var s' := Next(cfg, s, step);
    StepKeepsSane(cfg, s, step);
    forall i | 0 <= i < |s'.t.rows|
      ensures RowCoupled(cfg, s', strict, i)
    {
      if i < |s.t.rows| {
        CreateTouchesNoRow(cfg, s, step, i);
        UntouchedRowStaysCoupled(cfg, s, s', strict, i);
      } else {
        NewRowIsCoupled(cfg, s, step, strict);
      }
    }
    if s.glance.Seen? {
      CreateTouchesNoRow(cfg, s, step, s.listed[0].id);
      UntouchedGlanceStaysCurrent(cfg, s, s', strict);
    }
  }

  lemma RequestKeepsInv(cfg: Config, s: State, step: Step, strict: bool)
    requires Inv(cfg, s, strict) && step.UserRequest? && Calm(cfg, s, step) && (strict ==> Uncut(step))
    ensures Inv(cfg, Next(cfg, s, step), strict)
  {
    var s' := Next(cfg, s, step);
    StepKeepsSane(cfg, s, step);
    forall i | 0 <= i < |s'.t.rows|
      ensures RowCoupled(cfg, s', strict, i)
    {
      if i == step.id {
        RequestedRowIsCoupled(cfg, s, step, strict);
      } else {
        RequestTouchesOneRow(cfg, s, step, i);
        UntouchedRowStaysCoupled(cfg, s, s', strict, i);
      }
    }
    if s.glance.Seen? {
      RequestTouchesOneRow(cfg, s, step, s.listed[0].id);
      UntouchedGlanceStaysCurrent(cfg, s, s', strict);
    }
  }

  lemma EnvironmentKeepsInv(cfg: Config, s: State, step: Step, strict: bool)
    requires Inv(cfg, s, strict) && (step.BeginTick? || step.Advance? || step.LoseRecord?)
    ensures Inv(cfg, Next(cfg, s, step), strict)
  {
    var s' := Next(cfg, s, step);
    StepKeepsSane(cfg, s, step);
    forall i | 0 <= i < |s'.t.rows|
      ensures RowCoupled(cfg, s', strict, i)
    {
      UntouchedRowStaysCoupled(cfg, s, s', strict, i);
    }
    if s'.glance.Seen? {
      UntouchedGlanceStaysCurrent(cfg, s, s', strict);
    }
  }

  /** Reading a view finds a status that may be written. */
  lemma ReadKeepsInv(cfg: Config, s: State, step: Step, strict: bool)
    requires Inv(cfg, s, strict) && step.ReadView?
    ensures Inv(cfg, Next(cfg, s, step), strict)
  {
    var s' := Next(cfg, s, step);
    StepKeepsSane(cfg, s, step);
    assert forall i :: 0 <= i < |s.t.rows| && RowCoupled(cfg, s, strict, i) ==> RowCoupled(cfg, s', strict, i);
    if s.listed != [] && s.glance.NotLooking? {
      var e := s.listed[0];
      assert RowCoupled(cfg, s, strict, e.id);
      if e.pid in s.t.records {
        ViewWithinTwoEdges(cfg.delays, s.t.records, e.pid, s.now, s.t.rows[e.id].status);
        if strict {
          ViewFollowsGraph(cfg.delays, s.t.records, e.pid, s.now, s.t.rows[e.id].status);
        }
      }
    }
  }

  /** Writing it couples the row, strictly. */
  lemma WriteKeepsInv(cfg: Config, s: State, step: Step, strict: bool)
    requires Inv(cfg, s, strict) && step.WriteView?
    ensures Inv(cfg, Next(cfg, s, step), strict)
  {
    var s' := Next(cfg, s, step);
    StepKeepsSane(cfg, s, step);
    forall i | 0 <= i < |s'.t.rows|
      ensures RowCoupled(cfg, s', strict, i)
    {
      assert RowCoupled(cfg, s, strict, i);
    }
  }

  /** Every step keeps the coupling, unless a request goes through between the reconciler's reading and its
      writing of the same instance. */
  lemma StepKeepsInv(cfg: Config, s: State, step: Step, strict: bool)
    requires Inv(cfg, s, strict) && Calm(cfg, s, step) && (strict ==> Uncut(step))
    ensures Inv(cfg, Next(cfg, s, step), strict)
  {
    match step
    case UserRequest(_, _, _, _, _) => RequestKeepsInv(cfg, s, step, strict);
    case ReadView(_) => ReadKeepsInv(cfg, s, step, strict);
    case WriteView(_) => WriteKeepsInv(cfg, s, step, strict);
    case BeginTick => EnvironmentKeepsInv(cfg, s, step, strict);
    case Advance(_) => EnvironmentKeepsInv(cfg, s, step, strict);
    case LoseRecord(_) => EnvironmentKeepsInv(cfg, s, step, strict);
    case _ => CreateKeepsInv(cfg, s, step, strict);
  }

  lemma {:induction false} RunKeepsInv(cfg: Config, s: State, steps: seq<Step>, strict: bool)
    requires Inv(cfg, s, strict) && CalmRun(cfg, s, steps) && (strict ==> AllUncut(steps))
    ensures Inv(cfg, Run(cfg, s, steps), strict)
  {
    if steps != [] {
      var n := |steps| - 1;
      RunKeepsInv(cfg, s, steps[..n], strict);
      StepKeepsInv(cfg, Run(cfg, s, steps[..n]), steps[n], strict);
    }
  }
}
