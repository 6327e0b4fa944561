/** What every run of the compute control plane keeps: the lifecycle graph, finality, the trail, no leaks. */
module ComputeTheorems {
  import opened Lifecycle
  import opened ComputeTables
  import opened ComputeSpec
  import opened ComputeRuns

  // ----- the lifecycle graph -----

  /** Only a status may change, row by row. */
  ghost predicate OnlyStatusesChange(rows: seq<Row>, rows': seq<Row>) {
    && |rows| <= |rows'|
    && forall i :: 0 <= i < |rows| ==> rows'[i] == rows[i].(status := rows'[i].status)
  }

  lemma RequestIsAnEdge(t: Tables, now: int, member: bool, action: Action, org: int, id: nat, w: Writes)
    ensures var rows, rows' := t.rows, Request(t, now, member, action, org, id, w).0.rows;
            rows' == rows || (id < |rows| && rows' == SetStatus(rows, id, TargetStatus(action))
                              && CanTransition(rows[id].status, TargetStatus(action)))
  {
  }

  /** Whatever the state: any step but the reconciler's write follows the graph. */
  lemma OthersFollowGraph(cfg: Config, s: State, step: Step)
    requires !step.WriteView?
    ensures var s' := Next(cfg, s, step);
            && OnlyStatusesChange(s.t.rows, s'.t.rows)
            && forall i :: 0 <= i < |s.t.rows| && s'.t.rows[i] != s.t.rows[i] ==>
                 CanTransition(s.t.rows[i].status, s'.t.rows[i].status)
  {
    if step.UserRequest? {
      RequestIsAnEdge(s.t, s.now, step.member, step.action, step.org, step.id, step.writes);
    }
  }

  /** A permitted change: an edge, the reconciler marking an instance whose record is gone, or, unless
      `strict`, the reconciler skipping the one edge that a cut request left out. */
  ghost predicate Permitted(s: State, s': State, step: Step, strict: bool, i: nat)
    requires i < |s.t.rows| && i < |s'.t.rows|
  {
    || CanTransition(s.t.rows[i].status, s'.t.rows[i].status)
    || (step.WriteView? && s'.t.rows[i].status.Failed? && s.t.rows[i].pid !in s.t.records)
    || (step.WriteView? && !strict && WithinTwoEdges(s.t.rows[i].status, s'.t.rows[i].status))
  }

  ghost predicate ChangesPermitted(s: State, s': State, step: Step, strict: bool) {
    && OnlyStatusesChange(s.t.rows, s'.t.rows)
    && forall i :: 0 <= i < |s.t.rows| && s'.t.rows[i] != s.t.rows[i] ==> Permitted(s, s', step, strict, i)
  }

  lemma StepChangesPermitted(cfg: Config, s: State, step: Step, strict: bool)
    requires Inv(cfg, s, strict)
    ensures ChangesPermitted(s, Next(cfg, s, step), step, strict)
  {
    if !step.WriteView? {
      OthersFollowGraph(cfg, s, step);
    }
  }

  /** In every run without cut requests, every status change is an edge of the graph, or the reconciler
      marking an instance failed whose provider record is gone. The reconciler's reading and writing may be
      any time apart and anything may come between, except a request that goes through on that instance. */
  lemma EveryChangeIsAnEdge(cfg: Config, boot: int, steps: seq<Step>, step: Step)
    requires AllUncut(steps) && CalmRun(cfg, Boot(boot), steps)
    ensures var s := Run(cfg, Boot(boot), steps);
            ChangesPermitted(s, Next(cfg, s, step), step, true)
  {
    RunKeepsInv(cfg, Boot(boot), steps, true);
    StepChangesPermitted(cfg, Run(cfg, Boot(boot), steps), step, true);
  }

  /** With requests cut anywhere between their two writes, the reconciler still stays within two edges, and
      everybody else within one. */
  lemma CutRunsStayWithinTwoEdges(cfg: Config, boot: int, steps: seq<Step>, step: Step)
    requires CalmRun(cfg, Boot(boot), steps)
    ensures var s := Run(cfg, Boot(boot), steps);
            ChangesPermitted(s, Next(cfg, s, step), step, false)
  {
    RunKeepsInv(cfg, Boot(boot), steps, false);
    StepChangesPermitted(cfg, Run(cfg, Boot(boot), steps), step, false);
  }

  /** In every run, cuts and races included, GetState never meets a desired state it does not know. */
  lemma {:induction false} UnexpectedStateUnreachable(cfg: Config, boot: int, steps: seq<Step>, pid: ProviderID,
                                                      now: int)
    ensures !GetState(cfg.delays, Run(cfg, Boot(boot), steps).t.records, pid, now).UnexpectedDesired?
  {
    RunKeepsSane(cfg, Boot(boot), steps);
  }

  // ----- finality -----

  lemma {:induction false} RunConcat(cfg: Config, s: State, first: seq<Step>, second: seq<Step>)
    ensures Run(cfg, s, first + second) == Run(cfg, Run(cfg, s, first), second)
  {
    if second == [] {
      assert first + second == first;
    } else {
      var n := |second| - 1;
      assert (first + second)[..|first + second| - 1] == first + second[..n];
      RunConcat(cfg, s, first, second[..n]);
    }
  }

  lemma StepKeepsTerminated(cfg: Config, s: State, step: Step, id: nat)
    requires Sane(s) && id < |s.t.rows| && s.t.rows[id].status.Terminated?
    ensures id < |Next(cfg, s, step).t.rows| && Next(cfg, s, step).t.rows[id] == s.t.rows[id]
  {
  }

  lemma {:induction false} SaneRunKeepsTerminated(cfg: Config, s: State, steps: seq<Step>, id: nat)
    requires Sane(s) && id < |s.t.rows| && s.t.rows[id].status.Terminated?
    ensures id < |Run(cfg, s, steps).t.rows| && Run(cfg, s, steps).t.rows[id] == s.t.rows[id]
  {
    if steps != [] {
      var n := |steps| - 1;
      SaneRunKeepsTerminated(cfg, s, steps[..n], id);
      RunKeepsSane(cfg, s, steps[..n]);
      StepKeepsTerminated(cfg, Run(cfg, s, steps[..n]), steps[n], id);
    }
  }

  /** Terminated is final: whatever happens after a row is terminated, cuts and races included, the row stays as
      it is. */
  lemma TerminatedIsFinal(cfg: Config, boot: int, before: seq<Step>, after: seq<Step>, id: nat)
    requires var s := Run(cfg, Boot(boot), before); id < |s.t.rows| && s.t.rows[id].status.Terminated?
    ensures var s, s' := Run(cfg, Boot(boot), before), Run(cfg, Boot(boot), before + after);
            id < |s'.t.rows| && s'.t.rows[id] == s.t.rows[id]
  {
    RunConcat(cfg, Boot(boot), before, after);
    RunKeepsSane(cfg, Boot(boot), before);
    SaneRunKeepsTerminated(cfg, Run(cfg, Boot(boot), before), after, id);
  }

  // ----- the audit trail -----

  /** The trail says of these tables what it says of the old ones, changed as the one new event says. */
  ghost predicate RecordedBy(t: Tables, t': Tables, e: Event) {
    t'.trail == t.trail + [e] && Statuses(t'.rows) == After(Statuses(t.rows), e)
  }

  lemma RequestIsRecorded(t: Tables, now: int, member: bool, action: Action, org: int, id: nat, w: Writes)
    ensures var t' := Request(t, now, member, action, org, id, w).0;
            (t'.rows == t.rows && t'.trail == t.trail) || RecordedBy(t, t', Requested(action, id))
  {
  }

  lemma WriteIsRecorded(t: Tables, e: Listed, write: seq<Status>)
    requires e.id < |t.rows|
    ensures var t' := WriteStatus(t, e, write);
            if write == [] then t'.rows == t.rows && t'.trail == t.trail
            else RecordedBy(t, t', StatusChanged(e.id, e.status, write[0]))
  {
  }

  lemma InsertIsRecorded(t: Tables, row: Row)
    ensures RecordedBy(t, InsertRow(t, row), Created(|t.rows|, row.status))
  {
  }

  /** Nothing changed, or exactly one event was recorded that accounts for the change. */
  ghost predicate Recorded(t: Tables, t': Tables) {
    (t'.rows == t.rows && t'.trail == t.trail) || exists e :: RecordedBy(t, t', e)
  }

  lemma RequestStepIsRecorded(cfg: Config, s: State, step: Step)
    requires step.UserRequest?
    ensures Recorded(s.t, Next(cfg, s, step).t)
  {
    RequestIsRecorded(s.t, s.now, step.member, step.action, step.org, step.id, step.writes);
  }

  lemma WriteStepIsRecorded(cfg: Config, s: State, step: Step)
    requires Sane(s) && step.WriteView?
    ensures Recorded(s.t, Next(cfg, s, step).t)
  {
    if s.glance.Seen? {
      WriteIsRecorded(s.t, s.listed[0], s.glance.write);
    }
  }

  lemma FinishStepIsRecorded(cfg: Config, s: State, step: Step)
    requires step.Finish?
    ensures Recorded(s.t, Next(cfg, s, step).t)
  {
    if step.call < |s.calls| && s.calls[step.call].phase.Provisioned? {
      InsertIsRecorded(s.t, NewRow(s.calls[step.call]));
    }
  }

  /** A step either leaves rows and trail alone or records exactly one event, which accounts for the change. */
  lemma StepRecordsItsChange(cfg: Config, s: State, step: Step)
    requires Sane(s)
    ensures Recorded(s.t, Next(cfg, s, step).t)
  {
    match step
    case UserRequest(_, _, _, _, _) => RequestStepIsRecorded(cfg, s, step);
    case WriteView(_) => WriteStepIsRecorded(cfg, s, step);
    case Finish(_, _) => FinishStepIsRecorded(cfg, s, step);
    case _ =>
  }

  /** Replaying the trail alone gives the status of every instance, after every run. */
  lemma {:induction false} TrailRebuildsStatuses(cfg: Config, boot: int, steps: seq<Step>)
    ensures var s := Run(cfg, Boot(boot), steps); Replay(s.t.trail) == Statuses(s.t.rows)
  {
    if steps != [] {
      var n := |steps| - 1;
      TrailRebuildsStatuses(cfg, boot, steps[..n]);
      RunKeepsSane(cfg, Boot(boot), steps[..n]);
      var s := Run(cfg, Boot(boot), steps[..n]);
      StepRecordsItsChange(cfg, s, steps[n]);
      var s' := Next(cfg, s, steps[n]);
      if s'.t.trail != s.t.trail {
        var e :| RecordedBy(s.t, s'.t, e);
        ReplayAppend(s.t.trail, e);
      }
    }
  }
}
