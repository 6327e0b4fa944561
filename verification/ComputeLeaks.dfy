/**
 Provider records that nobody answers for any more: which steps leak one, exactly, and that no other does.
 */
module ComputeLeaks {
  import opened Lifecycle
  import opened ComputeTables
  import opened ComputeSpec
  import opened ComputeRuns
  import opened ComputeTheorems
  import opened ComputeRaces

  predicate Dead(status: Status) {
    status.Terminated? || status.Failed?
  }

  ghost predicate OwnedByRow(s: State, pid: ProviderID) {
    exists i :: 0 <= i < |s.t.rows| && s.t.rows[i].pid == pid
  }

  ghost predicate OwnedByLiveRow(s: State, pid: ProviderID) {
    exists i :: 0 <= i < |s.t.rows| && s.t.rows[i].pid == pid && !Dead(s.t.rows[i].status)
  }

  /** A Create that has still to insert its row. */
  ghost predicate OwnedByCall(s: State, pid: ProviderID) {
    exists c :: 0 <= c < |s.calls| && s.calls[c].phase == Provisioned(pid)
  }

  ghost predicate LiveRecord(s: State, pid: ProviderID) {
    pid in s.t.records && !s.t.records[pid].desired.Terminated?
  }

  /** A record not to be destroyed that belongs to no live row and to no Create under way. */
  ghost predicate IsLeaked(s: State, pid: ProviderID) {
    LiveRecord(s, pid) && !OwnedByLiveRow(s, pid) && !OwnedByCall(s, pid)
  }

  // ----- the steps that leak -----

  /** A Create is given up after its provisioning, or its insert and then its compensation fail. */
  predicate Drops(s: State, step: Step) {
    match step
    case AbandonCreate(c) => c < |s.calls| && s.calls[c].phase.Provisioned?
    case Finish(c, result) => c < |s.calls| && s.calls[c].phase.Provisioned? && result.Leaked?
    case _ => false
  }

  /** A Start or Stop goes through on an instance that the reconciler is about to write dead. */
  ghost predicate Revives(cfg: Config, s: State, step: Step) {
    && step.UserRequest? && !step.action.Terminate? && Next(cfg, s, step).t != s.t
    && Holds(s) && Dead(Held(s)) && s.listed[0].id == step.id
  }

  ghost predicate NeverLeaks(cfg: Config, s: State, steps: seq<Step>) {
    steps == []
    || (var n := |steps| - 1;
        var before := Run(cfg, s, steps[..n]);
        NeverLeaks(cfg, s, steps[..n]) && !Drops(before, steps[n]) && !Revives(cfg, before, steps[n]))
  }

  // ----- every record has an owner -----

  ghost predicate RecordsOwned(s: State) {
    forall pid :: LiveRecord(s, pid) ==> OwnedByRow(s, pid) || OwnedByCall(s, pid)
  }

  /** A record that a step leaves alone keeps its owner: a row for good, a call until its row is there. */
  lemma OwnerRemains(cfg: Config, s: State, step: Step, pid: ProviderID)
    requires !Drops(s, step) && (OwnedByRow(s, pid) || OwnedByCall(s, pid))
    requires var s' := Next(cfg, s, step);
             LiveRecord(s, pid) && pid in s'.t.records && s'.t.records[pid] == s.t.records[pid]
    ensures OwnedByRow(Next(cfg, s, step), pid) || OwnedByCall(Next(cfg, s, step), pid)
  {
    var s' := Next(cfg, s, step);
    if OwnedByRow(s, pid) {
      var i :| 0 <= i < |s.t.rows| && s.t.rows[i].pid == pid;
      assert s'.t.rows[i].pid == pid;
    } else {
      var c :| 0 <= c < |s.calls| && s.calls[c].phase == Provisioned(pid);
      if s'.calls[c] != s.calls[c] {
        assert s'.t.rows[|s.t.rows|].pid == pid;
      }
    }
  }

  /** A record that a step writes, not to be destroyed, has an owner. */
  lemma WriterOwns(cfg: Config, s: State, step: Step, pid: ProviderID)
    requires var s' := Next(cfg, s, step);
             LiveRecord(s', pid) && !(pid in s.t.records && s'.t.records[pid] == s.t.records[pid])
    ensures OwnedByRow(Next(cfg, s, step), pid) || OwnedByCall(Next(cfg, s, step), pid)
  {
    var s' := Next(cfg, s, step);
    if step.UserRequest? {
      assert s'.t.rows[step.id].pid == pid;
    } else {
      assert s'.calls[step.call].phase == Provisioned(pid);
    }
  }

  lemma StepKeepsRecordsOwned(cfg: Config, s: State, step: Step)
    requires RecordsOwned(s) && !Drops(s, step)
    ensures RecordsOwned(Next(cfg, s, step))
  {
    var s' := Next(cfg, s, step);
    forall pid | LiveRecord(s', pid)
      ensures OwnedByRow(s', pid) || OwnedByCall(s', pid)
    {
      if pid in s.t.records && s'.t.records[pid] == s.t.records[pid] {
        OwnerRemains(cfg, s, step, pid);
      } else {
        WriterOwns(cfg, s, step, pid);
      }
    }
  }

  // ----- a dead row's record is dead -----

  /** The records of dead rows, and of the row about to be written dead, are gone or to be destroyed. */
  ghost predicate DeadRecords(s: State) {
    && (forall i :: 0 <= i < |s.t.rows| && Dead(s.t.rows[i].status) ==> !LiveRecord(s, s.t.rows[i].pid))
    && (Holds(s) && Dead(Held(s)) ==> !LiveRecord(s, HeldRow(s).pid))
  }

  lemma RequestKeepsDeadRecords(cfg: Config, s: State, step: Step)
    requires Sane(s) && DeadRecords(s) && step.UserRequest? && !Revives(cfg, s, step)
    ensures DeadRecords(Next(cfg, s, step))
  {
  }

  lemma CreateKeepsDeadRecords(cfg: Config, s: State, step: Step)
    requires Sane(s) && DeadRecords(s)
    requires step.BeginCreate? || step.CheckCapacity? || step.Provision? || step.Finish? || step.AbandonCreate?
    ensures DeadRecords(Next(cfg, s, step))
  {
    var s' := Next(cfg, s, step);
    forall i | 0 <= i < |s.t.rows|
      ensures s'.t.rows[i] == s.t.rows[i] && (LiveRecord(s', s.t.rows[i].pid) ==> LiveRecord(s, s.t.rows[i].pid))
    {
      CreateTouchesNoRow(cfg, s, step, i);
    }
    assert Holds(s') ==> Holds(s) && Held(s') == Held(s) && HeldRow(s') == HeldRow(s);
  }

  lemma ReadKeepsDeadRecords(cfg: Config, s: State, step: Step)
    requires Sane(s) && DeadRecords(s) && step.ReadView?
    ensures DeadRecords(Next(cfg, s, step))
  {
    var s' := Next(cfg, s, step);
    assert forall i :: 0 <= i < |s.t.rows| ==> s'.t.rows[i] == s.t.rows[i];
  }

  lemma WriteKeepsDeadRecords(cfg: Config, s: State, step: Step)
    requires Sane(s) && DeadRecords(s) && step.WriteView?
    ensures DeadRecords(Next(cfg, s, step))
  {
  }

  lemma StepKeepsDeadRecords(cfg: Config, s: State, step: Step)
    requires Sane(s) && DeadRecords(s) && !Revives(cfg, s, step)
    ensures DeadRecords(Next(cfg, s, step))
  {
    match step
    case UserRequest(_, _, _, _, _) => RequestKeepsDeadRecords(cfg, s, step);
    case ReadView(_) => ReadKeepsDeadRecords(cfg, s, step);
    case WriteView(_) => WriteKeepsDeadRecords(cfg, s, step);
    case BeginTick =>
    case Advance(_) =>
    case LoseRecord(_) =>
    case _ => CreateKeepsDeadRecords(cfg, s, step);
  }

  // ----- no other step leaks -----

  lemma {:induction false} RunKeepsRecords(cfg: Config, boot: int, steps: seq<Step>)
    requires NeverLeaks(cfg, Boot(boot), steps)
    ensures var s := Run(cfg, Boot(boot), steps); Sane(s) && RecordsOwned(s) && DeadRecords(s)
  {
    if steps != [] {
      var n := |steps| - 1;
      var s := Run(cfg, Boot(boot), steps[..n]);
      RunKeepsRecords(cfg, boot, steps[..n]);
      StepKeepsSane(cfg, s, steps[n]);
      StepKeepsRecordsOwned(cfg, s, steps[n]);
      StepKeepsDeadRecords(cfg, s, steps[n]);
    }
  }

  lemma OwnedAndLive(s: State, pid: ProviderID)
    requires RecordsOwned(s) && DeadRecords(s)
    ensures !IsLeaked(s, pid)
  {
    if LiveRecord(s, pid) && OwnedByRow(s, pid) {
      var i :| 0 <= i < |s.t.rows| && s.t.rows[i].pid == pid;
      assert !Dead(s.t.rows[i].status);
    }
  }

  /** In every run, with cuts, losses, failures and races, in which no Create is dropped after provisioning and
      no Start or Stop goes through on an instance about to be written dead: every provider record not to be
      destroyed belongs to a row neither terminated nor failed, or to a Create that has still to insert it. */
  lemma NoProviderLeak(cfg: Config, boot: int, steps: seq<Step>, pid: ProviderID)
    requires NeverLeaks(cfg, Boot(boot), steps)
    ensures !IsLeaked(Run(cfg, Boot(boot), steps), pid)
  {
    RunKeepsRecords(cfg, boot, steps);
    OwnedAndLive(Run(cfg, Boot(boot), steps), pid);
  }

  // ----- and these do, exactly -----

  /** After a run without leaks, whatever comes between the reconciler's reading and its writing dead of an
      instance: the write leaks the instance's record exactly if this was a Start or Stop that went through. */
  lemma RevivalLeaksExactlyWhen(cfg: Config, boot: int, steps: seq<Step>, step: Step)
    requires NeverLeaks(cfg, Boot(boot), steps) && Between([step])
    requires var s := Run(cfg, Boot(boot), steps); Holds(s) && Dead(Held(s))
    ensures var s := Run(cfg, Boot(boot), steps);
            IsLeaked(Next(cfg, Next(cfg, s, step), WriteView(true)), HeldRow(s).pid) <==> Revives(cfg, s, step)
  {
    var s := Run(cfg, Boot(boot), steps);
    RunKeepsRecords(cfg, boot, steps);
    StepKeepsHold(cfg, s, step);
    StepKeepsSane(cfg, s, step);
    if Revives(cfg, s, step) {
      RevivedRecordLeaks(cfg, s, step);
    } else {
      StepKeepsDeadRecords(cfg, s, step);
      WrittenDead(cfg, Next(cfg, s, step));
    }
  }

  /** Writing a row dead makes no record live, and leaves the row's without a live owner. */
  lemma WrittenDead(cfg: Config, s: State)
    requires Sane(s) && Holds(s) && Dead(Held(s))
    ensures var s' := Next(cfg, s, WriteView(true)); IsLeaked(s', HeldRow(s).pid) <==> LiveRecord(s, HeldRow(s).pid)
  {
    var s', pid := Next(cfg, s, WriteView(true)), HeldRow(s).pid;
    assert s'.t.rows[s.listed[0].id] == HeldRow(s).(status := Held(s));
    assert forall i :: 0 <= i < |s'.t.rows| && s'.t.rows[i].pid == pid ==> i == s.listed[0].id;
  }

  lemma RevivedRecordLeaks(cfg: Config, s: State, step: Step)
    requires Sane(s) && Revives(cfg, s, step)
    ensures IsLeaked(Next(cfg, Next(cfg, s, step), WriteView(true)), HeldRow(s).pid)
  {
    var s1 := Next(cfg, s, step);
    assert Between([step]);
    StepKeepsHold(cfg, s, step);
    StepKeepsSane(cfg, s, step);
    assert LiveRecord(s1, HeldRow(s).pid);
    WrittenDead(cfg, s1);
  }

  /** Dropping a Create leaks its record exactly if the record is still there. */
  lemma DroppedCreateLeaksExactlyWhen(cfg: Config, s: State, step: Step)
    requires Sane(s) && Drops(s, step)
    ensures var pid := s.calls[step.call].phase.pid;
            IsLeaked(Next(cfg, s, step), pid) <==> pid in s.t.records
  {
    var s', pid := Next(cfg, s, step), s.calls[step.call].phase.pid;
    assert forall c :: 0 <= c < |s'.calls| && s'.calls[c].phase == Provisioned(pid) ==> c == step.call;
  }
}
