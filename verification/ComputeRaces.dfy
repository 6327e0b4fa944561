/**
 User requests that go through between the reconciler's reading of a view and its writing of the status:
 exactly when the write still follows the graph.
 */
module ComputeRaces {
  import opened Lifecycle
  import opened ComputeTables
  import opened ComputeSpec
  import opened ComputeRuns
  import opened ComputeTheorems

  /** The reconciler is about to write a status. */
  ghost predicate Holds(s: State) {
    && s.listed != [] && s.listed[0].id < |s.t.rows|
    && s.glance.Seen? && s.glance.write != []
  }

  function Held(s: State): Status
    requires Holds(s)
  {
    s.glance.write[0]
  }

  /** The row it is about to write. */
  function HeldRow(s: State): Row
    requires Holds(s)
  {
    s.t.rows[s.listed[0].id]
  }

  /** Steps that may come between a reading and its writing. */
  predicate Between(steps: seq<Step>) {
    forall i :: 0 <= i < |steps| ==> !steps[i].BeginTick? && !steps[i].WriteView?
  }

  lemma StepKeepsHold(cfg: Config, s: State, step: Step)
    requires Sane(s) && Holds(s) && Between([step])
    ensures var s' := Next(cfg, s, step);
            && Holds(s') && Held(s') == Held(s) && s'.listed == s.listed && s'.glance == s.glance
            && HeldRow(s') == HeldRow(s).(status := HeldRow(s').status)
  {
    assert !([step][0]).BeginTick? && !([step][0]).WriteView?;
  }

  lemma {:induction false} BetweenKeepsHold(cfg: Config, s: State, steps: seq<Step>)
    requires Sane(s) && Holds(s) && Between(steps)
    ensures var s' := Run(cfg, s, steps);
            && Sane(s') && Holds(s') && Held(s') == Held(s) && s'.listed == s.listed && s'.glance == s.glance
            && HeldRow(s') == HeldRow(s).(status := HeldRow(s').status)
  {
    if steps != [] {
      var n := |steps| - 1;
      BetweenKeepsHold(cfg, s, steps[..n]);
      StepKeepsHold(cfg, Run(cfg, s, steps[..n]), steps[n]);
      StepKeepsSane(cfg, Run(cfg, s, steps[..n]), steps[n]);
    }
  }

  /** Requests have moved the row to where the held status no longer fits. */
  predicate Overtaken(held: Status, status: Status) {
    match status
    case Pending => held in {Stopped, Failed}
    case Stopping => held in {Running, Failed}
    case Terminating => held !in {Terminating, Terminated}
    case _ => false
  }

  /** A request that goes through on a coupled row overtakes what is held for it. */
  lemma RaceOvertakes(cfg: Config, s: State, step: Step)
    requires Inv(cfg, s, true) && Holds(s) && Uncut(step) && !Calm(cfg, s, step)
    ensures var s' := Next(cfg, s, step); Holds(s') && Overtaken(Held(s), HeldRow(s').status)
  {
    assert RowCoupled(cfg, s, true, s.listed[0].id);
  }

  /** And further steps, even cut requests, do not bring the row back. */
  lemma OvertakenStays(cfg: Config, s: State, step: Step)
    requires Sane(s) && Holds(s) && Between([step]) && Overtaken(Held(s), HeldRow(s).status)
    ensures var s' := Next(cfg, s, step); Holds(s') && Overtaken(Held(s), HeldRow(s').status)
  {
    StepKeepsHold(cfg, s, step);
    OthersFollowGraph(cfg, s, step);
    assert !([step][0]).WriteView?;
  }

  lemma {:induction false} CalmOrOvertaken(cfg: Config, s: State, steps: seq<Step>)
    requires Inv(cfg, s, true) && Holds(s) && Between(steps) && AllUncut(steps)
    ensures var s' := Run(cfg, s, steps);
            && Holds(s')
            && if CalmRun(cfg, s, steps) then Inv(cfg, s', true) else Overtaken(Held(s), HeldRow(s').status)
  {
    if steps != [] {
      var n := |steps| - 1;
      var s1 := Run(cfg, s, steps[..n]);
      CalmOrOvertaken(cfg, s, steps[..n]);
      BetweenKeepsHold(cfg, s, steps[..n]);
      StepKeepsHold(cfg, s1, steps[n]);
      if !CalmRun(cfg, s, steps[..n]) {
        OvertakenStays(cfg, s1, steps[n]);
      } else if Calm(cfg, s1, steps[n]) {
        StepKeepsInv(cfg, s1, steps[n], true);
      } else {
        RaceOvertakes(cfg, s1, steps[n]);
      }
    }
  }

  /** The write that would come now is a permitted change. */
  ghost predicate WritePermitted(cfg: Config, s: State) {
    ChangesPermitted(s, Next(cfg, s, WriteView(true)), WriteView(true), true)
  }

  lemma OvertakenWrite(cfg: Config, s: State)
    requires Sane(s) && Holds(s) && Overtaken(Held(s), HeldRow(s).status)
    ensures WritePermitted(cfg, s) <==> Held(s).Failed? && HeldRow(s).pid !in s.t.records
  {
    var i, s' := s.listed[0].id, Next(cfg, s, WriteView(true));
    assert s'.t.rows[i] == HeldRow(s).(status := Held(s));
    assert ChangesPermitted(s, s', WriteView(true), true) ==> Permitted(s, s', WriteView(true), true, i);
  }

  lemma CurrentWrite(cfg: Config, s: State)
    requires Inv(cfg, s, true) && Holds(s)
    ensures WritePermitted(cfg, s)
    ensures Held(s).Failed? ==> HeldRow(s).pid !in s.t.records
  {
    StepChangesPermitted(cfg, s, WriteView(true), true);
    assert RowCoupled(cfg, s, true, s.listed[0].id);
  }

  /** After any uncut and calm run, and whatever comes between the reconciler's reading and its writing: the
      write follows the graph exactly when no request has gone through on its instance in the meantime; or,
      if it is to mark the instance failed, exactly when the instance has no provider record. */
  lemma WriteFollowsGraphExactlyWhen(cfg: Config, boot: int, before: seq<Step>, between: seq<Step>)
    requires AllUncut(before) && CalmRun(cfg, Boot(boot), before) && Holds(Run(cfg, Boot(boot), before))
    requires AllUncut(between) && Between(between)
    ensures var s := Run(cfg, Boot(boot), before);
            var s' := Run(cfg, s, between);
            && Holds(s')
            && (WritePermitted(cfg, s') <==>
                  if Held(s).Failed? then HeldRow(s').pid !in s'.t.records else CalmRun(cfg, s, between))
  {
    var s := Run(cfg, Boot(boot), before);
    var s' := Run(cfg, s, between);
    RunKeepsInv(cfg, Boot(boot), before, true);
    CalmOrOvertaken(cfg, s, between);
    BetweenKeepsHold(cfg, s, between);
    if CalmRun(cfg, s, between) {
      CurrentWrite(cfg, s');
    } else {
      OvertakenWrite(cfg, s');
    }
  }

  /** Of a single request in between: the write follows the graph exactly when the request does not go
      through on the instance that is about to be written. */
  lemma RaceLeavesGraphExactlyWhen(cfg: Config, boot: int, before: seq<Step>, step: Step)
    requires AllUncut(before) && CalmRun(cfg, Boot(boot), before) && Holds(Run(cfg, Boot(boot), before))
    requires step.UserRequest? && Uncut(step)
    ensures var s := Run(cfg, Boot(boot), before);
            WritePermitted(cfg, Next(cfg, s, step)) <==> Calm(cfg, s, step)
  {
    var s := Run(cfg, Boot(boot), before);
    var s' := Next(cfg, s, step);
    RunKeepsInv(cfg, Boot(boot), before, true);
    StepKeepsSane(cfg, s, step);
    StepKeepsHold(cfg, s, step);
    if Calm(cfg, s, step) {
      StepKeepsInv(cfg, s, step, true);
      CurrentWrite(cfg, s');
    } else {
      RaceOvertakes(cfg, s, step);
      OvertakenWrite(cfg, s');
    }
  }
}
