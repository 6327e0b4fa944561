/**
 Concrete runs that show where the guarantees stop. Each hypothesis is needed on its own: a cut request alone
 makes the reconciler leave the graph, and so does a race alone; and races alone leak a provider record.
 */
module ComputeWitnesses {
  import opened Lifecycle
  import opened ComputeTables
  import opened ComputeSpec
  import opened ComputeRuns
  import opened ComputeLeaks
  import opened ComputeOvershoot

  const REQUEST := CreateRequest("us-east-1", 16, 1, 1)
  const SIZE := Size(16, 1, 1)

  /** Nothing is cut, dropped or lost, and every insert succeeds. */
  predicate Tidy(step: Step) {
    && Uncut(step) && !step.AbandonCreate? && !step.LoseRecord? && (step.Finish? ==> step.result.Stored?)
  }

  predicate AllTidy(steps: seq<Step>) {
    forall i :: 0 <= i < |steps| ==> Tidy(steps[i])
  }

  ghost predicate Reaches(steps: seq<Step>, s: State) {
    Run(SEEDED, Boot(0), steps) == s
  }

  ghost predicate IsCalm(steps: seq<Step>) {
    CalmRun(SEEDED, Boot(0), steps)
  }

  lemma Extend(before: seq<Step>, s: State, step: Step) returns (steps: seq<Step>)
    requires Reaches(before, s)
    ensures Reaches(steps, Next(SEEDED, s, step))
    ensures AllTidy(before) && Tidy(step) ==> AllTidy(steps)
    ensures IsCalm(before) && Calm(SEEDED, s, step) ==> IsCalm(steps)
  {
    steps := before + [step];
    assert steps[..|before|] == before;
  }

  lemma FitsWhenEmpty()
    ensures SizeOf(REQUEST) == SIZE && RegionOf(REQUEST) == DEFAULT_REGION
    ensures Fits(SEEDED, [], Org(1), SIZE) && Fits(SEEDED, [], Region(DEFAULT_REGION), SIZE)
  {
    forall scope: Scope, dim
      ensures Usage([], scope, dim) == 0
    {
    }
  }

  function OneCall(phase: Phase): seq<CreateCall> {
    [CreateCall(1, DEFAULT_REGION, SIZE, phase)]
  }

  function OneRow(status: Status): seq<Row> {
    [Row(1, DEFAULT_REGION, 0, status, SIZE)]
  }

  /** One instance, its Create long over. */
  function OneInstance(status: Status, rec: ProviderRecord, listed: seq<Listed>, glance: Glance, trail: seq<Event>,
                       now: int): State
  {
    State(Tables(OneRow(status), map[0 := rec], trail), OneCall(Done), listed, glance, now)
  }

  function ListedAs(status: Status): seq<Listed> {
    [Listed(0, 0, status)]
  }

  lemma ListsOne(status: Status)
    requires !status.Terminated?
    ensures ListActive(OneRow(status)) == ListedAs(status)
  {
    assert ListActive([]) == [];
    assert OneRow(status)[..0] == [];
  }

  // ----- an instance is created and seen running -----

  lemma OneBegun() returns (steps: seq<Step>)
    ensures AllTidy(steps) && IsCalm(steps)
    ensures Reaches(steps, Boot(0).(calls := OneCall(QuotaChecked)))
  {
    FitsWhenEmpty();
    steps := Extend([], Boot(0), BeginCreate(true, 1, REQUEST));
    assert [] + OneCall(QuotaChecked) == OneCall(QuotaChecked);
  }

  lemma OneChecked() returns (steps: seq<Step>)
    ensures AllTidy(steps) && IsCalm(steps)
    ensures Reaches(steps, Boot(0).(calls := OneCall(CapacityChecked)))
  {
    var before := OneBegun();
    var s := Boot(0).(calls := OneCall(QuotaChecked));
    FitsWhenEmpty();
    steps := Extend(before, s, CheckCapacity(0));
    assert Next(SEEDED, s, CheckCapacity(0)).calls == OneCall(CapacityChecked);
  }

  function JustProvisioned(): State {
    State(Tables([], map[0 := ProviderRecord(Pending, 0)], []), OneCall(Provisioned(0)), [], NotLooking, 0)
  }

  lemma OneProvisioned() returns (steps: seq<Step>)
    ensures AllTidy(steps) && IsCalm(steps) && Reaches(steps, JustProvisioned())
  {
    var before := OneChecked();
    var s := Boot(0).(calls := OneCall(CapacityChecked));
    steps := Extend(before, s, Provision(0, 0));
    assert Next(SEEDED, s, Provision(0, 0)).calls == OneCall(Provisioned(0));
  }

  const CREATED := [Created(0, Pending)]

  lemma OnePending() returns (steps: seq<Step>)
    ensures AllTidy(steps) && IsCalm(steps)
    ensures Reaches(steps, OneInstance(Pending, ProviderRecord(Pending, 0), [], NotLooking, CREATED, 0))
  {
    var before := OneProvisioned();
    steps := Extend(before, JustProvisioned(), Finish(0, Stored));
    assert Next(SEEDED, JustProvisioned(), Finish(0, Stored)).calls == OneCall(Done);
    assert [] + OneRow(Pending) == OneRow(Pending);
    assert [] + CREATED == CREATED;
  }

  lemma OneDue() returns (steps: seq<Step>)
    ensures AllTidy(steps) && IsCalm(steps)
    ensures Reaches(steps, OneInstance(Pending, ProviderRecord(Pending, 0), [], NotLooking, CREATED, 5))
  {
    var before := OnePending();
    steps := Extend(before, OneInstance(Pending, ProviderRecord(Pending, 0), [], NotLooking, CREATED, 0), Advance(5));
  }

  lemma OneListed() returns (steps: seq<Step>)
    ensures AllTidy(steps) && IsCalm(steps)
    ensures Reaches(steps, OneInstance(Pending, ProviderRecord(Pending, 0), ListedAs(Pending), NotLooking, CREATED, 5))
  {
    var before := OneDue();
    ListsOne(Pending);
    steps := Extend(before, OneInstance(Pending, ProviderRecord(Pending, 0), [], NotLooking, CREATED, 5), BeginTick);
  }

  /** The reconciler has seen that it is running and is about to write so. */
  function SeenRunning(): State {
    OneInstance(Pending, ProviderRecord(Pending, 0), ListedAs(Pending), Seen([Running]), CREATED, 5)
  }

  lemma OneSeen() returns (steps: seq<Step>)
    ensures AllTidy(steps) && IsCalm(steps) && Reaches(steps, SeenRunning())
  {
    var before := OneListed();
    steps := Extend(before, OneInstance(Pending, ProviderRecord(Pending, 0), ListedAs(Pending), NotLooking, CREATED, 5),
                    ReadView(true));
  }

  // ----- a race -----

  const TERMINATION := CREATED + [Requested(Action.Terminate, 0)]

  function TerminatedMeanwhile(): State {
    OneInstance(Terminating, ProviderRecord(Terminated, 5), ListedAs(Pending), Seen([Running]), TERMINATION, 5)
  }

  lemma Overtake() returns (steps: seq<Step>)
    ensures AllTidy(steps) && Reaches(steps, TerminatedMeanwhile())
  {
    var before := OneSeen();
    steps := Extend(before, SeenRunning(), UserRequest(true, Action.Terminate, 1, 0, Writes(true, true)));
  }

  lemma RacyStateIsNotCurrent()
    ensures !Inv(SEEDED, TerminatedMeanwhile(), false)
  {
    var s := TerminatedMeanwhile();
    assert !WithinTwoEdges(Terminating, Running);
    assert s.t.rows[s.listed[0].id].status.Terminating? && s.glance.write[0].Running?;
  }

  lemma RaceIsNotCalm(steps: seq<Step>)
    requires Reaches(steps, TerminatedMeanwhile())
    ensures !IsCalm(steps)
  {
    RacyStateIsNotCurrent();
    if IsCalm(steps) {
      RunKeepsInv(SEEDED, Boot(0), steps, false);
    }
  }

  lemma RacyWrite()
    ensures Next(SEEDED, TerminatedMeanwhile(), WriteView(true)).t.rows == OneRow(Running)
  {
  }

  /** A race alone makes the reconciler leave the graph, even beyond two edges: after a Terminate between its
      reading and its writing it writes Running over Terminating. */
  lemma RaceLeavesGraph() returns (steps: seq<Step>, step: Step)
    ensures AllTidy(steps) && !IsCalm(steps)
    ensures var s := Run(SEEDED, Boot(0), steps);
            var s' := Next(SEEDED, s, step);
            && |s.t.rows| == |s'.t.rows| == 1
            && s.t.rows[0].status.Terminating? && s'.t.rows[0].status.Running?
            && !WithinTwoEdges(Terminating, Running)
  {
    steps := Overtake();
    step := WriteView(true);
    RaceIsNotCalm(steps);
    RacyWrite();
  }

  // ----- two races that leak -----

  const RESURRECTION := TERMINATION + [StatusChanged(0, Pending, Running)]

  lemma Resurrect() returns (steps: seq<Step>)
    ensures AllTidy(steps)
    ensures Reaches(steps, OneInstance(Running, ProviderRecord(Terminated, 5), [], NotLooking, RESURRECTION, 5))
  {
    var before := Overtake();
    steps := Extend(before, TerminatedMeanwhile(), WriteView(true));
  }

  lemma ListAgain() returns (steps: seq<Step>)
    ensures AllTidy(steps)
    ensures Reaches(steps, OneInstance(Running, ProviderRecord(Terminated, 5), ListedAs(Running), NotLooking,
                                       RESURRECTION, 5))
  {
    var before := Resurrect();
    ListsOne(Running);
    steps := Extend(before, OneInstance(Running, ProviderRecord(Terminated, 5), [], NotLooking, RESURRECTION, 5),
                    BeginTick);
  }

  function SeenTerminated(): State {
    OneInstance(Running, ProviderRecord(Terminated, 5), ListedAs(Running), Seen([Terminated]), RESURRECTION, 5)
  }

  lemma LookAgain() returns (steps: seq<Step>)
    ensures AllTidy(steps) && Reaches(steps, SeenTerminated())
  {
    var before := ListAgain();
    steps := Extend(before, OneInstance(Running, ProviderRecord(Terminated, 5), ListedAs(Running), NotLooking,
                                        RESURRECTION, 5), ReadView(true));
  }

  const REVIVAL := RESURRECTION + [Requested(Action.Stop, 0)]

  function StoppedMeanwhile(): State {
    OneInstance(Stopping, ProviderRecord(Stopping, 5), ListedAs(Running), Seen([Terminated]), REVIVAL, 5)
  }

  lemma Revive() returns (steps: seq<Step>)
    ensures AllTidy(steps) && Reaches(steps, StoppedMeanwhile())
  {
    var before := LookAgain();
    steps := Extend(before, SeenTerminated(), UserRequest(true, Action.Stop, 1, 0, Writes(true, true)));
  }

  /** Races alone leak: nothing is cut, dropped or lost, no Create is under way, and yet the row ends terminated
      for good while its record asks for a stopped machine. */
  lemma RacesLeakRecord() returns (steps: seq<Step>)
    ensures AllTidy(steps)
    ensures var s := Run(SEEDED, Boot(0), steps);
            && IsLeaked(s, 0) && s.t.records[0].desired.Stopping?
            && |s.t.rows| == 1 && s.t.rows[0].pid == 0 && s.t.rows[0].status.Terminated?
            && forall c :: 0 <= c < |s.calls| ==> s.calls[c].phase.Done?
  {
    var before := Revive();
    steps := Extend(before, StoppedMeanwhile(), WriteView(true));
    assert Next(SEEDED, StoppedMeanwhile(), WriteView(true)).t.rows == OneRow(Terminated);
  }

  // ----- a cut request that skips an edge -----

  const TRAIL_SO_FAR := CREATED + [StatusChanged(0, Pending, Running)]

  lemma OneRunning() returns (steps: seq<Step>)
    ensures IsCalm(steps)
    ensures Reaches(steps, OneInstance(Running, ProviderRecord(Pending, 0), [], NotLooking, TRAIL_SO_FAR, 5))
  {
    var before := OneSeen();
    steps := Extend(before, SeenRunning(), WriteView(true));
  }

  /** A Stop that crashes after its provider write. */
  lemma CutWhileRunning() returns (steps: seq<Step>)
    ensures IsCalm(steps)
    ensures Reaches(steps, OneInstance(Running, ProviderRecord(Stopping, 5), [], NotLooking, TRAIL_SO_FAR, 5))
  {
    var before := OneRunning();
    steps := Extend(before, OneInstance(Running, ProviderRecord(Pending, 0), [], NotLooking, TRAIL_SO_FAR, 5),
                    UserRequest(true, Action.Stop, 1, 0, Writes(true, false)));
  }

  lemma DueWhileCut() returns (steps: seq<Step>)
    ensures IsCalm(steps)
    ensures Reaches(steps, OneInstance(Running, ProviderRecord(Stopping, 5), [], NotLooking, TRAIL_SO_FAR, 8))
  {
    var before := CutWhileRunning();
    steps := Extend(before, OneInstance(Running, ProviderRecord(Stopping, 5), [], NotLooking, TRAIL_SO_FAR, 5),
                    Advance(3));
  }

  lemma ListedWhileCut() returns (steps: seq<Step>)
    ensures IsCalm(steps)
    ensures Reaches(steps, OneInstance(Running, ProviderRecord(Stopping, 5), ListedAs(Running), NotLooking,
                                       TRAIL_SO_FAR, 8))
  {
    var before := DueWhileCut();
    ListsOne(Running);
    steps := Extend(before, OneInstance(Running, ProviderRecord(Stopping, 5), [], NotLooking, TRAIL_SO_FAR, 8),
                    BeginTick);
  }

  function SeenWhileCut(): State {
    OneInstance(Running, ProviderRecord(Stopping, 5), ListedAs(Running), Seen([Stopped]), TRAIL_SO_FAR, 8)
  }

  lemma LookWhileCut() returns (steps: seq<Step>)
    ensures IsCalm(steps) && Reaches(steps, SeenWhileCut())
  {
    var before := ListedWhileCut();
    steps := Extend(before, OneInstance(Running, ProviderRecord(Stopping, 5), ListedAs(Running), NotLooking,
                                        TRAIL_SO_FAR, 8), ReadView(true));
  }

  /** A cut alone makes the reconciler leave the graph: it writes Stopped over Running. */
  lemma CutStopSkipsAnEdge() returns (steps: seq<Step>, step: Step)
    ensures IsCalm(steps)
    ensures var s := Run(SEEDED, Boot(0), steps);
            var s' := Next(SEEDED, s, step);
            && |s.t.rows| == |s'.t.rows| == 1
            && s.t.rows[0].status.Running? && s'.t.rows[0].status.Stopped?
            && !CanTransition(Running, Stopped) && WithinTwoEdges(Running, Stopped)
  {
    steps := LookWhileCut();
    step := WriteView(true);
    assert CanTransition(Running, Stopping) && CanTransition(Stopping, Stopped);
  }
}
