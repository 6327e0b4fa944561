/**
 What one call does to the compute tables, as functions on values: the specification that the
 imperative service is proved against, and the steps from which whole runs are built.
 */
module ComputeSpec {
  import opened Lifecycle
  import opened ComputeTables

  datatype Outcome =
    | Ok
    | ErrNotInOrg
    | ErrNotFound
    | ErrInvalidTransition
    | ErrUnknownRegion
    | ErrQuotaExceeded
    | ErrInsufficientCapacity
    | ErrProvider
    | ErrStore

  /** Whether the provider write and the following row write of one call take effect. `Writes(true, false)`
      is also what a crash between the two leaves behind. */
  datatype Writes = Writes(provider: bool, row: bool)

  // ----- Start, Stop, Terminate -----

  function Refusal(t: Tables, member: bool, action: Action, org: int, id: nat): Outcome {
    if !member then ErrNotInOrg
    else if id >= |t.rows| || t.rows[id].org != org then ErrNotFound
    else if !CanTransition(t.rows[id].status, TargetStatus(action)) then ErrInvalidTransition
    else Ok
  }

  function SetRecord(t: Tables, pid: ProviderID, desired: Status, now: int): Tables {
    t.(records := t.records[pid := ProviderRecord(desired, now)])
  }

  function Request(t: Tables, now: int, member: bool, action: Action, org: int, id: nat, w: Writes): (Tables, Outcome) {
    var refusal := Refusal(t, member, action, org, id);
    if refusal.ErrInvalidTransition? && action.Terminate? && t.rows[id].status.Terminated? then (t, Ok)
    else if !refusal.Ok? then (t, refusal)
    else if !w.provider then (t, ErrProvider)
    else
      var t1 := SetRecord(t, t.rows[id].pid, DesiredState(action), now);
      if !w.row then (t1, ErrStore) else
      (t1.(rows := SetStatus(t.rows, id, TargetStatus(action)), trail := t.trail + [Requested(action, id)]), Ok)
  }

  // ----- Create -----

  function InsertRow(t: Tables, row: Row): Tables {
    t.(rows := t.rows + [row], trail := t.trail + [Created(|t.rows|, row.status)])
  }

  datatype InsertResult = Stored | RolledBack | Leaked

  /** The insert, or the compensation after it failed: terminate the provider record, if that write succeeds. */
  function FinishCreate(t: Tables, row: Row, now: int, result: InsertResult): Tables {
    match result
    case Stored => InsertRow(t, row)
    case RolledBack => SetRecord(t, row.pid, Terminated, now)
    case Leaked => t
  }

  function Create(cfg: Config, t: Tables, now: int, member: bool, org: int, req: CreateRequest,
                  pid: ProviderID, provisioned: bool, result: InsertResult): (Tables, Outcome) {
    var region, size := RegionOf(req), SizeOf(req);
    if !member then (t, ErrNotInOrg)
    else if region !in cfg.capacities then (t, ErrUnknownRegion)
    else if !Fits(cfg, t.rows, Org(org), size) then (t, ErrQuotaExceeded)
    else if !Fits(cfg, t.rows, Region(region), size) then (t, ErrInsufficientCapacity)
    else if !provisioned then (t, ErrProvider)
    else
      var t1 := SetRecord(t, pid, Pending, now);
      (FinishCreate(t1, Row(org, region, pid, Pending, size), now, result), if result.Stored? then Ok else ErrStore)
  }

  // ----- the reconciler -----

  /** One turn of the loop in Tick: the clock it reads, and whether its reads and writes succeed. */
  datatype Turn = Turn(now: int, readOk: bool, writeOk: bool)

  /** The status one turn writes for a listed instance, if any. It compares the provider's current view with
      the status the instance had when it was listed. */
  function StatusToWrite(delays: Delays, records: map<ProviderID, ProviderRecord>, e: Listed, turn: Turn): seq<Status> {
    if !turn.readOk || !turn.writeOk then [] else
    match GetState(delays, records, e.pid, turn.now)
    case NotFound => if e.status.Failed? then [] else [Failed]
    case UnexpectedDesired(_) => []
    case Reported(state) => if state == e.status then [] else [state]
  }

  function WriteStatus(t: Tables, e: Listed, write: seq<Status>): Tables {
    if write == [] then t else
    t.(rows := SetStatus(t.rows, e.id, write[0]), trail := t.trail + [StatusChanged(e.id, e.status, write[0])])
  }

  function Reconcile(delays: Delays, t: Tables, e: Listed, turn: Turn): Tables {
    WriteStatus(t, e, StatusToWrite(delays, t.records, e, turn))
  }

  /** The loop of Tick over a listing, the i-th turn reading the clock and failing as `turns` says. */
  function ReconcileAll(delays: Delays, t: Tables, listed: seq<Listed>, turns: nat -> Turn, i: nat): (Tables, nat)
    decreases |listed|
  {
    if listed == [] then (t, 0) else
    var here := |StatusToWrite(delays, t.records, listed[0], turns(i))|;
    var rest := ReconcileAll(delays, Reconcile(delays, t, listed[0], turns(i)), listed[1..], turns, i + 1);
    (rest.0, here + rest.1)
  }

  function Tick(delays: Delays, t: Tables, turns: nat -> Turn): (Tables, nat) {
    ReconcileAll(delays, t, ListActive(t.rows), turns, 0)
  }

  /** With i turns taken and `changed` rows counted, the remaining turns lead to `all`. */
  ghost predicate LeadsTo(delays: Delays, t: Tables, listed: seq<Listed>, i: nat, changed: nat, turns: nat -> Turn,
                          all: (Tables, nat))
  {
    && i <= |listed|
    && var rest := ReconcileAll(delays, t, listed[i..], turns, i);
       all == (rest.0, changed + rest.1)
  }

  lemma LoopStarts(delays: Delays, t: Tables, listed: seq<Listed>, turns: nat -> Turn)
    ensures LeadsTo(delays, t, listed, 0, 0, turns, ReconcileAll(delays, t, listed, turns, 0))
  {
    assert listed[0..] == listed;
  }

  lemma TurnLeadsOn(delays: Delays, t: Tables, listed: seq<Listed>, i: nat, changed: nat, turns: nat -> Turn,
                    all: (Tables, nat))
    requires i < |listed| && LeadsTo(delays, t, listed, i, changed, turns, all)
    ensures LeadsTo(delays, Reconcile(delays, t, listed[i], turns(i)), listed, i + 1,
                    changed + |StatusToWrite(delays, t.records, listed[i], turns(i))|, turns, all)
  {
    assert listed[i..][1..] == listed[i + 1..];
  }

  lemma LoopEnds(delays: Delays, t: Tables, listed: seq<Listed>, changed: nat, turns: nat -> Turn, all: (Tables, nat))
    requires LeadsTo(delays, t, listed, |listed|, changed, turns, all)
    ensures all == (t, changed)
  {
  }
}
