/**
 The instance lifecycle: the graph of allowed status changes, the wall-clock view that the simulation
 provider reports, and the coupling between an instance's status and its provider record that the
 reconciler silently relies on. Times are integer nanoseconds.
 */
module Lifecycle {

  datatype Status = Pending | Running | Stopping | Stopped | Terminating | Terminated | Failed

  const INSTANCE_TRANSITIONS: map<Status, set<Status>> :=
    map[
      Pending := {Running, Terminating},
      Running := {Stopping, Terminating},
      Stopping := {Stopped, Terminating},
      Stopped := {Pending, Terminating},
      Terminating := {Terminated},
      Terminated := {},
      Failed := {Terminating}
    ]

  predicate CanTransition(from: Status, to: Status) {
    from in INSTANCE_TRANSITIONS && to in INSTANCE_TRANSITIONS[from]
  }

  /** The edges the provider takes by itself, as its clock runs. */
  predicate ProviderEdge(from: Status, to: Status) {
    match from
    case Pending => to.Running?
    case Stopping => to.Stopped?
    case Terminating => to.Terminated?
    case _ => false
  }

  /** One edge of the graph, or the edge a cut user call left out followed by the provider's own edge. */
  ghost predicate WithinTwoEdges(from: Status, to: Status) {
    CanTransition(from, to) || exists mid :: CanTransition(from, mid) && CanTransition(mid, to)
  }

  // ----- the provider's side -----

  type ProviderID = nat

  /** A row of provider_state. `desired` may hold any status the column could hold. */
  datatype ProviderRecord = ProviderRecord(desired: Status, at: int)

  datatype Delays = Delays(provision: int, stop: int)

  datatype View =
    | Reported(state: Status)
    | NotFound
    | UnexpectedDesired(desired: Status)

  function GetState(delays: Delays, records: map<ProviderID, ProviderRecord>, pid: ProviderID, now: int): View {
    if pid !in records then NotFound else
    var rec := records[pid];
    match rec.desired
    case Pending => Reported(if now - rec.at >= delays.provision then Running else Pending)
    case Stopping => Reported(if now - rec.at >= delays.stop then Stopped else Stopping)
    case Terminated => Reported(Terminated)
    case other => UnexpectedDesired(other)
  }

  // ----- user requests -----

  datatype Action = Start | Stop | Terminate

  /** The status the control plane writes for a user request. */
  function TargetStatus(action: Action): Status {
    match action
    case Start => Pending
    case Stop => Stopping
    case Terminate => Terminating
  }

  /** The state the provider is asked for; it differs from the control plane's for Terminate. */
  function DesiredState(action: Action): Status {
    match action
    case Start => Pending
    case Stop => Stopping
    case Terminate => Terminated
  }

  // ----- the coupling between the two tables -----

  /** Status and record agree up to settling: what holds as long as no user call is cut in half. */
  ghost predicate Coupled(delays: Delays, status: Status, rec: ProviderRecord, now: int) {
    match rec.desired
    case Pending => status.Pending? || (status.Running? && now - rec.at >= delays.provision)
    case Stopping => status.Stopping? || (status.Stopped? && now - rec.at >= delays.stop)
    case Terminated => status.Terminating? || status.Terminated?
    case _ => false
  }

  /** As Coupled, or the record is one user request ahead: what survives cuts between the two writes. */
  ghost predicate LooselyCoupled(delays: Delays, status: Status, rec: ProviderRecord, now: int) {
    || Coupled(delays, status, rec, now)
    || (rec.desired.Pending? && status.Stopped?)
    || (rec.desired.Stopping? && status.Running?)
    || (rec.desired.Terminated? && !status.Terminated?)
  }

  /** Time passing never breaks either coupling. */
  lemma CouplingSurvivesTime(delays: Delays, status: Status, rec: ProviderRecord, now: int, later: int)
    requires now <= later
    ensures Coupled(delays, status, rec, now) ==> Coupled(delays, status, rec, later)
    ensures LooselyCoupled(delays, status, rec, now) ==> LooselyCoupled(delays, status, rec, later)
  {
  }

  /** Under the coupling, whatever the provider reports is the current status or one edge away from it,
      and writing it keeps the coupling. */
  lemma ViewFollowsGraph(delays: Delays, records: map<ProviderID, ProviderRecord>, pid: ProviderID, now: int,
                         status: Status)
    requires pid in records && Coupled(delays, status, records[pid], now)
    ensures var view := GetState(delays, records, pid, now);
            view.Reported?
            && (view.state == status || (ProviderEdge(status, view.state) && CanTransition(status, view.state)))
            && Coupled(delays, view.state, records[pid], now)
  {
  }

  /** The same under the loose coupling, with at most the one edge missing that a cut left out. Writing
      the view restores the strict coupling. */
  lemma ViewWithinTwoEdges(delays: Delays, records: map<ProviderID, ProviderRecord>, pid: ProviderID, now: int,
                           status: Status)
    requires pid in records && LooselyCoupled(delays, status, records[pid], now)
    ensures var view := GetState(delays, records, pid, now);
            view.Reported?
            && (view.state == status || WithinTwoEdges(status, view.state))
            && Coupled(delays, view.state, records[pid], now)
  {
    var view := GetState(delays, records, pid, now);
    assert view.Reported?;
    if view.state != status && !CanTransition(status, view.state) {
      var mid := match records[pid].desired
                 case Pending => Pending
                 case Stopping => Stopping
                 case _ => Terminating;
      assert CanTransition(status, mid) && CanTransition(mid, view.state);
    }
  }

  /** The reconciler's write skips an edge exactly when the record is one request ahead of the status and the
      provider has already settled. */
  lemma SkipsAnEdgeExactlyWhen(delays: Delays, records: map<ProviderID, ProviderRecord>, pid: ProviderID, now: int,
                               status: Status)
    requires pid in records && LooselyCoupled(delays, status, records[pid], now)
    ensures var view := GetState(delays, records, pid, now);
            view.Reported? && view.state != status ==>
              (!CanTransition(status, view.state) <==>
                 !Coupled(delays, status, records[pid], now) && view.state in {Running, Stopped, Terminated})
  {
  }

  /** The provider's view is stable once a record's delay has passed. */
  lemma ViewIsStable(delays: Delays, records: map<ProviderID, ProviderRecord>, pid: ProviderID, now: int, later: int)
    requires pid in records && now <= later
    requires now - records[pid].at >= delays.provision && now - records[pid].at >= delays.stop
    ensures GetState(delays, records, pid, later) == GetState(delays, records, pid, now)
    ensures GetState(delays, records, pid, now).Reported? ==>
              GetState(delays, records, pid, now).state in {Running, Stopped, Terminated}
  {
  }
}
