/**
 The tables of the compute service and the meaning of its queries: instance rows in id order, provider
 records, the audit trail, active usage per organization or region, and the quota and capacity checks.
 Instance rows are never deleted by the service, so a row's id is its position.
 */
module ComputeTables {
  import opened Sums
  import opened Lifecycle

  datatype Size = Size(cpu: int, memory: int, disk: int)

  datatype Row = Row(org: int, region: string, pid: ProviderID, status: Status, size: Size)

  datatype Event =
    | Created(id: nat, status: Status)
    | Requested(action: Action, id: nat)
    | StatusChanged(id: nat, from: Status, to: Status)

  datatype Tables = Tables(rows: seq<Row>, records: map<ProviderID, ProviderRecord>, trail: seq<Event>)

  // ----- quotas and capacities -----

  datatype Quota = Quota(instances: int, cpu: int, memory: int, disk: int)

  const DEFAULT_QUOTA := Quota(20, 16, 32768, 500)

  datatype Config = Config(delays: Delays, quotas: map<int, Quota>, capacities: map<string, Size>)

  function QuotaOf(cfg: Config, org: int): Quota {
    if org in cfg.quotas then cfg.quotas[org] else DEFAULT_QUOTA
  }

  datatype Dimension = Count | Cpu | Memory | Disk

  datatype Scope = Org(org: int) | Region(region: string)

  function Amount(size: Size, dim: Dimension): int {
    match dim
    case Count => 1
    case Cpu => size.cpu
    case Memory => size.memory
    case Disk => size.disk
  }

  /** Regions bound no instance count, and an unseeded region has no capacity row. */
  predicate Limited(cfg: Config, scope: Scope, dim: Dimension) {
    match scope
    case Org(_) => true
    case Region(r) => !dim.Count? && r in cfg.capacities
  }

  function Limit(cfg: Config, scope: Scope, dim: Dimension): int
    requires Limited(cfg, scope, dim)
  {
    match scope
    case Org(o) =>
      var q := QuotaOf(cfg, o);
      (match dim case Count => q.instances case Cpu => q.cpu case Memory => q.memory case Disk => q.disk)
    case Region(r) => Amount(cfg.capacities[r], dim)
  }

  // ----- requests -----

  datatype CreateRequest = CreateRequest(region: string, cpu: int, memory: int, disk: int)

  const DEFAULT_REGION := "us-east-1"

  function RegionOf(req: CreateRequest): string {
    if req.region == "" then DEFAULT_REGION else req.region
  }

  /** The request with defaults filled in demands a positive amount in every dimension. */
  function SizeOf(req: CreateRequest): (size: Size)
    ensures forall dim :: Amount(size, dim) >= 1
  {
    Size(if req.cpu <= 0 then 1 else req.cpu,
         if req.memory <= 0 then 1024 else req.memory,
         if req.disk <= 0 then 10 else req.disk)
  }

  // ----- usage -----

  predicate InScope(scope: Scope, org: int, region: string) {
    match scope
    case Org(o) => o == org
    case Region(r) => r == region
  }

  /** What a row adds to the SUM over active rows. */
  function Charge(row: Row, scope: Scope, dim: Dimension): int {
    if row.status.Terminated? || !InScope(scope, row.org, row.region) then 0 else Amount(row.size, dim)
  }

  function Charges(rows: seq<Row>, scope: Scope, dim: Dimension): seq<int> {
    seq(|rows|, i requires 0 <= i < |rows| => Charge(rows[i], scope, dim))
  }

  /** SumActiveByOrg and SumActiveByRegion, one dimension at a time. */
  function Usage(rows: seq<Row>, scope: Scope, dim: Dimension): int {
    Sum(Charges(rows, scope, dim))
  }

  lemma UsageAppend(rows: seq<Row>, row: Row, scope: Scope, dim: Dimension)
    ensures Usage(rows + [row], scope, dim) == Usage(rows, scope, dim) + Charge(row, scope, dim)
  {
    assert Charges(rows + [row], scope, dim) == Charges(rows, scope, dim) + [Charge(row, scope, dim)];
    SumAppend(Charges(rows, scope, dim), Charge(row, scope, dim));
  }

  lemma UsageUpdate(rows: seq<Row>, i: nat, row: Row, scope: Scope, dim: Dimension)
    requires i < |rows|
    ensures Usage(rows[i := row], scope, dim)
         == Usage(rows, scope, dim) - Charge(rows[i], scope, dim) + Charge(row, scope, dim)
  {
    assert Charges(rows[i := row], scope, dim) == Charges(rows, scope, dim)[i := Charge(row, scope, dim)];
    SumUpdate(Charges(rows, scope, dim), i, Charge(row, scope, dim));
  }

  /** enforceQuota and enforceCapacity: the check that a Create passes, in every limited dimension. */
  predicate Fits(cfg: Config, rows: seq<Row>, scope: Scope, size: Size) {
    forall dim | dim in {Count, Cpu, Memory, Disk} && Limited(cfg, scope, dim) ::
      Usage(rows, scope, dim) + Amount(size, dim) <= Limit(cfg, scope, dim)
  }

  // ----- row updates and queries -----

  /** UPDATE ... SET status WHERE id: an unknown id matches no row. */
  function SetStatus(rows: seq<Row>, id: nat, status: Status): seq<Row> {
    if id < |rows| then rows[id := rows[id].(status := status)] else rows
  }

  /** The columns of a listed instance that the reconciler uses, as they were when it was listed. */
  datatype Listed = Listed(id: nat, pid: ProviderID, status: Status)

  function ListedRow(rows: seq<Row>, id: nat): Listed
    requires id < |rows|
  {
    Listed(id, rows[id].pid, rows[id].status)
  }

  /** The rows that are not terminated, in id order. */
  function ListActive(rows: seq<Row>): seq<Listed> {
    if rows == [] then [] else
    var n := |rows| - 1;
    var before := ListActive(rows[..n]);
    if rows[n].status.Terminated? then before else before + [ListedRow(rows, n)]
  }

  ghost predicate IsListing(rows: seq<Row>, listed: seq<Listed>) {
    && (forall k :: 0 <= k < |listed| ==>
          && listed[k].id < |rows| && !rows[listed[k].id].status.Terminated?
          && listed[k] == ListedRow(rows, listed[k].id))
    && (forall j, k :: 0 <= j < k < |listed| ==> listed[j].id < listed[k].id)
  }

  /** Exactly the rows that are not terminated are listed, as they are, each once and in id order. */
  lemma {:induction false} ActiveAreListed(rows: seq<Row>)
    ensures IsListing(rows, ListActive(rows))
    ensures forall id: nat :: id < |rows| && !rows[id].status.Terminated? ==> ListedRow(rows, id) in ListActive(rows)
  {
    if rows != [] {
      var n := |rows| - 1;
      ActiveAreListed(rows[..n]);
      var before := ListActive(rows[..n]);
      assert IsListing(rows, before);
      forall id: nat | id < |rows| && !rows[id].status.Terminated?
        ensures ListedRow(rows, id) in ListActive(rows)
      {
        if id < n {
          assert ListedRow(rows[..n], id) in before;
        }
      }
    }
  }

  // ----- what the audit trail says -----

  function After(known: map<nat, Status>, e: Event): map<nat, Status> {
    match e
    case Created(id, status) => known[id := status]
    case Requested(action, id) => known[id := TargetStatus(action)]
    case StatusChanged(id, _, to) => known[id := to]
  }

  /** The instance statuses that the trail alone implies. */
  function Replay(trail: seq<Event>): map<nat, Status> {
    if trail == [] then map[] else After(Replay(trail[..|trail| - 1]), trail[|trail| - 1])
  }

  lemma ReplayAppend(trail: seq<Event>, e: Event)
    ensures Replay(trail + [e]) == After(Replay(trail), e)
  {
    assert (trail + [e])[..|trail|] == trail;
  }

  function Statuses(rows: seq<Row>): map<nat, Status> {
    map id: nat | id < |rows| :: rows[id].status
  }
}
