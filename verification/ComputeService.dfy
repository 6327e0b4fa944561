/**
 The compute service as the source has it: objects whose methods write the provider record first and the
 instance row second, one statement at a time. Every method is proved to do to the tables exactly what
 ComputeSpec says. Results of I/O that may fail are parameters; so are the clock and the drawn provider id.
 */
module ComputeService {
  import opened Lifecycle
  import opened ComputeTables
  import opened ComputeSpec

  class InstanceTable {
    var rows: seq<Row>

    constructor ()
      ensures rows == []
    {
      rows := [];
    }

    method Insert(row: Row, ok: bool)
      modifies this
      ensures rows == if ok then old(rows) + [row] else old(rows)
    {
      if ok {
        rows := rows + [row];
      }
    }

    method UpdateStatus(id: nat, status: Status, ok: bool)
      modifies this
      ensures rows == if ok then SetStatus(old(rows), id, status) else old(rows)
    {
      if ok && id < |rows| {
        rows := rows[id := rows[id].(status := status)];
      }
    }
  }

  class SimProvider {
    const delays: Delays
    var records: map<ProviderID, ProviderRecord>

    constructor (delays: Delays)
      ensures this.delays == delays && records == map[]
    {
      this.delays := delays;
      records := map[];
    }

    method Set(pid: ProviderID, desired: Status, now: int, ok: bool)
      modifies this
      ensures records == if ok then old(records)[pid := ProviderRecord(desired, now)] else old(records)
    {
      if ok {
        records := records[pid := ProviderRecord(desired, now)];
      }
    }

    function State(pid: ProviderID, now: int): View
      reads this
    {
      GetState(delays, records, pid, now)
    }
  }

  class AuditTrail {
    var events: seq<Event>

    constructor ()
      ensures events == []
    {
      events := [];
    }

    method Record(e: Event)
      modifies this
      ensures events == old(events) + [e]
    {
      events := events + [e];
    }
  }

  class Service {
    const cfg: Config
    const table: InstanceTable
    const provider: SimProvider
    const trail: AuditTrail

    constructor (cfg: Config, table: InstanceTable, provider: SimProvider, trail: AuditTrail)
      requires provider.delays == cfg.delays
      ensures this.cfg == cfg && this.table == table && this.provider == provider && this.trail == trail
    {
      this.cfg, this.table, this.provider, this.trail := cfg, table, provider, trail;
    }

    ghost function Contents(): Tables
      reads table, provider, trail
    {
      Tables(table.rows, provider.records, trail.events)
    }

    /** The first failing check of enforceQuota refuses; passing means fitting in all four dimensions. */
    method EnforceQuota(org: int, size: Size) returns (ok: bool)
      ensures ok == Fits(cfg, table.rows, Org(org), size)
    {
      var quota := QuotaOf(cfg, org);
      if Usage(table.rows, Org(org), Count) + 1 > quota.instances {
        assert Limited(cfg, Org(org), Count);
        return false;
      }
      if Usage(table.rows, Org(org), Cpu) + size.cpu > quota.cpu {
        assert Limited(cfg, Org(org), Cpu);
        return false;
      }
      if Usage(table.rows, Org(org), Memory) + size.memory > quota.memory {
        assert Limited(cfg, Org(org), Memory);
        return false;
      }
      if Usage(table.rows, Org(org), Disk) + size.disk > quota.disk {
        assert Limited(cfg, Org(org), Disk);
        return false;
      }
      return true;
    }

    method EnforceCapacity(region: string, size: Size) returns (ok: bool)
      requires region in cfg.capacities
      ensures ok == Fits(cfg, table.rows, Region(region), size)
    {
      var capacity := cfg.capacities[region];
      if Usage(table.rows, Region(region), Cpu) + size.cpu > capacity.cpu {
        assert Limited(cfg, Region(region), Cpu);
        return false;
      }
      if Usage(table.rows, Region(region), Memory) + size.memory > capacity.memory {
        assert Limited(cfg, Region(region), Memory);
        return false;
      }
      if Usage(table.rows, Region(region), Disk) + size.disk > capacity.disk {
        assert Limited(cfg, Region(region), Disk);
        return false;
      }
      return true;
    }

    method Create(now: int, member: bool, org: int, req: CreateRequest, pid: ProviderID,
                  provisioned: bool, result: InsertResult)
      returns (r: Outcome)
      modifies table, provider, trail
      ensures (Contents(), r)
           == ComputeSpec.Create(cfg, old(Contents()), now, member, org, req, pid, provisioned, result)
    {
      if !member {
        return ErrNotInOrg;
      }
      var region, size := RegionOf(req), SizeOf(req);
      if region !in cfg.capacities {
        return ErrUnknownRegion;
      }
      var fits := EnforceQuota(org, size);
      if !fits {
        return ErrQuotaExceeded;
      }
      fits := EnforceCapacity(region, size);
      if !fits {
        return ErrInsufficientCapacity;
      }
      provider.Set(pid, Pending, now, provisioned);
      if !provisioned {
        return ErrProvider;
      }
      var row := Row(org, region, pid, Pending, size);
      table.Insert(row, result.Stored?);
      if !result.Stored? {
        provider.Set(pid, Terminated, now, result.RolledBack?);
        return ErrStore;
      }
      trail.Record(Created(|table.rows| - 1, row.status));
      return Ok;
    }

    method Get(member: bool, org: int, id: nat) returns (r: Outcome)
      ensures r == if !member then ErrNotInOrg
                   else if id >= |table.rows| || table.rows[id].org != org then ErrNotFound
                   else Ok
    {
      if !member {
        return ErrNotInOrg;
      }
      if id >= |table.rows| {
        return ErrNotFound;
      }
      if table.rows[id].org != org {
        return ErrNotFound;
      }
      return Ok;
    }

    method Start(now: int, member: bool, org: int, id: nat, w: Writes) returns (r: Outcome)
      modifies table, provider, trail
      ensures (Contents(), r) == Request(old(Contents()), now, member, Action.Start, org, id, w)
    {
      r := Get(member, org, id);
      if r != Ok {
        return;
      }
      var inst := table.rows[id];
      if !CanTransition(inst.status, Pending) {
        return ErrInvalidTransition;
      }
      provider.Set(inst.pid, Pending, now, w.provider);
      if !w.provider {
        return ErrProvider;
      }
      table.UpdateStatus(id, Pending, w.row);
      if !w.row {
        return ErrStore;
      }
      trail.Record(Requested(Action.Start, id));
    }

    method Stop(now: int, member: bool, org: int, id: nat, w: Writes) returns (r: Outcome)
      modifies table, provider, trail
      ensures (Contents(), r) == Request(old(Contents()), now, member, Action.Stop, org, id, w)
    {
      r := Get(member, org, id);
      if r != Ok {
        return;
      }
      var inst := table.rows[id];
      if !CanTransition(inst.status, Stopping) {
        return ErrInvalidTransition;
      }
      provider.Set(inst.pid, Stopping, now, w.provider);
      if !w.provider {
        return ErrProvider;
      }
      table.UpdateStatus(id, Stopping, w.row);
      if !w.row {
        return ErrStore;
      }
      trail.Record(Requested(Action.Stop, id));
    }

    method Terminate(now: int, member: bool, org: int, id: nat, w: Writes) returns (r: Outcome)
      modifies table, provider, trail
      ensures (Contents(), r) == Request(old(Contents()), now, member, Action.Terminate, org, id, w)
    {
      r := Get(member, org, id);
      if r != Ok {
        return;
      }
      var inst := table.rows[id];
      if inst.status == Terminated {
        return Ok;
      }
      if !CanTransition(inst.status, Terminating) {
        return ErrInvalidTransition;
      }
      provider.Set(inst.pid, Terminated, now, w.provider);
      if !w.provider {
        return ErrProvider;
      }
      table.UpdateStatus(id, Terminating, w.row);
      if !w.row {
        return ErrStore;
      }
      trail.Record(Requested(Action.Terminate, id));
    }
  }

  class Reconciler {
    const table: InstanceTable
    const provider: SimProvider
    const trail: AuditTrail

    constructor (table: InstanceTable, provider: SimProvider, trail: AuditTrail)
      ensures this.table == table && this.provider == provider && this.trail == trail
    {
      this.table, this.provider, this.trail := table, provider, trail;
    }

    ghost function Contents(): Tables
      reads table, provider, trail
    {
      Tables(table.rows, provider.records, trail.events)
    }

    /** The body of Tick's loop for one listed instance. */
    method ReconcileOne(inst: Listed, turn: Turn) returns (changed: nat)
      modifies table, trail
      ensures Contents() == Reconcile(provider.delays, old(Contents()), inst, turn)
      ensures changed == |StatusToWrite(provider.delays, provider.records, inst, turn)|
    {
      if !turn.readOk {
        return 0;
      }
      match provider.State(inst.pid, turn.now) {
        case NotFound =>
          if inst.status == Failed {
            return 0;
          }
          table.UpdateStatus(inst.id, Failed, turn.writeOk);
          if !turn.writeOk {
            return 0;
          }
          trail.Record(StatusChanged(inst.id, inst.status, Failed));
          return 1;
        case UnexpectedDesired(_) =>
          return 0;
        case Reported(state) =>
          if state == inst.status {
            return 0;
          }
          table.UpdateStatus(inst.id, state, turn.writeOk);
          if !turn.writeOk {
            return 0;
          }
          trail.Record(StatusChanged(inst.id, inst.status, state));
          return 1;
      }
    }

    method Tick(turns: nat -> Turn) returns (changed: nat)
      modifies table, trail
      ensures (Contents(), changed) == ComputeSpec.Tick(provider.delays, old(Contents()), turns)
    {
      var instances := ListActive(table.rows);
      ghost var t := Contents();
      ghost var all := ReconcileAll(provider.delays, t, instances, turns, 0);
      LoopStarts(provider.delays, t, instances, turns);
      changed := 0;
      var i := 0;
      while i < |instances|
        invariant Contents() == t
        invariant LeadsTo(provider.delays, t, instances, i, changed, turns, all)
      {
        TurnLeadsOn(provider.delays, t, instances, i, changed, turns, all);
        var more := ReconcileOne(instances[i], turns(i));
        t := Reconcile(provider.delays, t, instances[i], turns(i));
        changed := changed + more;
        i := i + 1;
      }
      LoopEnds(provider.delays, t, instances, changed, turns, all);
    }
  }
}
