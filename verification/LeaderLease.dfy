/** The shared table of control plane instances and the statements that change it
    (management-plane/control_plane_ha.go). Each SQL statement is one function on the table. */
module LeaderLease {
  import opened Wrappers

  datatype Status = ACTIVE | DRAINING | OFFLINE

  datatype Instance = Instance(isLeader: bool, lease: Option<int>, status: Status, heartbeat: int)

  type Table = map<string, Instance>

  const LEASE_SECONDS := 12
  const STALE_SECONDS := 20

  /** The condition of the leader SELECT. */
  predicate LiveRow(row: Instance, now: int) {
    row.isLeader && row.lease.Some? && row.lease.value > now && row.status == ACTIVE
  }

  predicate Live(t: Table, id: string, now: int) {
    id in t && LiveRow(t[id], now)
  }

  // ---------------------------------------------------------------- the statements

  datatype Statement =
    | Register(id: string)
    | Heartbeat(id: string)
    | Sweep
    | Acquire(id: string)
    | Renew(id: string)
    | Drain(id: string)
    | ResetLeaders
    | PromoteStandbys(former: string)

  function Apply(t: Table, s: Statement, now: int): Table {
    match s
    case Register(id) =>
      if id in t then t[id := t[id].(status := ACTIVE, heartbeat := now)]
      else t[id := Instance(false, None, ACTIVE, now)]
    case Heartbeat(id) =>
      if id in t && t[id].status != DRAINING then t[id := t[id].(heartbeat := now)] else t
    case Sweep =>
      map i | i in t :: if Stale(t[i], now) then t[i].(status := OFFLINE, isLeader := false) else t[i]
    case Acquire(id) =>
      if id in t && t[id].status == ACTIVE then t[id := t[id].(isLeader := true, lease := Some(now + LEASE_SECONDS))] else t
    case Renew(id) =>
      if id in t && t[id].isLeader then t[id := t[id].(lease := Some(now + LEASE_SECONDS))] else t
    case Drain(id) =>
      if id in t then t[id := t[id].(status := DRAINING, isLeader := false)] else t
    case ResetLeaders =>
      map i | i in t :: if t[i].isLeader then t[i].(isLeader := false, lease := Some(now)) else t[i]
    case PromoteStandbys(former) =>
      map i | i in t ::
        if i != former && t[i].status == ACTIVE then t[i].(isLeader := true, lease := Some(now + LEASE_SECONDS)) else t[i]
  }

  predicate Stale(row: Instance, now: int) {
    row.heartbeat < now - STALE_SECONDS && row.status == ACTIVE
  }

  // ---------------------------------------------------------------- the tick and the handlers

  /** What the unordered leader SELECT may return: some live row, or nothing when there is none. */
  ghost predicate SelectResult(t: Table, now: int, seen: Option<string>) {
    match seen
    case None => forall id | id in t :: !LiveRow(t[id], now)
    case Some(id) => Live(t, id, now)
  }

  function AfterSweep(t: Table, id: string, now: int): Table {
    Apply(Apply(t, Heartbeat(id), now), Sweep, now)
  }

  /** Heartbeat, sweep, SELECT, and the election statement that follows, if any. */
  function TickTable(t: Table, id: string, now: int, seen: Option<string>): Table {
    var swept := AfterSweep(t, id, now);
    match seen
    case None => Apply(swept, Acquire(id), now)
    case Some(leader) => if leader == id then Apply(swept, Renew(id), now) else swept
  }

  function StepDownTable(t: Table, former: string, now: int): Table {
    Apply(Apply(t, ResetLeaders, now), PromoteStandbys(former), now)
  }

  /** What the unordered SELECT at the start of a step-down may return; no row scans as "". */
  ghost predicate FormerLeader(t: Table, former: string) {
    if exists id | id in t :: t[id].isLeader then former in t && t[former].isLeader else former == ""
  }

  /** The table as the instances and the handlers update it. */
  class ControlPlane {
    var rows: Table

    constructor ()
      ensures rows == map[]
    {
      rows := map[];
    }

    method Register(id: string, now: int)
      modifies this
      ensures rows == Apply(old(rows), Statement.Register(id), now)
    {
      if id in rows {
        rows := rows[id := rows[id].(status := ACTIVE, heartbeat := now)];
      } else {
        rows := rows[id := Instance(false, None, ACTIVE, now)];
      }
    }

    method SelectLeader(now: int) returns (seen: Option<string>)
      ensures SelectResult(rows, now, seen)
    {
      var left := rows.Keys;
      while left != {}
        invariant left <= rows.Keys
        invariant forall i | i in rows && i !in left :: !LiveRow(rows[i], now)
        decreases left
      {
        var id :| id in left;
        if LiveRow(rows[id], now) {
          return Some(id);
        }
        left := left - {id};
      }
      seen := None;
    }

    /** One turn of the ticker loop, run without interruption. */
    method Tick(id: string, now: int) returns (seen: Option<string>)
      modifies this
      ensures SelectResult(AfterSweep(old(rows), id, now), now, seen)
      ensures rows == TickTable(old(rows), id, now, seen)
    {
      if id in rows && rows[id].status != DRAINING {
        rows := rows[id := rows[id].(heartbeat := now)];
      }
      rows := map i | i in rows :: if Stale(rows[i], now) then rows[i].(status := OFFLINE, isLeader := false) else rows[i];
      seen := SelectLeader(now);
      if seen.None? {
        if id in rows && rows[id].status == ACTIVE {
          rows := rows[id := rows[id].(isLeader := true, lease := Some(now + LEASE_SECONDS))];
        }
      } else if seen.value == id {
        if id in rows && rows[id].isLeader {
          rows := rows[id := rows[id].(lease := Some(now + LEASE_SECONDS))];
        }
      }
    }

    method StepDown(now: int) returns (former: string)
      modifies this
      ensures FormerLeader(old(rows), former)
      ensures rows == StepDownTable(old(rows), former, now)
    {
      former := "";
      if i :| i in rows && rows[i].isLeader {
        former := i;
      }
      rows := map i | i in rows :: if rows[i].isLeader then rows[i].(isLeader := false, lease := Some(now)) else rows[i];
      rows := map i | i in rows ::
        if i != former && rows[i].status == ACTIVE then rows[i].(isLeader := true, lease := Some(now + LEASE_SECONDS)) else rows[i];
    }

    method Drain(id: string) returns (found: bool)
      modifies this
      ensures found == (id in old(rows))
      ensures forall now :: rows == Apply(old(rows), Statement.Drain(id), now)
    {
      found := id in rows;
      if found {
        rows := rows[id := rows[id].(status := DRAINING, isLeader := false)];
      }
    }
  }
}
