/** System backup and restore (management-plane/main.go). A row is found by its table's conflict
    target; its numeric id is unique in the table as well. */
module BackupRestore {
  import opened Wrappers
  import MonitorRewrite

  /** The tables of a backup bundle. */
  datatype TableName =
    | Applications | CustomRules | DDoSPolicies | ProtocolPolicies | CredentialAbusePolicies
    | Tenants | ClusterNodes | DiscoveredAssets | IdentityPolicies | ProtocolShields
    | RuleExceptions | RateLimits | GeoPolicies | BotPolicies | ThreatIndicators | SIEMDestinations
    | Certificates | APISchemas | JWTPolicies | ScrapingPolicies | CanaryDeployments

  /** The tables the restore writes: ten of the twenty-one the export reads. */
  predicate Restored(t: TableName) {
    t.Applications? || t.CustomRules? || t.DDoSPolicies? || t.ProtocolPolicies? || t.CredentialAbusePolicies?
    || t.Tenants? || t.ClusterNodes? || t.DiscoveredAssets? || t.IdentityPolicies? || t.ProtocolShields?
  }

  // ---------------------------------------------------------------- columns

  datatype Value = Null | Number(number: int) | Flag(flag: bool) | Text(text: string)

  /** The columns a conflict sets from the bundle. */
  function UpdatedColumns(t: TableName): set<string> {
    match t
    case Applications => {"name", "backend_url", "waf_mode", "paranoia_level", "status"}
    case CustomRules => {"name", "seclang_code", "is_enabled", "status"}
    case DDoSPolicies => {"name", "rps_threshold", "surge_ratio", "action", "is_enabled"}
    case ProtocolPolicies => {"name", "policy_type", "disallowed_methods", "max_headers_count", "max_header_size_bytes", "action", "is_enabled"}
    case CredentialAbusePolicies => {"name", "login_path", "max_failed_attempts", "observation_window_seconds", "action", "is_enabled"}
    case Tenants => {"name", "plan_tier", "max_applications", "max_rps", "status"}
    case ClusterNodes => {"hostname", "ip_address", "role", "status", "active_version", "current_rps", "active_connections"}
    case DiscoveredAssets => {"is_sensitive", "observed_clients_count"}
    case IdentityPolicies => {"action", "is_enabled"}
    case ProtocolShields => {"policy_config", "action", "is_enabled"}
    case _ => {}
  }

  /** The columns only an insert sets from the bundle. */
  function InsertOnlyColumns(t: TableName): set<string> {
    match t
    case CustomRules => {"description", "target_app_id", "version", "action"}
    case DDoSPolicies => {"target_app_id", "burst_multiplier", "header_timeout_ms", "body_timeout_ms", "max_concurrent_conns"}
    case IdentityPolicies => {"app_id", "role", "restricted_path"}
    case _ => {}
  }

  function InsertedColumns(t: TableName): set<string> {
    UpdatedColumns(t) + InsertOnlyColumns(t)
  }

  /** The columns every write sets to the present. */
  function StampedColumns(t: TableName): set<string> {
    if t.ClusterNodes? then {"last_heartbeat"} else {}
  }

  lemma StampedApart(t: TableName)
    ensures StampedColumns(t) !! InsertedColumns(t)
  {
  }

  /** The columns the export reads into variables that hold no null; a row with a null in one of
      them is left out of the bundle. */
  function ScannedColumns(t: TableName): set<string> {
    InsertedColumns(t) + match t
    case Applications => {"learning_traffic_count", "created_at"}
    case ClusterNodes => {"last_heartbeat", "created_at"}
    case DiscoveredAssets => {"last_observed_at"}
    case _ => {"created_at"}
  }

  // ---------------------------------------------------------------- rows and upserts

  /** `key`: the value of the conflict target, such as the domain, slug, rule id or node id. */
  datatype Place = Place(table: TableName, key: string)

  datatype Row = Row(id: int, columns: map<string, Value>)

  type Database = map<Place, Row>

  datatype Record = Record(place: Place, row: Row)

  /** A decoded record; decoding fills every column the restore reads. */
  type Entry = e: Record | InsertedColumns(e.place.table) <= e.row.columns.Keys
    witness Record(Place(RateLimits, ""), Row(0, map[]))

  /** What the schema makes of a restore: the present time, each table's columns with their defaults,
      and `accepts` for the constraints other than the conflict target and the unique id. */
  datatype Schema = Schema(now: int, defaults: TableName -> map<string, Value>, accepts: Entry -> bool)

  ghost predicate UniqueIds(d: Database) {
    forall p, q | p in d && q in d && p.table == q.table && d[p].id == d[q].id :: p == q
  }

  predicate IdTaken(d: Database, e: Entry) {
    exists p | p in d :: p.table == e.place.table && d[p].id == e.row.id
  }

  function InsertRow(e: Entry, s: Schema): Row {
    var t := e.place.table;
    Row(e.row.id,
        map c | c in s.defaults(t) ::
          if c in InsertedColumns(t) then e.row.columns[c]
          else if c in StampedColumns(t) then Number(s.now)
          else s.defaults(t)[c])
  }

  function UpdateRow(row: Row, e: Entry, s: Schema): Row {
    var t := e.place.table;
    Row(row.id,
        map c | c in row.columns ::
          if c in UpdatedColumns(t) then e.row.columns[c]
          else if c in StampedColumns(t) then Number(s.now)
          else row.columns[c])
  }

  /** INSERT ... ON CONFLICT (key) DO UPDATE. An insert whose id belongs to another key violates the
      primary key. */
  function Upsert(d: Database, e: Entry, s: Schema): Option<Database> {
    if !s.accepts(e) then None
    else if e.place in d then Some(d[e.place := UpdateRow(d[e.place], e, s)])
    else if IdTaken(d, e) then None
    else Some(d[e.place := InsertRow(e, s)])
  }

  function UpsertAll(d: Database, entries: seq<Entry>, s: Schema): Option<Database> {
    if entries == [] then Some(d)
    else match UpsertAll(d, entries[..|entries| - 1], s)
      case None => None
      case Some(d') => Upsert(d', entries[|entries| - 1], s)
  }

  class Store {
    var tables: Database

    constructor ()
      ensures tables == map[]
    {
      tables := map[];
    }

    /** The handler logs a failing insert and goes on; the failed statement has aborted the
        transaction, so the remaining statements fail and the commit is refused. */
    method Restore(entries: seq<Entry>, s: Schema) returns (committed: bool)
      modifies this
      ensures committed <==> UpsertAll(old(tables), entries, s).Some?
      ensures tables == if committed then UpsertAll(old(tables), entries, s).value else old(tables)
    {
      hide Upsert;
      var tx, aborted := tables, false;
      for i := 0 to |entries|
        invariant tables == old(tables)
        invariant aborted <==> UpsertAll(tables, entries[..i], s).None?
        invariant !aborted ==> Some(tx) == UpsertAll(tables, entries[..i], s)
      {
        assert entries[..i + 1][..i] == entries[..i];
        if !aborted {
          match Upsert(tx, entries[i], s)
          case None => aborted := true;
          case Some(more) => tx := more;
        }
      }
      assert entries[..|entries|] == entries;
      committed := !aborted;
      if committed {
        tables := tx;
      }
    }
  }

  // ---------------------------------------------------------------- what a restore does

  /** The first record the bundle gives for a place, and the last. */
  function FirstGiven(entries: seq<Entry>, p: Place): (e: Option<Entry>)
    ensures e.Some? ==> e.value in entries && e.value.place == p
  {
    if entries == [] then None
    else
      var n := |entries| - 1;
      var first := FirstGiven(entries[..n], p);
      if first.Some? then first else if entries[n].place == p then Some(entries[n]) else None
  }

  function LastGiven(entries: seq<Entry>, p: Place): (e: Option<Entry>)
    ensures e.Some? ==> e.value in entries && e.value.place == p
  {
    if entries == [] then None
    else
      var n := |entries| - 1;
      if entries[n].place == p then Some(entries[n]) else LastGiven(entries[..n], p)
  }

  lemma {:induction false} GivenTogether(entries: seq<Entry>, p: Place)
    ensures FirstGiven(entries, p).Some? == LastGiven(entries, p).Some?
    ensures LastGiven(entries, p).None? <==> forall e | e in entries :: e.place != p
    decreases |entries|
  {
    if entries == [] {
    } else {
      var front, last := entries[..|entries| - 1], entries[|entries| - 1];
      GivenTogether(front, p);
      assert forall e | e in entries :: e in front || e == last;
      assert last in entries && forall e | e in front :: e in entries;
    }
  }

  /** The row a place holds in the end: what was there, or what the first record inserts, updated
      by the last record. */
  function FinalRow(d: Database, entries: seq<Entry>, p: Place, s: Schema): Row
    requires p in d || LastGiven(entries, p).Some?
  {
    GivenTogether(entries, p);
    var base := if p in d then d[p] else InsertRow(FirstGiven(entries, p).value, s);
    match LastGiven(entries, p)
    case None => base
    case Some(e) => UpdateRow(base, e, s)
  }

  lemma UpdateTwice(row: Row, e: Entry, f: Entry, s: Schema)
    requires e.place == f.place
    ensures UpdateRow(UpdateRow(row, e, s), f, s) == UpdateRow(row, f, s)
  {
    hide UpdatedColumns, StampedColumns;
  }

  lemma UpdateInserted(e: Entry, s: Schema)
    ensures UpdateRow(InsertRow(e, s), e, s) == InsertRow(e, s)
  {
    hide UpdatedColumns, InsertOnlyColumns, StampedColumns;
    StampedApart(e.place.table);
    assert UpdateRow(InsertRow(e, s), e, s).columns == InsertRow(e, s).columns;
  }

  lemma UpsertEffect(d: Database, e: Entry, s: Schema)
    requires Upsert(d, e, s).Some?
    ensures s.accepts(e)
    ensures Upsert(d, e, s).value == d[e.place := if e.place in d then UpdateRow(d[e.place], e, s) else InsertRow(e, s)]
  {
    hide UpdateRow, InsertRow;
  }

  /** A committed restore leaves every row it does not name as it was, and every named row holds the
      last record's columns over what was there or was first inserted. */
  lemma {:induction false} RestoreEffect(d: Database, entries: seq<Entry>, s: Schema)
    requires UpsertAll(d, entries, s).Some?
    ensures
      var d' := UpsertAll(d, entries, s).value;
      && (forall p :: p in d' <==> p in d || LastGiven(entries, p).Some?)
      && (forall p | p in d' :: d'[p] == FinalRow(d, entries, p, s))
    ensures forall e | e in entries :: s.accepts(e)
    decreases |entries|
  {
    hide Upsert, UpdateRow, InsertRow, FinalRow, FirstGiven, InsertedColumns;
    if entries == [] {
      NothingGiven(d, s);
    } else {
      var front, last := entries[..|entries| - 1], entries[|entries| - 1];
      assert entries == front + [last];
      RestoreEffect(d, front, s);
      var before := UpsertAll(d, front, s).value;
      UpsertEffect(before, last, s);
      EffectSnoc(d, front, last, before, s);
      assert forall e | e in entries :: e in front || e == last;
    }
  }

  lemma NothingGiven(d: Database, s: Schema)
    ensures forall p | p in d :: FinalRow(d, [], p, s) == d[p]
  {
  }

  lemma EffectSnoc(d: Database, front: seq<Entry>, last: Entry, before: Database, s: Schema)
    requires forall p :: p in before <==> p in d || LastGiven(front, p).Some?
    requires forall p | p in before :: before[p] == FinalRow(d, front, p, s)
    ensures
      var after := before[last.place := if last.place in before then UpdateRow(before[last.place], last, s) else InsertRow(last, s)];
      && (forall p :: p in after <==> p in d || LastGiven(front + [last], p).Some?)
      && (forall p | p in after :: after[p] == FinalRow(d, front + [last], p, s))
  {
    hide UpdateRow, InsertRow, FinalRow, FirstGiven, InsertedColumns;
    var entries := front + [last];
    assert entries[..|entries| - 1] == front;
    var after := before[last.place := if last.place in before then UpdateRow(before[last.place], last, s) else InsertRow(last, s)];
    forall p | p in after ensures after[p] == FinalRow(d, entries, p, s) {
      FinalRowSnoc(d, front, last, p, s);
    }
  }

  lemma FinalRowSnoc(d: Database, front: seq<Entry>, last: Entry, p: Place, s: Schema)
    requires p in d || LastGiven(front + [last], p).Some?
    ensures
      FinalRow(d, front + [last], p, s) ==
      if last.place != p then FinalRow(d, front, p, s)
      else if p in d || LastGiven(front, p).Some? then UpdateRow(FinalRow(d, front, p, s), last, s)
      else InsertRow(last, s)
  {
    hide UpdateRow, InsertRow;
    var entries := front + [last];
    assert entries[..|entries| - 1] == front;
    GivenTogether(front, p);
    if last.place == p {
      if p in d || LastGiven(front, p).Some? {
        var base := if p in d then d[p] else InsertRow(FirstGiven(front, p).value, s);
        if LastGiven(front, p).Some? {
          UpdateTwice(base, LastGiven(front, p).value, last, s);
        }
      } else {
        UpdateInserted(last, s);
      }
    }
  }

  /** Column by column: in a row that was there, a named place takes the last record's updated columns
      and the present time, and keeps the rest; a new row takes the columns only an insert sets from the
      first record, and the defaults elsewhere. */
  lemma RestoredColumn(d: Database, entries: seq<Entry>, s: Schema, p: Place, c: string)
    requires UpsertAll(d, entries, s).Some? && p in UpsertAll(d, entries, s).value && c in UpsertAll(d, entries, s).value[p].columns
    ensures
      var value, t := UpsertAll(d, entries, s).value[p].columns[c], p.table;
      match LastGiven(entries, p)
      case None => p in d && c in d[p].columns && value == d[p].columns[c]
      case Some(last) =>
        if c in UpdatedColumns(t) then c in last.row.columns && value == last.row.columns[c]
        else if c in StampedColumns(t) then value == Number(s.now)
        else if p in d then c in d[p].columns && value == d[p].columns[c]
        else
          && FirstGiven(entries, p).Some? && c in s.defaults(t)
          && value == if c in InsertedColumns(t) then FirstGiven(entries, p).value.row.columns[c] else s.defaults(t)[c]
  {
    hide UpsertAll, FirstGiven, LastGiven, UpdatedColumns, InsertOnlyColumns, StampedColumns;
    RestoreEffect(d, entries, s);
    GivenTogether(entries, p);
    StampedApart(p.table);
  }

  // ---------------------------------------------------------------- the columns of the schema

  /** The columns of each restored table besides its id and its conflict target. */
  function SchemaColumns(t: TableName): set<string> {
    match t
    case Applications => {"name", "backend_url", "waf_mode", "paranoia_level", "created_at", "status", "learning_traffic_count", "tenant_id", "security_headers"}
    case CustomRules => {"name", "description", "seclang_code", "is_enabled", "created_at", "status", "expires_at", "ticket_ref", "cve_id", "target_app_id", "version", "action"}
    case DDoSPolicies => {"name", "target_app_id", "rps_threshold", "burst_multiplier", "surge_ratio", "action", "header_timeout_ms", "body_timeout_ms", "max_concurrent_conns", "is_enabled", "created_at"}
    case ProtocolPolicies => {"name", "policy_type", "disallowed_methods", "max_headers_count", "max_header_size_bytes", "action", "is_enabled", "created_at"}
    case CredentialAbusePolicies => {"name", "login_path", "max_failed_attempts", "observation_window_seconds", "action", "is_enabled", "created_at"}
    case Tenants => {"name", "plan_tier", "max_applications", "max_rps", "status", "created_at"}
    case ClusterNodes => {"hostname", "ip_address", "role", "status", "active_version", "current_rps", "active_connections", "last_heartbeat", "created_at"}
    case DiscoveredAssets => {"is_sensitive", "observed_clients_count", "last_observed_at"}
    case IdentityPolicies => {"app_id", "role", "restricted_path", "action", "is_enabled", "created_at"}
    case ProtocolShields => {"policy_config", "action", "is_enabled", "created_at"}
    case _ => {}
  }

  /** What a restore onto an empty system loses of a row. */
  function LostColumns(t: TableName): set<string> {
    match t
    case Applications => {"created_at", "learning_traffic_count", "tenant_id", "security_headers"}
    case CustomRules => {"created_at", "expires_at", "ticket_ref", "cve_id"}
    case DiscoveredAssets => {"last_observed_at"}
    case _ => if Restored(t) then {"created_at"} else {}
  }

  /** What the bundle carries but does not bring to a row that is there. */
  function UntouchedColumns(t: TableName): set<string> {
    match t
    case CustomRules => {"description", "target_app_id", "version", "action"}
    case DDoSPolicies => {"target_app_id", "burst_multiplier", "header_timeout_ms", "body_timeout_ms", "max_concurrent_conns"}
    case IdentityPolicies => {"app_id", "role", "restricted_path"}
    case _ => {}
  }

  /** What the export does not read. */
  function UnreadColumns(t: TableName): set<string> {
    match t
    case Applications => {"tenant_id", "security_headers"}
    case CustomRules => {"expires_at", "ticket_ref", "cve_id"}
    case _ => {}
  }

  predicate Accounted(t: TableName) {
    && InsertedColumns(t) + StampedColumns(t) == SchemaColumns(t) - LostColumns(t)
    && UpdatedColumns(t) + StampedColumns(t) == SchemaColumns(t) - LostColumns(t) - UntouchedColumns(t)
    && ScannedColumns(t) == if Restored(t) then SchemaColumns(t) - UnreadColumns(t) else {"created_at"}
  }

  /** Every column of the schema is accounted for, in each table. */
  lemma ColumnsAccountedFor(t: TableName)
    ensures InsertedColumns(t) + StampedColumns(t) == SchemaColumns(t) - LostColumns(t)
    ensures UpdatedColumns(t) + StampedColumns(t) == SchemaColumns(t) - LostColumns(t) - UntouchedColumns(t)
    ensures ScannedColumns(t) == if Restored(t) then SchemaColumns(t) - UnreadColumns(t) else {"created_at"}
  {
    match t
    case Applications => ApplicationColumns();
    case CustomRules => CustomRuleColumns();
    case DDoSPolicies => DDoSColumns();
    case _ => OtherColumns(t);
  }

  lemma ApplicationColumns()
    ensures Accounted(Applications)
  {
  }

  lemma CustomRuleColumns()
    ensures Accounted(CustomRules)
  {
  }

  lemma DDoSColumns()
    ensures Accounted(DDoSPolicies)
  {
  }

  lemma OtherColumns(t: TableName)
    requires !t.Applications? && !t.CustomRules? && !t.DDoSPolicies?
    ensures Accounted(t)
  {
  }

  lemma RestoredTables(t: TableName)
    ensures Restored(t) <==> t in {Applications, CustomRules, DDoSPolicies, ProtocolPolicies, CredentialAbusePolicies, Tenants, ClusterNodes,
                                   DiscoveredAssets, IdentityPolicies, ProtocolShields}
  {
  }

  // ---------------------------------------------------------------- when a restore succeeds

  /** Record `j` inserts: its place is not in the database and no earlier record names it. */
  predicate Inserts(d: Database, entries: seq<Entry>, j: nat)
    requires j < |entries|
  {
    entries[j].place !in d && forall i | 0 <= i < j :: entries[i].place != entries[j].place
  }

  /** No inserted record brings an id that the database or an earlier insert gives to another key of
      its table. */
  ghost predicate NoClash(d: Database, entries: seq<Entry>) {
    && (forall j | 0 <= j < |entries| && Inserts(d, entries, j) :: !IdTaken(d, entries[j]))
    && (forall i, j | 0 <= i < j < |entries| && Inserts(d, entries, i) && Inserts(d, entries, j)
                      && entries[i].place.table == entries[j].place.table :: entries[i].row.id != entries[j].row.id)
  }

  lemma InsertsOfFront(d: Database, front: seq<Entry>, last: Entry)
    ensures forall j | 0 <= j < |front| :: Inserts(d, front + [last], j) == Inserts(d, front, j)
  {
    var entries := front + [last];
    forall j | 0 <= j < |front| ensures Inserts(d, entries, j) == Inserts(d, front, j) {
      assert forall i | 0 <= i <= j :: entries[i] == front[i];
    }
  }

  lemma {:induction false} FirstIsInserted(d: Database, entries: seq<Entry>, p: Place)
    requires p !in d && FirstGiven(entries, p).Some?
    ensures exists j | 0 <= j < |entries| :: Inserts(d, entries, j) && entries[j] == FirstGiven(entries, p).value
    decreases |entries|
  {
    var n := |entries| - 1;
    var front := entries[..n];
    GivenTogether(front, p);
    assert entries == front + [entries[n]];
    if FirstGiven(front, p).Some? {
      FirstIsInserted(d, front, p);
      InsertsOfFront(d, front, entries[n]);
      var j :| 0 <= j < |front| && Inserts(d, front, j) && front[j] == FirstGiven(front, p).value;
      assert Inserts(d, entries, j) && entries[j] == front[j];
    } else {
      assert forall i | 0 <= i < n :: front[i] in front;
      assert Inserts(d, entries, n);
    }
  }

  lemma {:induction false} InsertedIsFirst(d: Database, entries: seq<Entry>, j: nat)
    requires j < |entries| && Inserts(d, entries, j)
    ensures FirstGiven(entries, entries[j].place) == Some(entries[j])
    decreases |entries|
  {
    var n := |entries| - 1;
    var front := entries[..n];
    assert entries == front + [entries[n]];
    if j < n {
      InsertsOfFront(d, front, entries[n]);
      InsertedIsFirst(d, front, j);
    } else {
      GivenTogether(front, entries[n].place);
      forall e | e in front ensures e.place != entries[n].place {
        var i :| 0 <= i < n && front[i] == e;
        assert entries[i].place != entries[n].place;
      }
    }
  }

  /** The ids in use after a restore are those of the database and of the inserted records. */
  lemma IdsAfter(d: Database, entries: seq<Entry>, s: Schema, e: Entry)
    requires UpsertAll(d, entries, s).Some?
    ensures IdTaken(UpsertAll(d, entries, s).value, e) <==>
            || IdTaken(d, e)
            || exists i | 0 <= i < |entries| :: Inserts(d, entries, i) && entries[i].place.table == e.place.table && entries[i].row.id == e.row.id
  {
    hide UpsertAll, InsertedColumns, UpdatedColumns, StampedColumns, FirstGiven, LastGiven, Inserts;
    RestoreEffect(d, entries, s);
    var d' := UpsertAll(d, entries, s).value;
    forall p | p in d' ensures d'[p].id == if p in d then d[p].id else if FirstGiven(entries, p).Some? then FirstGiven(entries, p).value.row.id else 0 {
      GivenTogether(entries, p);
    }
    if p :| p in d' && p.table == e.place.table && d'[p].id == e.row.id {
      if p !in d {
        GivenTogether(entries, p);
        FirstIsInserted(d, entries, p);
      }
    }
    if p :| p in d && p.table == e.place.table && d[p].id == e.row.id {
      assert p in d' && d'[p].id == e.row.id;
    }
    if i :| 0 <= i < |entries| && Inserts(d, entries, i) && entries[i].place.table == e.place.table && entries[i].row.id == e.row.id {
      InsertedIsFirst(d, entries, i);
      GivenTogether(entries, entries[i].place);
      NotThere(d, entries, i);
      assert d'[entries[i].place].id == e.row.id;
    }
  }

  lemma NotThere(d: Database, entries: seq<Entry>, i: nat)
    requires i < |entries| && Inserts(d, entries, i)
    ensures entries[i].place !in d
  {
  }

  /** A restore of any bundle onto any state succeeds exactly when the schema accepts every record
      and no inserted record brings an id that is taken. */
  lemma {:induction false} RestoreSucceedsIff(d: Database, entries: seq<Entry>, s: Schema)
    ensures UpsertAll(d, entries, s).Some? <==> (forall e | e in entries :: s.accepts(e)) && NoClash(d, entries)
    decreases |entries|
  {
    hide IdTaken, Inserts, LastGiven, FirstGiven, UpdateRow, InsertRow, NoClash, InsertedColumns;
    if entries == [] {
      NothingClashes(d);
    } else {
      var n := |entries| - 1;
      var front, last := entries[..n], entries[n];
      assert entries == front + [last];
      RestoreSucceedsIff(d, front, s);
      assert forall e | e in entries :: e in front || e == last;
      assert last in entries && forall e | e in front :: e in entries;
      NoClashSnoc(d, front, last);
      if UpsertAll(d, front, s).Some? {
        IdsAfter(d, front, s, last);
        InsertsLast(d, front, last, s);
      }
    }
  }

  lemma NothingClashes(d: Database)
    ensures NoClash(d, [])
  {
  }

  ghost predicate Clashes(d: Database, front: seq<Entry>, last: Entry) {
    || IdTaken(d, last)
    || exists i | 0 <= i < |front| :: Inserts(d, front, i) && front[i].place.table == last.place.table && front[i].row.id == last.row.id
  }

  lemma NoClashSnoc(d: Database, front: seq<Entry>, last: Entry)
    ensures NoClash(d, front + [last]) <==>
            NoClash(d, front) && (Inserts(d, front + [last], |front|) ==> !Clashes(d, front, last))
  {
    hide IdTaken, Inserts, InsertedColumns;
    var entries, n := front + [last], |front|;
    InsertsOfFront(d, front, last);
    assert forall i | 0 <= i < n :: entries[i] == front[i] && Inserts(d, entries, i) == Inserts(d, front, i);
    if NoClash(d, entries) {
      assert forall i | 0 <= i < n && Inserts(d, front, i) :: Inserts(d, entries, i);
    }
    if NoClash(d, front) && (Inserts(d, entries, n) ==> !Clashes(d, front, last)) {
      forall i, j | 0 <= i < j <= n && Inserts(d, entries, i) && Inserts(d, entries, j)
                    && entries[i].place.table == entries[j].place.table
        ensures entries[i].row.id != entries[j].row.id
      {
        assert Inserts(d, front, i);
      }
    }
  }

  lemma InsertsLast(d: Database, front: seq<Entry>, last: Entry, s: Schema)
    requires UpsertAll(d, front, s).Some?
    ensures Inserts(d, front + [last], |front|) <==> last.place !in UpsertAll(d, front, s).value
  {
    hide UpdateRow, InsertRow;
    RestoreEffect(d, front, s);
    GivenTogether(front, last.place);
    var entries := front + [last];
    assert forall i | 0 <= i < |front| :: entries[i] == front[i] && front[i] in front;
    if LastGiven(front, last.place).Some? {
      var e := LastGiven(front, last.place).value;
      var i :| 0 <= i < |front| && front[i] == e;
      assert entries[i].place == last.place;
    }
  }

  // ---------------------------------------------------------------- restoring twice

  function Stamp(row: Row, t: TableName, now: int): Row {
    row.(columns := map c | c in row.columns :: if c in StampedColumns(t) then Number(now) else row.columns[c])
  }

  function Restamped(d: Database, entries: seq<Entry>, now: int): Database {
    map p | p in d :: if LastGiven(entries, p).Some? then Stamp(d[p], p.table, now) else d[p]
  }

  /** Restoring a bundle again, at whatever later time, succeeds and changes nothing but the stamped
      columns of the rows it names. */
  lemma RestoreIsIdempotent(d: Database, entries: seq<Entry>, s: Schema, later: int)
    requires UpsertAll(d, entries, s).Some?
    ensures
      var once := UpsertAll(d, entries, s).value;
      UpsertAll(once, entries, s.(now := later)) == Some(Restamped(once, entries, later))
    ensures later == s.now ==> UpsertAll(UpsertAll(d, entries, s).value, entries, s.(now := later)) == UpsertAll(d, entries, s)
  {
    hide UpsertAll, LastGiven, FirstGiven, UpdateRow, InsertRow, Stamp, FinalRow, InsertedColumns;
    var s' := s.(now := later);
    RestoreEffect(d, entries, s);
    var once := UpsertAll(d, entries, s).value;
    forall e | e in entries ensures e.place in once {
      GivenTogether(entries, e.place);
    }
    UpdatesSucceed(once, entries, s');
    RestoreEffect(once, entries, s');
    var twice := UpsertAll(once, entries, s').value;
    forall p ensures p in twice <==> p in once {
    }
    forall p | p in once
      ensures twice[p] == if LastGiven(entries, p).Some? then Stamp(once[p], p.table, later) else once[p]
      ensures later == s.now ==> twice[p] == once[p]
    {
      FinalTwice(d, once, entries, p, s, later);
    }
    assert twice == Restamped(once, entries, later);
    assert later == s.now ==> twice == once;
  }

  lemma FinalTwice(d: Database, once: Database, entries: seq<Entry>, p: Place, s: Schema, later: int)
    requires p in once && (p in d || LastGiven(entries, p).Some?) && once[p] == FinalRow(d, entries, p, s)
    ensures FinalRow(once, entries, p, s.(now := later)) ==
            if LastGiven(entries, p).Some? then Stamp(once[p], p.table, later) else once[p]
    ensures later == s.now ==> FinalRow(once, entries, p, s.(now := later)) == once[p]
  {
    hide FirstGiven, LastGiven, InsertRow, UpdatedColumns, StampedColumns;
    if LastGiven(entries, p).Some? {
      var e := LastGiven(entries, p).value;
      StampedApart(p.table);
      assert UpdateRow(once[p], e, s.(now := later)).columns == Stamp(once[p], p.table, later).columns;
      assert later == s.now ==> Stamp(once[p], p.table, later).columns == once[p].columns;
    }
  }

  /** When every named row is there already, nothing can fail but the schema's other constraints. */
  lemma UpdatesSucceed(d: Database, entries: seq<Entry>, s: Schema)
    requires forall e | e in entries :: e.place in d && s.accepts(e)
    ensures UpsertAll(d, entries, s).Some?
  {
    RestoreSucceedsIff(d, entries, s);
    forall j | 0 <= j < |entries| ensures !Inserts(d, entries, j) {
      assert entries[j] in entries;
    }
  }

  // ---------------------------------------------------------------- restoring an export

  /** The export holds the row: it is of a table that is restored and none of its scanned columns
      is null. */
  predicate Exported(d: Database, p: Place)
    requires p in d
  {
    Restored(p.table) && forall c | c in ScannedColumns(p.table) :: c in d[p].columns && d[p].columns[c] != Null
  }

  predicate IsRecordOf(e: Entry, row: Row) {
    e.row.id == row.id && forall c | c in InsertedColumns(e.place.table) :: c in row.columns && e.row.columns[c] == row.columns[c]
  }

  /** The records of an exported bundle that the restore reads. */
  ghost predicate IsExport(d: Database, entries: seq<Entry>) {
    && (forall e | e in entries :: e.place in d && Exported(d, e.place) && IsRecordOf(e, d[e.place]))
    && forall p | p in d && Exported(d, p) :: exists e | e in entries :: e.place == p
  }

  lemma ExportedIffGiven(d: Database, entries: seq<Entry>, p: Place)
    requires IsExport(d, entries)
    ensures LastGiven(entries, p).Some? <==> p in d && Exported(d, p)
    ensures LastGiven(entries, p).Some? ==>
              FirstGiven(entries, p).Some? && IsRecordOf(FirstGiven(entries, p).value, d[p]) && IsRecordOf(LastGiven(entries, p).value, d[p])
  {
    hide Exported, IsRecordOf;
    GivenTogether(entries, p);
  }

  /** A backup restored onto the state it was taken from succeeds and changes nothing but the stamped
      columns of the exported rows. */
  lemma RestoreOwnExport(d: Database, entries: seq<Entry>, s: Schema)
    requires IsExport(d, entries) && forall e | e in entries :: s.accepts(e)
    ensures UpsertAll(d, entries, s) == Some(map p | p in d :: if Exported(d, p) then Stamp(d[p], p.table, s.now) else d[p])
  {
    hide UpsertAll, LastGiven, FirstGiven, Exported, IsRecordOf, FinalRow, Stamp;
    UpdatesSucceed(d, entries, s);
    RestoreEffect(d, entries, s);
    forall p ensures LastGiven(entries, p).Some? <==> p in d && Exported(d, p) {
      ExportedIffGiven(d, entries, p);
    }
    forall p | p in d
      ensures FinalRow(d, entries, p, s) == if Exported(d, p) then Stamp(d[p], p.table, s.now) else d[p]
    {
      ExportedIffGiven(d, entries, p);
      OwnRow(d, entries, p, s);
    }
    var d' := UpsertAll(d, entries, s).value;
    assert d' == map p | p in d :: if Exported(d, p) then Stamp(d[p], p.table, s.now) else d[p];
  }

  lemma OwnRow(d: Database, entries: seq<Entry>, p: Place, s: Schema)
    requires p in d && (LastGiven(entries, p).Some? ==> IsRecordOf(LastGiven(entries, p).value, d[p]))
    ensures FinalRow(d, entries, p, s) == if LastGiven(entries, p).Some? then Stamp(d[p], p.table, s.now) else d[p]
  {
    hide LastGiven, FirstGiven, UpdatedColumns, InsertOnlyColumns, StampedColumns;
    if LastGiven(entries, p).Some? {
      var e := LastGiven(entries, p).value;
      StampedApart(p.table);
      assert UpdateRow(d[p], e, s).columns == Stamp(d[p], p.table, s.now).columns;
    }
  }

  // ---------------------------------------------------------------- restoring onto an empty system

  /** What an insert leaves in a column of a row that was exported. */
  function Returned(t: TableName, row: Row, c: string, s: Schema): Value
    requires c in InsertedColumns(t) ==> c in row.columns
    requires c in s.defaults(t)
  {
    if c in InsertedColumns(t) then row.columns[c]
    else if c in StampedColumns(t) then Number(s.now)
    else s.defaults(t)[c]
  }

  /** The columns of the row are those of its table, and the restore knows no others. */
  ghost predicate FitsSchema(d: Database, s: Schema) {
    forall p | p in d :: d[p].columns.Keys == s.defaults(p.table).Keys && InsertedColumns(p.table) <= d[p].columns.Keys
  }

  /** Onto an empty system the restore brings back exactly the exported rows, and each of their
      columns as it was if the bundle carries it and as a new row has it otherwise. */
  lemma RestoreOntoEmpty(d: Database, entries: seq<Entry>, s: Schema)
    requires UniqueIds(d) && FitsSchema(d, s) && IsExport(d, entries) && forall e | e in entries :: s.accepts(e)
    ensures UpsertAll(map[], entries, s).Some?
    ensures
      var d' := UpsertAll(map[], entries, s).value;
      && (forall p :: p in d' <==> p in d && Exported(d, p))
      && (forall p | p in d' :: d'[p].id == d[p].id && d'[p].columns.Keys == d[p].columns.Keys
                                && forall c | c in d[p].columns :: d'[p].columns[c] == Returned(p.table, d[p], c, s))
  {
    hide UpsertAll, LastGiven, FirstGiven, Exported, IsRecordOf, FinalRow, Returned;
    NoClashOnEmpty(d, entries);
    RestoreSucceedsIff(map[], entries, s);
    RestoreEffect(map[], entries, s);
    var d' := UpsertAll(map[], entries, s).value;
    forall p ensures p in d' <==> p in d && Exported(d, p) {
      ExportedIffGiven(d, entries, p);
    }
    forall p | p in d'
      ensures d'[p].id == d[p].id && d'[p].columns.Keys == d[p].columns.Keys
              && forall c | c in d[p].columns :: d'[p].columns[c] == Returned(p.table, d[p], c, s)
    {
      ExportedIffGiven(d, entries, p);
      NewRow(d, entries, p, s);
    }
  }

  lemma NoClashOnEmpty(d: Database, entries: seq<Entry>)
    requires UniqueIds(d) && IsExport(d, entries)
    ensures NoClash(map[], entries)
  {
    hide Exported;
    var none: Database := map[];
    forall i, j | 0 <= i < j < |entries| && Inserts(none, entries, i) && Inserts(none, entries, j)
                  && entries[i].place.table == entries[j].place.table
      ensures entries[i].row.id != entries[j].row.id
    {
      assert entries[i] in entries && entries[j] in entries;
      assert entries[i].place != entries[j].place;
    }
  }

  lemma NewRow(d: Database, entries: seq<Entry>, p: Place, s: Schema)
    requires p in d && FitsSchema(d, s)
    requires LastGiven(entries, p).Some? && FirstGiven(entries, p).Some?
    requires IsRecordOf(FirstGiven(entries, p).value, d[p]) && IsRecordOf(LastGiven(entries, p).value, d[p])
    ensures
      var row := FinalRow(map[], entries, p, s);
      && row.id == d[p].id && row.columns.Keys == d[p].columns.Keys
      && forall c | c in d[p].columns :: row.columns[c] == Returned(p.table, d[p], c, s)
  {
    hide LastGiven, FirstGiven, UpdatedColumns, InsertOnlyColumns, StampedColumns;
    var first, last := FirstGiven(entries, p).value, LastGiven(entries, p).value;
    var none: Database := map[];
    assert FinalRow(none, entries, p, s) == UpdateRow(InsertRow(first, s), last, s);
    assert UpdatedColumns(p.table) <= InsertedColumns(p.table);
    StampedApart(p.table);
  }

  /** The row was exported, and every column the bundle does not carry held what a new row has. */
  predicate ComesBack(d: Database, p: Place, s: Schema)
    requires p in d && d[p].columns.Keys == s.defaults(p.table).Keys
  {
    Exported(d, p) && forall c | c in d[p].columns :: d[p].columns[c] == Returned(p.table, d[p], c, s)
  }

  /** So the restored database is the old one exactly when every row comes back. */
  lemma RestoresEverythingIff(d: Database, entries: seq<Entry>, s: Schema)
    requires UniqueIds(d) && FitsSchema(d, s) && IsExport(d, entries) && forall e | e in entries :: s.accepts(e)
    ensures UpsertAll(map[], entries, s) == Some(d) <==> forall p | p in d :: ComesBack(d, p, s)
  {
    hide UpsertAll, Exported, Returned, UniqueIds, IsExport, InsertedColumns, ComesBack;
    RestoreOntoEmpty(d, entries, s);
    var d' := UpsertAll(map[], entries, s).value;
    forall p | p in d ensures ComesBack(d, p, s) <==> p in d' && d'[p] == d[p] {
      RowComesBackIff(d, d', p, s);
    }
    if forall p | p in d :: ComesBack(d, p, s) {
      assert d' == d;
    }
  }

  lemma RowComesBackIff(d: Database, d': Database, p: Place, s: Schema)
    requires p in d && FitsSchema(d, s)
    requires p in d' <==> Exported(d, p)
    requires p in d' ==> d'[p].id == d[p].id && d'[p].columns.Keys == d[p].columns.Keys
                         && forall c | c in d[p].columns :: d'[p].columns[c] == Returned(p.table, d[p], c, s)
    ensures ComesBack(d, p, s) <==> p in d' && d'[p] == d[p]
  {
    hide Exported, Returned, InsertedColumns;
    if ComesBack(d, p, s) {
      assert d'[p].columns == d[p].columns;
    }
  }

  // ---------------------------------------------------------------- an expired virtual patch

  function ValueOf(row: Row, column: string): Value {
    if column in row.columns then row.columns[column] else Null
  }

  /** The row of a custom rule as the compiler of the policy reads it. */
  function AsCustomRow(row: Row): Option<MonitorRewrite.CustomRow> {
    match (ValueOf(row, "seclang_code"), ValueOf(row, "status"), ValueOf(row, "is_enabled"), ValueOf(row, "expires_at"))
    case (Text(code), Text(status), Flag(enabled), Null) => Some(MonitorRewrite.CustomRow(code, status, enabled, None))
    case (Text(code), Text(status), Flag(enabled), Number(at)) => Some(MonitorRewrite.CustomRow(code, status, enabled, Some(at)))
    case _ => None
  }

  lemma ExpiryIsNotWritten()
    ensures "expires_at" !in InsertedColumns(CustomRules)
    ensures {"seclang_code", "status", "is_enabled"} <= InsertedColumns(CustomRules)
  {
  }

  /** The expiry of a custom rule is neither exported nor written: a virtual patch comes back without
      one, and an enabled patch that had expired is in force again at every later time. */
  lemma ExpiredPatchReturns(d: Database, entries: seq<Entry>, s: Schema, p: Place, was: MonitorRewrite.CustomRow, now: int)
    requires UniqueIds(d) && FitsSchema(d, s) && IsExport(d, entries) && forall e | e in entries :: s.accepts(e)
    requires p in d && p.table == CustomRules && Exported(d, p) && AsCustomRow(d[p]) == Some(was)
    requires "expires_at" in d[p].columns && s.defaults(CustomRules)["expires_at"] == Null
    ensures
      var after := UpsertAll(map[], entries, s);
      after.Some? && p in after.value && AsCustomRow(after.value[p]) == Some(was.(expires := None))
    ensures MonitorRewrite.InForce(was.(expires := None), now) <==> was.enabled && was.status in {"ENFORCE", "MONITOR"}
    ensures was.expires.Some? && was.expires.value <= now ==> !MonitorRewrite.InForce(was, now)
  {
    hide UpsertAll, Exported, InsertedColumns;
    RestoreOntoEmpty(d, entries, s);
    ExpiryIsNotWritten();
  }
}
