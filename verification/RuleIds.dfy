/** Whether two generated rules can share an id. */
module RuleIds {
  import opened Strings
  import opened PolicyCompiler
  import opened PolicyMeaning

  /** No two rules of the list carry the same id; chain tails and load-time removals carry none. */
  ghost predicate DistinctIds(ds: seq<Directive>) {
    forall i, j | 0 <= i < j < |ds| && ds[i].SecRule? && ds[j].SecRule? :: ds[i].id != ds[j].id
  }

  /** All rule ids lie in `[low, high)`. */
  ghost predicate IdsWithin(ds: seq<Directive>, low: nat, high: nat) {
    forall i | 0 <= i < |ds| && ds[i].SecRule? :: low <= ds[i].id < high
  }

  /** A row that does not advance the counter emits no rule, and no row emits two. */
  lemma EmitOneRule(row: Row, id: nat)
    ensures DistinctIds(Emit(row, id)) && IdsWithin(Emit(row, id), id, NextId(row, id))
  {
    hide TrimSpace, ToUpper, TrimPrefix, RemovalOf;
  }

  lemma DistinctConcat(a: seq<Directive>, b: seq<Directive>, low: nat, mid: nat, high: nat)
    requires low <= mid <= high
    requires DistinctIds(a) && IdsWithin(a, low, mid)
    requires DistinctIds(b) && IdsWithin(b, mid, high)
    ensures DistinctIds(a + b) && IdsWithin(a + b, low, high)
  {
    var ds := a + b;
    forall i | 0 <= i < |ds| && ds[i].SecRule? ensures low <= ds[i].id < high && (i < |a| <==> ds[i].id < mid) {
      if i < |a| {
        assert ds[i] == a[i];
      } else {
        assert ds[i] == b[i - |a|];
      }
    }
    forall i, j | 0 <= i < j < |ds| && ds[i].SecRule? && ds[j].SecRule? ensures ds[i].id != ds[j].id {
      if j < |a| {
        assert ds[i] == a[i] && ds[j] == a[j];
      } else if i >= |a| {
        assert ds[i] == b[i - |a|] && ds[j] == b[j - |a|];
      }
    }
  }

  lemma {:induction false} FamilyIds(rows: seq<Row>, id: nat)
    ensures DistinctIds(CompileRows(rows, id)) && IdsWithin(CompileRows(rows, id), id, id + Advanced(rows))
    decreases |rows|
  {
    hide Emit, Advances, DistinctIds, IdsWithin;
    if rows == [] {
      NoIds(id);
    } else {
      var next := NextId(rows[0], id);
      EmitOneRule(rows[0], id);
      FamilyIds(rows[1..], next);
      DistinctConcat(Emit(rows[0], id), CompileRows(rows[1..], next), id, next, id + Advanced(rows));
    }
  }

  lemma NoIds(id: nat)
    ensures DistinctIds([]) && IdsWithin([], id, id)
  {
  }

  const ROOM := 10000

  lemma FamilyWithin(rows: seq<Row>, id: nat, high: nat)
    requires Advanced(rows) <= ROOM && id + ROOM <= high
    ensures DistinctIds(CompileRows(rows, id)) && IdsWithin(CompileRows(rows, id), id, high)
  {
    hide CompileRows, Advanced, DistinctIds;
    FamilyIds(rows, id);
  }

  /** The families in ascending order of their first id. */
  function InIdOrder(t: Tables, now: int): seq<Directive> {
    CompileRows(IPs(t.blocked), FIRST_IP_ID)
    + (ExceptionDirectives(t, now)
    + (CompileRows(Geos(t.geo), FIRST_GEO_ID)
    + (CompileRows(Endpoints(BlockedEndpoints(t.endpoints)), FIRST_ENDPOINT_ID)
    + (CompileRows(Bots(EnabledBots(t.bots)), FIRST_BOT_ID)
    + CompileRows(Indicators(BlockingIndicators(t.indicators, now)), FIRST_INDICATOR_ID)))))
  }

  /** No family advances its counter more than ten thousand times. */
  ghost predicate Roomy(t: Tables, now: int) {
    && Advanced(IPs(t.blocked)) <= ROOM
    && Advanced(Exempts(ActiveExceptions(t.exceptions, now))) <= ROOM
    && Advanced(Geos(t.geo)) <= ROOM
    && Advanced(Endpoints(BlockedEndpoints(t.endpoints))) <= ROOM
    && Advanced(Bots(EnabledBots(t.bots))) <= ROOM
    && Advanced(Indicators(BlockingIndicators(t.indicators, now))) <= ROOM
  }

  /** Then no two generated rules, of whatever families, share an id. */
  lemma GeneratedIdsAreDistinct(t: Tables, now: int)
    requires Roomy(t, now)
    ensures DistinctIds(InIdOrder(t, now))
    ensures multiset(InIdOrder(t, now)) == multiset(Perimeter(t, now) + ExceptionDirectives(t, now))
  {
    hide CompileRows, DistinctIds, IdsWithin, Advanced;
    var ips, geos := CompileRows(IPs(t.blocked), FIRST_IP_ID), CompileRows(Geos(t.geo), FIRST_GEO_ID);
    var excs := ExceptionDirectives(t, now);
    var ends := CompileRows(Endpoints(BlockedEndpoints(t.endpoints)), FIRST_ENDPOINT_ID);
    var bots := CompileRows(Bots(EnabledBots(t.bots)), FIRST_BOT_ID);
    var inds := CompileRows(Indicators(BlockingIndicators(t.indicators, now)), FIRST_INDICATOR_ID);
    FamilyWithin(IPs(t.blocked), FIRST_IP_ID, FIRST_EXCEPTION_ID);
    FamilyWithin(Exempts(ActiveExceptions(t.exceptions, now)), FIRST_EXCEPTION_ID, FIRST_GEO_ID);
    FamilyWithin(Geos(t.geo), FIRST_GEO_ID, FIRST_ENDPOINT_ID);
    FamilyWithin(Endpoints(BlockedEndpoints(t.endpoints)), FIRST_ENDPOINT_ID, FIRST_BOT_ID);
    FamilyWithin(Bots(EnabledBots(t.bots)), FIRST_BOT_ID, FIRST_INDICATOR_ID);
    FamilyWithin(Indicators(BlockingIndicators(t.indicators, now)), FIRST_INDICATOR_ID, FIRST_INDICATOR_ID + ROOM);
    var high := FIRST_INDICATOR_ID + ROOM;
    DistinctConcat(bots, inds, FIRST_BOT_ID, FIRST_INDICATOR_ID, high);
    DistinctConcat(ends, bots + inds, FIRST_ENDPOINT_ID, FIRST_BOT_ID, high);
    DistinctConcat(geos, ends + (bots + inds), FIRST_GEO_ID, FIRST_ENDPOINT_ID, high);
    DistinctConcat(excs, geos + (ends + (bots + inds)), FIRST_EXCEPTION_ID, FIRST_GEO_ID, high);
    DistinctConcat(ips, excs + (geos + (ends + (bots + inds))), FIRST_IP_ID, FIRST_EXCEPTION_ID, high);
  }

  // ---------------------------------------------------------------- when ids collide

  /** Whether the row compiles to a rule, not to a load-time removal or to nothing. */
  predicate Emits(row: Row) {
    match row
    case BlockedIP(address) => TrimSpace(address) != ""
    case Geo(g) => ToUpper(g.action) == "BLOCK"
    case Endpoint(e) => TrimSpace(e.path) != ""
    case Bot(b) => TrimSpace(b.uaRegex) != "" && Clean(b.action) in {"BLOCK", "CHALLENGE", "ALLOW"}
    case Indicator(i) => TrimSpace(i.indicator) != "" && Clean(i.kind) in {"IP", "CIDR", "DOMAIN"}
    case Exempt(e) => Clean(e.scope) != "GLOBAL"
  }

  ghost predicate Carries(ds: seq<Directive>, id: nat) {
    exists d | d in ds :: d.SecRule? && d.id == id
  }

  ghost predicate EmitsAt(rows: seq<Row>, i: nat, first: nat, id: nat) {
    i < |rows| && Emits(rows[i]) && IdAt(rows, i, first) == id
  }

  lemma EmitCarries(row: Row, id: nat, k: nat)
    ensures Carries(Emit(row, id), k) <==> Emits(row) && k == id
  {
    hide TrimSpace, ToUpper, TrimPrefix, RemovalOf;
    var ds := Emit(row, id);
    if Emits(row) {
      assert ds[0] in ds && ds[0].SecRule? && ds[0].id == id;
    }
  }

  /** The id is that of some emitting row. */
  ghost predicate Uses(rows: seq<Row>, first: nat, id: nat) {
    exists i: nat :: EmitsAt(rows, i, first, id)
  }

  /** The ids of a family are those of its emitting rows. */
  lemma {:induction false} FamilyCarries(rows: seq<Row>, first: nat, id: nat)
    ensures Carries(CompileRows(rows, first), id) <==> Uses(rows, first, id)
    decreases |rows|
  {
    hide Emit, Emits, Advances, Carries, Uses;
    UsesCons(rows, first, id);
    if rows == [] {
      NothingCarries(id);
    } else {
      var next := NextId(rows[0], first);
      EmitCarries(rows[0], first, id);
      FamilyCarries(rows[1..], next, id);
      CarriesConcat(Emit(rows[0], first), CompileRows(rows[1..], next), id);
    }
  }

  lemma NothingCarries(id: nat)
    ensures !Carries([], id)
  {
  }

  lemma CarriesConcat(a: seq<Directive>, b: seq<Directive>, id: nat)
    ensures Carries(a + b, id) <==> Carries(a, id) || Carries(b, id)
  {
    assert forall d :: d in a + b <==> d in a || d in b;
  }

  lemma EmitsAtShift(rows: seq<Row>, i: nat, first: nat, id: nat)
    requires rows != []
    ensures EmitsAt(rows, i + 1, first, id) == EmitsAt(rows[1..], i, NextId(rows[0], first), id)
  {
    hide Emits, Advances, IdAt;
    if i < |rows| - 1 {
      IdAtCons(rows, i, first);
    }
  }

  lemma UsesCons(rows: seq<Row>, first: nat, id: nat)
    ensures Uses(rows, first, id) <==>
            rows != [] && ((Emits(rows[0]) && id == first) || Uses(rows[1..], NextId(rows[0], first), id))
  {
    hide Emits, Advances;
    if rows != [] {
      assert EmitsAt(rows, 0, first, id) <==> Emits(rows[0]) && id == first;
      if i: nat :| EmitsAt(rows, i, first, id) {
        if i > 0 {
          EmitsAtShift(rows, i - 1, first, id);
        }
      }
      if i: nat :| EmitsAt(rows[1..], i, NextId(rows[0], first), id) {
        EmitsAtShift(rows, i, first, id);
      }
    }
  }

  /** The rows of a family and its first id. */
  datatype Family = Family(rows: seq<Row>, first: nat)

  function Families(t: Tables, now: int): seq<Family> {
    [Family(IPs(t.blocked), FIRST_IP_ID),
     Family(Exempts(ActiveExceptions(t.exceptions, now)), FIRST_EXCEPTION_ID),
     Family(Geos(t.geo), FIRST_GEO_ID),
     Family(Endpoints(BlockedEndpoints(t.endpoints)), FIRST_ENDPOINT_ID),
     Family(Bots(EnabledBots(t.bots)), FIRST_BOT_ID),
     Family(Indicators(BlockingIndicators(t.indicators, now)), FIRST_INDICATOR_ID)]
  }

  /** An emitting row of one family has the id of an emitting row of the other. */
  ghost predicate Collide(f: Family, g: Family) {
    exists id: nat :: Uses(f.rows, f.first, id) && Uses(g.rows, g.first, id)
  }

  function CompileFamilies(fs: seq<Family>): seq<Directive> {
    if fs == [] then [] else CompileRows(fs[0].rows, fs[0].first) + CompileFamilies(fs[1..])
  }

  lemma DistinctConcatIff(a: seq<Directive>, b: seq<Directive>)
    ensures DistinctIds(a + b) <==> DistinctIds(a) && DistinctIds(b) && forall id: nat :: !(Carries(a, id) && Carries(b, id))
  {
    if DistinctIds(a + b) {
      DistinctParts(a, b);
    }
    if id: nat :| Carries(a, id) && Carries(b, id) {
      SharedId(a, b, id);
    }
    if DistinctIds(a) && DistinctIds(b) && forall id: nat :: !(Carries(a, id) && Carries(b, id)) {
      DistinctWhole(a, b);
    }
  }

  lemma SharedId(a: seq<Directive>, b: seq<Directive>, id: nat)
    requires Carries(a, id) && Carries(b, id)
    ensures !DistinctIds(a + b)
  {
    var i :| 0 <= i < |a| && a[i].SecRule? && a[i].id == id;
    var j :| 0 <= j < |b| && b[j].SecRule? && b[j].id == id;
    assert (a + b)[i] == a[i] && (a + b)[|a| + j] == b[j];
  }

  lemma DistinctWhole(a: seq<Directive>, b: seq<Directive>)
    requires DistinctIds(a) && DistinctIds(b) && forall id: nat :: !(Carries(a, id) && Carries(b, id))
    ensures DistinctIds(a + b)
  {
    var ds := a + b;
    forall i, j | 0 <= i < j < |ds| && ds[i].SecRule? && ds[j].SecRule? ensures ds[i].id != ds[j].id {
      if j < |a| {
        assert ds[i] == a[i] && ds[j] == a[j];
      } else if i >= |a| {
        assert ds[i] == b[i - |a|] && ds[j] == b[j - |a|];
      } else {
        assert a[i] in a && b[j - |a|] in b;
        assert Carries(a, ds[i].id) && Carries(b, ds[j].id);
      }
    }
  }

  lemma DistinctParts(a: seq<Directive>, b: seq<Directive>)
    requires DistinctIds(a + b)
    ensures DistinctIds(a) && DistinctIds(b)
  {
    var ds := a + b;
    assert forall i | 0 <= i < |a| :: ds[i] == a[i];
    forall i, j | 0 <= i < j < |b| && b[i].SecRule? && b[j].SecRule? ensures b[i].id != b[j].id {
      assert ds[|a| + i] == b[i] && ds[|a| + j] == b[j];
    }
  }

  lemma {:induction false} FamiliesCarry(fs: seq<Family>, id: nat)
    ensures Carries(CompileFamilies(fs), id) <==> exists k | 0 <= k < |fs| :: Carries(CompileRows(fs[k].rows, fs[k].first), id)
    decreases |fs|
  {
    hide Carries, CompileRows;
    if fs == [] {
      NothingCarries(id);
    } else {
      var rest := fs[1..];
      FamiliesCarry(rest, id);
      CarriesConcat(CompileRows(fs[0].rows, fs[0].first), CompileFamilies(rest), id);
      if k :| 0 <= k < |fs| && Carries(CompileRows(fs[k].rows, fs[k].first), id) {
        assert k > 0 ==> rest[k - 1] == fs[k];
      }
      if k :| 0 <= k < |rest| && Carries(CompileRows(rest[k].rows, rest[k].first), id) {
        assert fs[k + 1] == rest[k];
      }
    }
  }

  ghost predicate CollideAt(fs: seq<Family>, k: nat, l: nat) {
    k < l < |fs| && Collide(fs[k], fs[l])
  }

  lemma CollideIff(f: Family, g: Family)
    ensures Collide(f, g) <==> exists id: nat :: Carries(CompileRows(f.rows, f.first), id) && Carries(CompileRows(g.rows, g.first), id)
  {
    hide Uses, Carries, CompileRows;
    if id: nat :| Uses(f.rows, f.first, id) && Uses(g.rows, g.first, id) {
      FamilyCarries(f.rows, f.first, id);
      FamilyCarries(g.rows, g.first, id);
    }
    if id: nat :| Carries(CompileRows(f.rows, f.first), id) && Carries(CompileRows(g.rows, g.first), id) {
      FamilyCarries(f.rows, f.first, id);
      FamilyCarries(g.rows, g.first, id);
    }
  }

  lemma {:induction false} DistinctFamiliesIff(fs: seq<Family>)
    ensures DistinctIds(CompileFamilies(fs)) <==> forall k: nat, l: nat :: !CollideAt(fs, k, l)
    decreases |fs|
  {
    hide Carries, CompileRows, DistinctIds, Collide;
    if fs == [] {
      NoIds(0);
    } else {
      var head, rest := CompileRows(fs[0].rows, fs[0].first), fs[1..];
      FamilyIds(fs[0].rows, fs[0].first);
      DistinctFamiliesIff(rest);
      DistinctConcatIff(head, CompileFamilies(rest));
      forall k: nat, l: nat ensures CollideAt(fs, k + 1, l + 1) == CollideAt(rest, k, l) {
      }
      HeadCollides(fs);
      if k: nat, l: nat :| CollideAt(fs, k, l) {
        assert k > 0 ==> CollideAt(rest, k - 1, l - 1);
      }
      if k: nat, l: nat :| CollideAt(rest, k, l) {
        assert CollideAt(fs, k + 1, l + 1);
      }
    }
  }

  lemma HeadCollides(fs: seq<Family>)
    requires fs != []
    ensures (exists l: nat :: CollideAt(fs, 0, l)) <==>
            exists id: nat :: Carries(CompileRows(fs[0].rows, fs[0].first), id) && Carries(CompileFamilies(fs[1..]), id)
  {
    hide Carries, CompileRows, CompileFamilies, Collide;
    var head, rest := CompileRows(fs[0].rows, fs[0].first), fs[1..];
    if l: nat :| CollideAt(fs, 0, l) {
      CollideIff(fs[0], fs[l]);
      var id: nat :| Carries(head, id) && Carries(CompileRows(fs[l].rows, fs[l].first), id);
      assert fs[l] == rest[l - 1];
      FamiliesCarry(rest, id);
    }
    if id: nat :| Carries(head, id) && Carries(CompileFamilies(rest), id) {
      FamiliesCarry(rest, id);
      var k :| 0 <= k < |rest| && Carries(CompileRows(rest[k].rows, rest[k].first), id);
      CollideIff(fs[0], fs[k + 1]);
      assert CollideAt(fs, 0, k + 1);
    }
  }

  /** The exact condition, for tables of any content: the generated ids are distinct if and only if no
      emitting row of a family reaches the id of an emitting row of a later one. */
  lemma DistinctIff(t: Tables, now: int)
    ensures DistinctIds(InIdOrder(t, now)) <==> forall k: nat, l: nat :: !CollideAt(Families(t, now), k, l)
  {
    hide CompileRows, DistinctIds, CollideAt;
    var fs := Families(t, now);
    DistinctFamiliesIff(fs);
    assert CompileFamilies(fs) == InIdOrder(t, now) by {
      SixFamilies(fs);
    }
  }

  lemma SixFamilies(fs: seq<Family>)
    requires |fs| == 6
    ensures CompileFamilies(fs) ==
            CompileRows(fs[0].rows, fs[0].first) + (CompileRows(fs[1].rows, fs[1].first) + (CompileRows(fs[2].rows, fs[2].first)
            + (CompileRows(fs[3].rows, fs[3].first) + (CompileRows(fs[4].rows, fs[4].first) + CompileRows(fs[5].rows, fs[5].first)))))
  {
    hide CompileRows;
    assert CompileFamilies(fs[5..]) == CompileRows(fs[5].rows, fs[5].first) by {
      assert fs[5..][1..] == [];
      assert CompileFamilies([]) == [];
    }
    FamiliesFrom(fs, 4);
    FamiliesFrom(fs, 3);
    FamiliesFrom(fs, 2);
    FamiliesFrom(fs, 1);
    FamiliesFrom(fs, 0);
    assert fs[0..] == fs;
  }

  lemma FamiliesFrom(fs: seq<Family>, k: nat)
    requires k < |fs|
    ensures CompileFamilies(fs[k..]) == CompileRows(fs[k].rows, fs[k].first) + CompileFamilies(fs[k + 1..])
  {
    assert fs[k..][1..] == fs[k + 1..];
  }

  /** Address, endpoint and indicator rows use every id they advance over. */
  lemma {:induction false} GaplessFamily(rows: seq<Row>, first: nat, id: nat)
    requires forall r | r in rows :: r.BlockedIP? || r.Endpoint? || r.Indicator?
    ensures Uses(rows, first, id) <==> first <= id < first + Advanced(rows)
    decreases |rows|
  {
    hide TrimSpace, ToUpper, Uses;
    UsesCons(rows, first, id);
    if rows == [] {
    } else {
      assert rows[0] in rows && Emits(rows[0]) == Advances(rows[0]);
      GaplessFamily(rows[1..], NextId(rows[0], first), id);
    }
  }

  lemma {:induction false} ExemptsAdvance(rows: seq<Row>)
    requires forall r | r in rows :: r.Exempt?
    ensures Advanced(rows) == |rows|
    decreases |rows|
  {
    hide TrimSpace, ToUpper, Clean;
    if rows == [] {
    } else {
      assert rows[0] in rows;
      ExemptsAdvance(rows[1..]);
    }
  }

  /** So the blocked addresses run into the exceptions exactly when there are more of them than ten
      thousand and the place of some exception that is not GLOBAL. */
  lemma AddressesReachExceptionsIff(t: Tables, now: int)
    ensures
      var excs := ActiveExceptions(t.exceptions, now);
      CollideAt(Families(t, now), 0, 1) <==>
      exists j | 0 <= j < |excs| :: Clean(excs[j].scope) != "GLOBAL" && ROOM + j < Advanced(IPs(t.blocked))
  {
    hide Clean, Advanced, Uses, CompileRows;
    var excs := ActiveExceptions(t.exceptions, now);
    var f, g := Families(t, now)[0], Families(t, now)[1];
    GaplessAddresses(t.blocked);
    if id: nat :| Uses(f.rows, f.first, id) && Uses(g.rows, g.first, id) {
      ExemptsUse(excs, id);
    }
    if j :| 0 <= j < |excs| && Clean(excs[j].scope) != "GLOBAL" && ROOM + j < Advanced(f.rows) {
      ExemptsUse(excs, FIRST_EXCEPTION_ID + j);
      assert Uses(f.rows, f.first, FIRST_EXCEPTION_ID + j);
      assert Collide(f, g);
    }
  }

  lemma GaplessAddresses(addresses: seq<string>)
    ensures forall id: nat :: Uses(IPs(addresses), FIRST_IP_ID, id) <==> FIRST_IP_ID <= id < FIRST_IP_ID + Advanced(IPs(addresses))
  {
    hide Uses, Advanced;
    forall id: nat ensures Uses(IPs(addresses), FIRST_IP_ID, id) <==> FIRST_IP_ID <= id < FIRST_IP_ID + Advanced(IPs(addresses)) {
      GaplessFamily(IPs(addresses), FIRST_IP_ID, id);
    }
  }

  lemma ExemptsUse(excs: seq<ExceptionRow>, id: nat)
    ensures Uses(Exempts(excs), FIRST_EXCEPTION_ID, id) <==>
            exists j | 0 <= j < |excs| :: Clean(excs[j].scope) != "GLOBAL" && id == FIRST_EXCEPTION_ID + j
  {
    hide Clean, Advanced;
    var rows := Exempts(excs);
    forall j: nat ensures EmitsAt(rows, j, FIRST_EXCEPTION_ID, id) <==> j < |excs| && Clean(excs[j].scope) != "GLOBAL" && id == FIRST_EXCEPTION_ID + j {
      if j < |excs| {
        ExemptsAdvance(rows[..j]);
      }
    }
    if j :| 0 <= j < |excs| && Clean(excs[j].scope) != "GLOBAL" && id == FIRST_EXCEPTION_ID + j {
      assert EmitsAt(rows, j, FIRST_EXCEPTION_ID, id);
    }
  }

  /** In particular the room is tight: with more than ten thousand blocked addresses, the first
      exception shares its id with an address rule unless it is GLOBAL. */
  lemma OverflowCollides(t: Tables, now: int)
    requires Advanced(IPs(t.blocked)) > ROOM
    requires ActiveExceptions(t.exceptions, now) != [] && Clean(ActiveExceptions(t.exceptions, now)[0].scope) != "GLOBAL"
    ensures !DistinctIds(InIdOrder(t, now))
  {
    hide Clean, CollideAt, InIdOrder, Families, Advanced;
    AddressesReachExceptionsIff(t, now);
    DistinctIff(t, now);
  }
}
