/** Granular exceptions with expiry: the first-match evaluator (management-plane/rule_lifecycle.go),
    the expiry report and the purge (management-plane/policy_simulator_explainability.go). */
module GranularExceptions {
  import opened Wrappers
  import opened Strings

  /** `source` is a nullable column; a row whose source is NULL fails to scan. */
  datatype Exception = Exception(id: int, appID: string, endpoint: string, verb: string, param: string, ruleID: int,
                                 source: Option<string>, expires: int, active: bool)

  datatype Query = Query(appID: string, path: string, verb: string, params: map<string, string>, ruleID: int)

  // ---------------------------------------------------------------- which exception answers

  /** The WHERE clause of the evaluator's query. */
  predicate Admitted(e: Exception, q: Query, now: int) {
    e.ruleID == q.ruleID && (e.appID == q.appID || e.appID == "*") && e.active && e.expires > now
  }

  /** The conditions checked row by row; the source condition is read but never decides. */
  predicate Applies(e: Exception, q: Query) {
    && e.source.Some?
    && (e.verb == "ANY" || e.verb == q.verb)
    && (e.endpoint == "*" || HasPrefix(q.path, e.endpoint))
    && (e.param != "" ==> e.param in q.params)
  }

  predicate Exempts(e: Exception, q: Query, now: int) {
    Admitted(e, q, now) && Applies(e, q)
  }

  datatype Answer = Enforced | Exempted(matched: int)

  /** The answer names the first exempting row, and there is none only when no row exempts. */
  ghost predicate IsAnswer(rows: seq<Exception>, q: Query, now: int, a: Answer) {
    match a
    case Enforced => forall i | 0 <= i < |rows| :: !Exempts(rows[i], q, now)
    case Exempted(id) => exists i | 0 <= i < |rows| ::
      && Exempts(rows[i], q, now) && rows[i].id == id
      && forall j | 0 <= j < i :: !Exempts(rows[j], q, now)
  }

  /** When a row exempts a request, written out: it is active and unexpired, for the rule, for the
      application or all of them, for the method or any; its pattern is "*" or begins the path; and the
      parameter it names, if any, is in the request. A row without a source condition never counts. */
  lemma ExemptsExactly(e: Exception, q: Query, now: int)
    ensures Exempts(e, q, now) <==>
            && e.active && now < e.expires && e.ruleID == q.ruleID
            && e.appID in {q.appID, "*"} && e.verb in {q.verb, "ANY"}
            && (e.endpoint == "*" || (|e.endpoint| <= |q.path| && forall k | 0 <= k < |e.endpoint| :: q.path[k] == e.endpoint[k]))
            && (e.param == "" || e.param in q.params.Keys)
            && e.source != None
  {
    if |e.endpoint| <= |q.path| {
      var start := q.path[..|e.endpoint|];
      assert start == e.endpoint <==> forall k | 0 <= k < |e.endpoint| :: q.path[k] == e.endpoint[k] by {
        assert forall k | 0 <= k < |e.endpoint| :: start[k] == q.path[k];
      }
    }
  }

  lemma AnswerUnique(rows: seq<Exception>, q: Query, now: int, a: Answer, b: Answer)
    requires IsAnswer(rows, q, now, a) && IsAnswer(rows, q, now, b)
    ensures a == b
  {
    hide Exempts;
    if a.Exempted? && b.Exempted? {
      var i :| 0 <= i < |rows| && Exempts(rows[i], q, now) && rows[i].id == a.matched
               && forall k | 0 <= k < i :: !Exempts(rows[k], q, now);
      var j :| 0 <= j < |rows| && Exempts(rows[j], q, now) && rows[j].id == b.matched
               && forall k | 0 <= k < j :: !Exempts(rows[k], q, now);
      assert !(i < j) && !(j < i);
    }
  }

  // ---------------------------------------------------------------- purge and report

  predicate Expired(e: Exception, now: int) {
    e.expires <= now && e.active
  }

  function PurgeRow(e: Exception, now: int): Exception {
    if Expired(e, now) then e.(active := false) else e
  }

  function Purged(rows: seq<Exception>, now: int): (after: seq<Exception>)
    ensures |after| == |rows| && forall i | 0 <= i < |rows| :: after[i] == PurgeRow(rows[i], now)
  {
    seq(|rows|, i requires 0 <= i < |rows| => PurgeRow(rows[i], now))
  }

  /** A purge switches off exactly the active rows whose time is up, and touches nothing else. */
  lemma PurgeExactly(rows: seq<Exception>, now: int, i: nat)
    requires i < |rows|
    ensures |Purged(rows, now)| == |rows|
    ensures Purged(rows, now)[i] == rows[i].(active := rows[i].active && now < rows[i].expires)
  {
  }

  datatype ReportStatus = EXPIRED | EXPIRING_SOON | ACTIVE

  const DAY := 86400

  /** Whole days, truncated toward zero. */
  function WholeDays(seconds: int): int {
    if seconds >= 0 then seconds / DAY else -(-seconds / DAY)
  }

  /** `now` is read once before the loop, `later` when the row's remaining days are computed. */
  function StatusOf(e: Exception, now: int, later: int): ReportStatus {
    if !e.active || e.expires < now then EXPIRED
    else if WholeDays(e.expires - later) <= 7 then EXPIRING_SOON
    else ACTIVE
  }

  /** The report and the evaluator agree on what is live, except at the single instant at which an
      active exception expires: there the report still shows it and the evaluator no longer admits it. */
  lemma ReportAgreesWithEvaluator(e: Exception, q: Query, now: int, later: int)
    requires e.ruleID == q.ruleID && (e.appID == q.appID || e.appID == "*")
    ensures StatusOf(e, now, later) != EXPIRED <==> Admitted(e, q, now) || (e.active && e.expires == now)
  {
  }

  /** A live row is reported as expiring soon while fewer than eight days remain. */
  lemma SoonIsUnderEightDays(e: Exception, now: int, later: int)
    ensures StatusOf(e, now, later) == EXPIRING_SOON <==> e.active && now <= e.expires && e.expires < later + 8 * 24 * 3600
  {
  }

  datatype Report = Report(total: nat, active: nat, expiringSoon: nat, expired: nat, statuses: seq<ReportStatus>)

  function CountIf(statuses: seq<ReportStatus>, wanted: set<ReportStatus>): nat {
    |set i | 0 <= i < |statuses| && statuses[i] in wanted|
  }

  lemma CountIfSnoc(statuses: seq<ReportStatus>, s: ReportStatus, wanted: set<ReportStatus>)
    ensures CountIf(statuses + [s], wanted) == CountIf(statuses, wanted) + if s in wanted then 1 else 0
  {
    var more := statuses + [s];
    var before := set i | 0 <= i < |statuses| && statuses[i] in wanted;
    var after := set i | 0 <= i < |more| && more[i] in wanted;
    assert after == before + (if s in wanted then {|statuses|} else {});
  }

  // ---------------------------------------------------------------- the table

  class ExceptionTable {
    var rows: seq<Exception>
    var nextID: int

    constructor ()
      ensures rows == [] && nextID == 1
    {
      rows := [];
      nextID := 1;
    }

    /** Inserts an active row; the expiry defaults to a month ahead and the method to ANY. */
    method Create(appID: string, endpoint: string, verb: string, param: string, ruleID: int, source: string,
                  expires: Option<int>, monthAhead: int) returns (id: int)
      modifies this
      ensures id == old(nextID) && nextID == old(nextID) + 1
      ensures rows == old(rows) + [Exception(id, appID, endpoint, if verb == "" then "ANY" else verb, param, ruleID, Some(source),
                                             if expires.None? then monthAhead else expires.value, true)]
    {
      var at := monthAhead;
      if expires.Some? {
        at := expires.value;
      }
      var m := verb;
      if m == "" {
        m := "ANY";
      }
      id := nextID;
      rows := rows + [Exception(id, appID, endpoint, m, param, ruleID, Some(source), at, true)];
      nextID := nextID + 1;
    }

    method Delete(id: int)
      modifies this
      ensures rows == Without(old(rows), id) && nextID == old(nextID)
    {
      var kept := [];
      for i := 0 to |rows|
        invariant kept == Without(rows[..i], id)
        invariant rows == old(rows) && nextID == old(nextID)
      {
        assert rows[..i + 1][..i] == rows[..i];
        if rows[i].id != id {
          kept := kept + [rows[i]];
        }
      }
      assert rows[..|rows|] == rows;
      rows := kept;
    }

    /** Deactivates what has expired, and lists it. */
    method PurgeExpired(now: int) returns (purged: seq<int>)
      modifies this
      ensures rows == Purged(old(rows), now) && nextID == old(nextID)
      ensures forall id :: id in purged <==> exists e | e in old(rows) :: Expired(e, now) && e.id == id
    {
      purged := [];
      for i := 0 to |rows|
        invariant |rows| == |old(rows)| && nextID == old(nextID)
        invariant forall j | 0 <= j < i :: rows[j] == PurgeRow(old(rows)[j], now)
        invariant forall j | i <= j < |rows| :: rows[j] == old(rows)[j]
        invariant forall id :: id in purged <==> exists j | 0 <= j < i :: Expired(old(rows)[j], now) && old(rows)[j].id == id
      {
        if Expired(rows[i], now) {
          purged := purged + [rows[i].id];
          rows := rows[i := rows[i].(active := false)];
        }
      }
      assert rows == Purged(old(rows), now);
    }

    /** The first admitted row whose conditions hold. */
    method Evaluate(q: Query, now: int) returns (isExempted: bool, matchedID: int)
      ensures IsAnswer(rows, q, now, if isExempted then Exempted(matchedID) else Enforced)
      ensures !isExempted ==> matchedID == 0
    {
      isExempted, matchedID := false, 0;
      for i := 0 to |rows|
        invariant !isExempted && matchedID == 0
        invariant forall j | 0 <= j < i :: !Exempts(rows[j], q, now)
      {
        var e := rows[i];
        if !Admitted(e, q, now) {
          continue;
        }
        if e.source.None? {
          continue;
        }
        if e.verb != "ANY" && e.verb != q.verb {
          continue;
        }
        var pathMatched := false;
        if e.endpoint == "*" || e.endpoint == q.path || HasPrefix(q.path, e.endpoint) {
          pathMatched := true;
        }
        if !pathMatched {
          continue;
        }
        if e.param != "" && e.param !in q.params {
          continue;
        }
        isExempted, matchedID := true, e.id;
        return;
      }
    }

    /** Every row is counted once, as expired or as active, and the soon-expiring among the active. */
    method ExpiryReport(now: int, later: seq<int>) returns (r: Report)
      requires |later| == |rows|
      ensures |r.statuses| == |rows| && forall i | 0 <= i < |rows| :: r.statuses[i] == StatusOf(rows[i], now, later[i])
      ensures r.total == |rows| && r.active + r.expired == r.total && r.expiringSoon <= r.active
      ensures r.expired == CountIf(r.statuses, {EXPIRED}) && r.expiringSoon == CountIf(r.statuses, {EXPIRING_SOON})
      ensures r.active == CountIf(r.statuses, {EXPIRING_SOON, ACTIVE})
    {
      var total, active, expiringSoon, expired := 0, 0, 0, 0;
      var statuses: seq<ReportStatus> := [];
      for i := 0 to |rows|
        invariant total == i == |statuses| && active + expired == total && expiringSoon <= active
        invariant forall j | 0 <= j < i :: statuses[j] == StatusOf(rows[j], now, later[j])
        invariant expired == CountIf(statuses, {EXPIRED}) && expiringSoon == CountIf(statuses, {EXPIRING_SOON})
        invariant active == CountIf(statuses, {EXPIRING_SOON, ACTIVE})
      {
        var e := rows[i];
        total := total + 1;
        var daysRem := WholeDays(e.expires - later[i]);
        var status;
        if !e.active || e.expires < now {
          status := EXPIRED;
          expired := expired + 1;
        } else if daysRem <= 7 {
          status := EXPIRING_SOON;
          expiringSoon := expiringSoon + 1;
          active := active + 1;
        } else {
          status := ACTIVE;
          active := active + 1;
        }
        CountIfSnoc(statuses, status, {EXPIRED});
        CountIfSnoc(statuses, status, {EXPIRING_SOON});
        CountIfSnoc(statuses, status, {EXPIRING_SOON, ACTIVE});
        statuses := statuses + [status];
      }
      r := Report(total, active, expiringSoon, expired, statuses);
    }
  }

  function Without(rows: seq<Exception>, id: int): seq<Exception> {
    if rows == [] then []
    else
      var n := |rows| - 1;
      Without(rows[..n], id) + if rows[n].id == id then [] else [rows[n]]
  }

  /** Deleting leaves exactly the rows with other ids. */
  lemma {:induction false} WithoutExactly(rows: seq<Exception>, id: int, e: Exception)
    ensures e in Without(rows, id) <==> e in rows && e.id != id
    decreases |rows|
  {
    if rows == [] {
    } else {
      WithoutExactly(rows[..|rows| - 1], id, e);
    }
  }

  lemma {:induction false} WithoutCount(rows: seq<Exception>, id: int)
    ensures |Without(rows, id)| == |set k | 0 <= k < |rows| && rows[k].id != id|
    decreases |rows|
  {
    if rows == [] {
    } else {
      var n := |rows| - 1;
      WithoutCount(rows[..n], id);
      OneMoreKept(rows, id);
    }
  }

  lemma OneMoreKept(rows: seq<Exception>, id: int)
    requires rows != []
    ensures var n := |rows| - 1;
            |set k | 0 <= k < |rows| && rows[k].id != id| ==
            |set k | 0 <= k < n && rows[..n][k].id != id| + if rows[n].id != id then 1 else 0
  {
    var n := |rows| - 1;
    var few := set k | 0 <= k < n && rows[..n][k].id != id;
    var all := set k | 0 <= k < |rows| && rows[k].id != id;
    assert all == few + if rows[n].id != id then {n} else {};
  }

  /** Each of them behind the ones kept before it. */
  lemma {:induction false} WithoutKeepsOrder(rows: seq<Exception>, id: int, i: nat)
    requires i < |rows| && rows[i].id != id
    ensures var at := |Without(rows[..i], id)|; at < |Without(rows, id)| && Without(rows, id)[at] == rows[i]
    decreases |rows|
  {
    var n := |rows| - 1;
    if i < n {
      WithoutKeepsOrder(rows[..n], id, i);
      assert rows[..n][..i] == rows[..i];
    }
  }

  // ---------------------------------------------------------------- purging preserves meaning

  /** `b` is `a` except that some rows that have expired are switched off. */
  predicate SameButExpired(a: seq<Exception>, b: seq<Exception>, now: int) {
    |a| == |b| && forall i | 0 <= i < |a| :: b[i] == a[i] || (a[i].expires <= now && b[i] == a[i].(active := false))
  }

  /** Such tables answer every query alike from then on. */
  lemma SameAnswers(a: seq<Exception>, b: seq<Exception>, since: int, q: Query, now: int, answer: Answer)
    requires SameButExpired(a, b, since) && since <= now
    ensures IsAnswer(a, q, now, answer) <==> IsAnswer(b, q, now, answer)
  {
    hide Applies;
    forall i | 0 <= i < |a| ensures Exempts(a[i], q, now) == Exempts(b[i], q, now) && a[i].id == b[i].id {
    }
    hide Exempts;
  }

  /** At any time at or after a purge every query is answered as if the purge had not happened. */
  lemma PurgePreservesAnswers(rows: seq<Exception>, purgedAt: int, q: Query, now: int, answer: Answer)
    requires purgedAt <= now
    ensures IsAnswer(Purged(rows, purgedAt), q, now, answer) <==> IsAnswer(rows, q, now, answer)
  {
    SameAnswers(rows, Purged(rows, purgedAt), purgedAt, q, now, answer);
  }

  datatype Event = Insert(row: Exception) | Remove(id: int) | Purge | Advance(seconds: nat)

  function Exec(rows: seq<Exception>, now: int, run: seq<Event>): (seq<Exception>, int)
    decreases |run|
  {
    if run == [] then (rows, now)
    else match run[0]
      case Insert(row) => Exec(rows + [row], now, run[1..])
      case Remove(id) => Exec(Without(rows, id), now, run[1..])
      case Purge => Exec(Purged(rows, now), now, run[1..])
      case Advance(seconds) => Exec(rows, now + seconds, run[1..])
  }

  function WithoutPurges(run: seq<Event>): seq<Event> {
    if run == [] then []
    else (if run[0].Purge? then [] else [run[0]]) + WithoutPurges(run[1..])
  }

  lemma {:induction false} WithoutKeepsSame(a: seq<Exception>, b: seq<Exception>, now: int, id: int)
    requires SameButExpired(a, b, now)
    ensures SameButExpired(Without(a, id), Without(b, id), now)
    decreases |a|
  {
    if a == [] {
    } else {
      var n := |a| - 1;
      WithoutKeepsSame(a[..n], b[..n], now, id);
      assert a[n].id == b[n].id;
    }
  }

  lemma {:induction false} RunsStayClose(a: seq<Exception>, b: seq<Exception>, now: int, run: seq<Event>)
    requires SameButExpired(a, b, now)
    ensures Exec(a, now, WithoutPurges(run)).1 == Exec(b, now, run).1
    ensures SameButExpired(Exec(a, now, WithoutPurges(run)).0, Exec(b, now, run).0, Exec(b, now, run).1)
    decreases |run|
  {
    if run == [] {
    } else {
      var rest := WithoutPurges(run[1..]);
      if run[0].Purge? {
        assert WithoutPurges(run) == rest;
        RunsStayClose(a, Purged(b, now), now, run[1..]);
      } else {
        assert WithoutPurges(run)[0] == run[0] && WithoutPurges(run)[1..] == rest;
        match run[0]
        case Insert(row) => RunsStayClose(a + [row], b + [row], now, run[1..]);
        case Remove(id) =>
          WithoutKeepsSame(a, b, now, id);
          RunsStayClose(Without(a, id), Without(b, id), now, run[1..]);
        case Advance(seconds) => RunsStayClose(a, b, now + seconds, run[1..]);
      }
    }
  }

  /** Over any run of inserts, deletes and purges, leaving every purge out changes no answer at the
      end of the run or later. */
  lemma PurgesAreInvisible(rows: seq<Exception>, now: int, run: seq<Event>, q: Query, wait: nat, answer: Answer)
    ensures
      var (with, end) := Exec(rows, now, run);
      var (without, end') := Exec(rows, now, WithoutPurges(run));
      && end == end'
      && (IsAnswer(with, q, end + wait, answer) <==> IsAnswer(without, q, end + wait, answer))
  {
    RunsStayClose(rows, rows, now, run);
    SameAnswers(Exec(rows, now, WithoutPurges(run)).0, Exec(rows, now, run).0, Exec(rows, now, run).1, q,
                Exec(rows, now, run).1 + wait, answer);
  }
}
