/** One-click exceptions generated from a security event (`autoGenerateException` in
    management-plane/main.go), and what they do once compiled. */
module ExceptionWizard {
  import opened Wrappers
  import opened Strings
  import opened PolicyCompiler
  import opened PolicyMeaning

  /** `recorded`: the method in the event's raw log, when the log has one. */
  datatype SecurityEvent = SecurityEvent(ruleID: string, path: string, recorded: Option<string>)

  const FALLBACK_RULE := "942100"

  function RuleOf(event: SecurityEvent): string {
    if event.ruleID == "" || event.ruleID == "0" then FALLBACK_RULE else event.ruleID
  }

  function VerbOf(event: SecurityEvent): string {
    match event.recorded
    case None => "ANY"
    case Some(m) => if m == "" then "ANY" else ToUpper(TrimSpace(m))
  }

  /** The path without its query string. */
  function BasePath(path: string): string {
    path[..IndexOf(path, '?')]
  }

  /** "/" stands for an empty path, and for a path that is only a query string. */
  function PathOf(event: SecurityEvent): string {
    if BasePath(event.path) == "" then "/" else BasePath(event.path)
  }

  function QueryOf(path: string): string {
    var j := IndexOf(path, '?');
    if j == |path| then "" else path[j + 1..]
  }

  /** The first parameter name of a query string that is not blank. */
  function FirstName(query: string): string
    decreases |query|
  {
    var j := IndexOf(query, '&');
    var pair := query[..j];
    var name := pair[..IndexOf(pair, '=')];
    if name != "" || j == |query| then name else FirstName(query[j + 1..])
  }

  function Generated(event: SecurityEvent, scope: string, ttlSeconds: int, now: int): ExceptionRow {
    var wanted := if scope == "" then "PATH_ONLY" else scope;
    var param := FirstName(QueryOf(event.path));
    ExceptionRow(RuleOf(event), PathOf(event), VerbOf(event), wanted,
                 if wanted == "TARGET" && param == "" then "q" else param,
                 "", "ACTIVE", if ttlSeconds > 0 then Some(now + ttlSeconds) else None)
  }

  lemma NoName()
    ensures FirstName("") == ""
  {
  }

  /** The loop over the query string's pairs. */
  method PickParameter(query: string) returns (matchParam: string)
    ensures matchParam == FirstName(query)
  {
    matchParam := "";
    var rest, more := query, true;
    while more
      invariant matchParam == "" && more ==> FirstName(rest) == FirstName(query)
      invariant matchParam != "" || !more ==> matchParam == FirstName(query)
      decreases more, |rest|
    {
      var j := IndexOf(rest, '&');
      var pair := rest[..j];
      var name := pair[..IndexOf(pair, '=')];
      if name != "" && matchParam == "" {
        matchParam := name;
      }
      if j == |rest| {
        more := false;
      } else {
        rest := rest[j + 1..];
      }
    }
  }

  method AutoGenerate(event: SecurityEvent, scope: string, ttlSeconds: int, now: int) returns (row: ExceptionRow)
    ensures row == Generated(event, scope, ttlSeconds, now)
  {
    hide ToUpper, TrimSpace, FirstName;
    var ruleID, path := event.ruleID, event.path;
    if ruleID == "" || ruleID == "0" {
      ruleID := FALLBACK_RULE;
    }
    if path == "" {
      path := "/";
    }
    var matchParam := "";
    var verb := "ANY";
    if event.recorded.Some? && event.recorded.value != "" {
      verb := ToUpper(TrimSpace(event.recorded.value));
    }
    var cleanPath := path;
    var idx := IndexOf(cleanPath, '?');
    if idx != |cleanPath| {
      var rest := cleanPath[idx + 1..];
      cleanPath := cleanPath[..idx];
      matchParam := PickParameter(rest);
    } else {
      assert cleanPath[..|cleanPath|] == cleanPath;
      NoName();
    }
    if cleanPath == "" {
      cleanPath := "/";
    }
    var wanted := if scope == "" then "PATH_ONLY" else scope;
    if wanted == "TARGET" && matchParam == "" {
      matchParam := "q";
    }
    var expires := None;
    if ttlSeconds > 0 {
      expires := Some(now + ttlSeconds);
    }
    row := ExceptionRow(ruleID, cleanPath, verb, wanted, matchParam, "", "ACTIVE", expires);
  }

  // ---------------------------------------------------------------- an exception in the compiled list

  /** The exception's path and method admit the request. */
  predicate Covers(e: ExceptionRow, req: Request) {
    && Clean(e.scope) != "GLOBAL"
    && HasPrefix(req.uri, TrimSpace(e.path))
    && (AnyVerb(CleanVerb(e.verb)) || CleanVerb(e.verb) == req.verb)
  }

  /** None of the removals touches a rule with an id in `[low, high)`. */
  ghost predicate Spares(removals: set<Removal>, eng: Engine, low: nat, high: nat) {
    forall r, id: nat | r in removals && r.RemoveRule? && low <= id < high :: !eng.selects(r.rule, id)
  }

  ghost function AllRemovals(rows: seq<Row>): set<Removal> {
    set r | r in rows && r.Exempt? :: RemovalOf(r.exception)
  }

  /** As long as no exception removes exceptions, each one that covers the request takes effect on
      everything behind the exceptions. */
  lemma {:induction false} CoveringExceptionApplies(rows: seq<Row>, i: nat, id: nat, rest: seq<Directive>, eng: Engine, req: Request,
                                                    removals: set<Removal>) returns (more: set<Removal>)
    requires i < |rows| && forall r | r in rows :: r.Exempt?
    requires Covers(rows[i].exception, req)
    requires Spares(removals, eng, id, id + |rows|) && Spares(AllRemovals(rows), eng, id, id + |rows|)
    ensures removals <= more && RemovalOf(rows[i].exception) in more
    ensures Run(CompileRows(rows, id) + rest, eng, req, removals) == Run(rest, eng, req, more)
    decreases |rows|
  {
    hide Run, Emit, RemovalOf, TrimSpace, ToUpper, AnyVerb, Clean, CleanVerb;
    var next := NextId(rows[0], id);
    var tail := CompileRows(rows[1..], next);
    assert CompileRows(rows, id) + rest == Emit(rows[0], id) + (tail + rest);
    assert rows[0].Exempt?;
    var after := RunExempt(rows[0].exception, id, tail + rest, eng, req, removals);
    assert RemovalOf(rows[0].exception) in AllRemovals(rows);
    assert !Removed(removals, id, eng);
    assert Spares(after, eng, next, next + |rows[1..]|);
    assert AllRemovals(rows[1..]) <= AllRemovals(rows);
    if i == 0 {
      assert RemovalOf(rows[0].exception) in after;
      more := RunExceptions(rows[1..], next, rest, eng, req, after);
    } else {
      more := CoveringExceptionApplies(rows[1..], i - 1, next, rest, eng, req, after);
    }
  }

  // ---------------------------------------------------------------- the wizard covers its own event

  /** The event's path can be matched by a prefix that is trimmed on compilation. */
  predicate MatchablePath(path: string) {
    path != "" && path[0] != '?' && (IsSpace(path[0]) ==> TrimSpace(BasePath(path)) == "")
  }

  /** The recorded method, upper-cased and trimmed, is still the method of the request. */
  predicate MatchableVerb(recorded: Option<string>, verb: string) {
    match recorded
    case None => true
    case Some(m) => m == "" || AnyVerb(ToUpper(TrimSpace(m))) || ToUpper(TrimSpace(m)) == verb
  }

  lemma UpperKeepsSpaces(c: char)
    ensures IsSpace(UpperChar(c)) == IsSpace(c)
    ensures UpperChar(UpperChar(c)) == UpperChar(c)
  {
  }

  lemma CleanVerbOfUpper(m: string)
    ensures CleanVerb(ToUpper(TrimSpace(m))) == ToUpper(TrimSpace(m))
  {
    hide TrimSpace, ToUpper;
    var t := TrimSpace(m);
    var u := ToUpper(t);
    TrimSpaceProps(m);
    if t != "" {
      UpperKeepsSpaces(t[0]);
      UpperKeepsSpaces(t[|t| - 1]);
    }
    forall i | 0 <= i < |u| ensures ToUpper(u)[i] == u[i] {
      UpperKeepsSpaces(t[i]);
    }
    assert ToUpper(u) == u;
    TrimSpaceProps(u);
  }

  lemma TrimmedPrefix(s: string)
    requires s != ""
    ensures HasPrefix(s, TrimSpace(s)) <==> !IsSpace(s[0]) || TrimSpace(s) == ""
  {
    var l := TrimLeft(s);
    if !IsSpace(s[0]) {
      assert l == s;
    } else {
      TrimSpaceProps(s);
      var t := TrimSpace(s);
      assert t != "" ==> t[0] != s[0];
    }
  }

  lemma PathIsMatched(path: string)
    requires path != "" && path[0] != '?'
    ensures HasPrefix(path, TrimSpace(BasePath(path))) <==> MatchablePath(path)
  {
    hide TrimSpace;
    var base := BasePath(path);
    assert base[0] == path[0];
    TrimmedPrefix(base);
    var t := TrimSpace(base);
    if HasPrefix(path, t) {
      BaseTrimIsShort(base);
      assert base[..|t|] == path[..|t|];
    }
    if HasPrefix(base, t) {
      assert path[..|t|] == base[..|t|];
    }
  }

  lemma BaseTrimIsShort(s: string)
    ensures |TrimSpace(s)| <= |s|
  {
  }

  /** The PATH_ONLY exception of an event covers the request that repeats the event exactly when
      the event's path and method survive the wizard's and the compiler's cleaning. */
  lemma WizardCoversIff(event: SecurityEvent, ttlSeconds: int, now: int, req: Request)
    requires req.uri == event.path
    ensures Covers(Generated(event, "PATH_ONLY", ttlSeconds, now), req) <==>
            MatchablePath(event.path) && MatchableVerb(event.recorded, req.verb)
  {
    hide TrimSpace, ToUpper;
    PathOnlyScope();
    var path := event.path;
    SlashIsTrimmed();
    if path == "" || path[0] == '?' {
      assert BasePath(path) == "";
      assert PathOf(event) == "/";
      assert !HasPrefix(path, "/");
    } else {
      assert BasePath(path)[0] == path[0];
      PathIsMatched(path);
    }
    match event.recorded
    case None => AnyIsClean();
    case Some(m) =>
      if m == "" {
        AnyIsClean();
      } else {
        CleanVerbOfUpper(m);
      }
  }

  lemma PathOnlyScope()
    ensures Clean("PATH_ONLY") != "GLOBAL" && Clean("PATH_ONLY") != "TARGET"
  {
    hide TrimSpace, ToUpper;
    TrimSpaceProps("PATH_ONLY");
    assert TrimSpace("PATH_ONLY") == "PATH_ONLY";
    assert ToUpper("PATH_ONLY")[0] == 'P';
    assert "GLOBAL"[0] == 'G' && "TARGET"[0] == 'T';
  }

  lemma AnyIsClean()
    ensures CleanVerb("ANY") == "ANY"
  {
    hide TrimSpace;
    assert ToUpper("ANY") == "ANY";
    TrimSpaceProps("ANY");
  }

  lemma SlashIsTrimmed()
    ensures TrimSpace("/") == "/"
  {
    hide TrimSpace;
    TrimSpaceProps("/");
  }

  /** An event with an absolute path and an upper-case method, or none, is always covered. */
  lemma OrdinaryEventIsCovered(event: SecurityEvent, ttlSeconds: int, now: int, req: Request)
    requires req.uri == event.path && HasPrefix(event.path, "/")
    requires match event.recorded
             case None => true
             case Some(m) => m == "" || (m == req.verb && Trimmed(m) && ToUpper(m) == m)
    ensures Covers(Generated(event, "PATH_ONLY", ttlSeconds, now), req)
  {
    hide TrimSpace, ToUpper, Covers, Generated, BasePath;
    WizardCoversIff(event, ttlSeconds, now, req);
    assert event.path[..1][0] == '/';
    assert event.path[0] == '/';
    if event.recorded.Some? {
      TrimSpaceProps(event.recorded.value);
    }
  }

  /** From the event to the proxy: once the wizard's row is in the table and until it expires, the
      compiled exceptions take the event's rule out of everything behind them, for every request
      the row covers, whatever other exceptions the table holds. */
  lemma WizardRemovesTheRule(t: Tables, event: SecurityEvent, ttlSeconds: int, created: int, now: int,
                             rest: seq<Directive>, eng: Engine, req: Request, removals: set<Removal>)
      returns (more: set<Removal>)
    requires Generated(event, "PATH_ONLY", ttlSeconds, created) in t.exceptions
    requires ttlSeconds > 0 ==> now < created + ttlSeconds
    requires req.uri == event.path && MatchablePath(event.path) && MatchableVerb(event.recorded, req.verb)
    requires
      var rows := Exempts(ActiveExceptions(t.exceptions, now));
      Spares(removals + AllRemovals(rows), eng, FIRST_EXCEPTION_ID, FIRST_EXCEPTION_ID + |rows|)
    ensures RemoveRule(RuleTarget(RuleOf(event))) in more
    ensures Run(ExceptionDirectives(t, now) + rest, eng, req, removals) == Run(rest, eng, req, more)
  {
    hide Run, CompileRows, TrimSpace, ToUpper, TrimPrefix, IndexOf, FirstName, AnyVerb;
    var row := Generated(event, "PATH_ONLY", ttlSeconds, created);
    var active := ActiveExceptions(t.exceptions, now);
    WizardCoversIff(event, ttlSeconds, created, req);
    assert row in active;
    var i :| 0 <= i < |active| && active[i] == row;
    assert RemovalOf(row) == RemoveRule(RuleTarget(RuleOf(event))) by {
      PathOnlyScope();
    }
    more := CoveringExceptionApplies(Exempts(active), i, FIRST_EXCEPTION_ID, rest, eng, req, removals);
  }

  // ---------------------------------------------------------------- when it ends

  /** The stored row is compiled exactly until its time is up, for ever when no time was given. */
  lemma ActiveUntilExpiry(t: Tables, event: SecurityEvent, scope: string, ttlSeconds: int, created: int, now: int)
    requires Generated(event, scope, ttlSeconds, created) in t.exceptions
    ensures Generated(event, scope, ttlSeconds, created) in ActiveExceptions(t.exceptions, now) <==>
            ttlSeconds <= 0 || now < created + ttlSeconds
  {
    hide FirstName, ToUpper, TrimSpace, BasePath, QueryOf;
  }

  /** And afterwards, where it is the only exception, everything runs as if there were none. */
  lemma ExpiredAddsNothing(t: Tables, event: SecurityEvent, scope: string, ttlSeconds: int, created: int, now: int,
                           rest: seq<Directive>, eng: Engine, req: Request, removals: set<Removal>)
    requires t.exceptions == [Generated(event, scope, ttlSeconds, created)]
    requires 0 < ttlSeconds && created + ttlSeconds <= now
    ensures Run(ExceptionDirectives(t, now) + rest, eng, req, removals) == Run(rest, eng, req, removals)
  {
    hide Run, Generated;
    ActiveUntilExpiry(t, event, scope, ttlSeconds, created, now);
    var active := ActiveExceptions(t.exceptions, now);
    assert t.exceptions[1..] == [];
    assert active == [];
    assert ExceptionDirectives(t, now) == [];
    assert ExceptionDirectives(t, now) + rest == rest;
  }

  // ---------------------------------------------------------------- rule, scope and parameter

  /** The event's own rule is excepted; an event without one stands for rule 942100. No scope means
      the path. */
  lemma RuleAndScope(event: SecurityEvent, scope: string, ttlSeconds: int, now: int)
    ensures var row := Generated(event, scope, ttlSeconds, now);
            && row.targetRule == (if event.ruleID in {"", "0"} then "942100" else event.ruleID)
            && row.scope == (if scope == "" then "PATH_ONLY" else scope)
            && row.header == "" && row.status == "ACTIVE"
  {
    hide FirstName, ToUpper, TrimSpace, BasePath, QueryOf;
  }

  /** The name in a pair: what stands before its first "=". */
  function NameOf(pair: string): string {
    pair[..IndexOf(pair, '=')]
  }

  /** The chosen parameter is the first name that is not blank among the pairs of the query string. */
  lemma {:induction false} FirstNameExact(query: string, k: nat)
    ensures var pairs := SplitOn(query, '&');
            k < |pairs| && NameOf(pairs[k]) != "" && (forall j | 0 <= j < k :: NameOf(pairs[j]) == "") ==>
              FirstName(query) == NameOf(pairs[k])
    ensures (forall pair | pair in SplitOn(query, '&') :: NameOf(pair) == "") ==> FirstName(query) == ""
    decreases |query|
  {
    var j := IndexOf(query, '&');
    var pairs := SplitOn(query, '&');
    if j == |query| {
      assert query[..j] == query && pairs == [query];
      assert query in pairs;
    } else {
      var rest := query[j + 1..];
      assert pairs == [query[..j]] + SplitOn(rest, '&');
      assert forall i | 0 < i < |pairs| :: pairs[i] == SplitOn(rest, '&')[i - 1];
      assert pairs[0] in pairs && forall pair | pair in SplitOn(rest, '&') :: pair in pairs;
      FirstNameExact(rest, if k > 0 then k - 1 else 0);
      if k > 0 && k < |pairs| && NameOf(pairs[k]) != "" && (forall i | 0 <= i < k :: NameOf(pairs[i]) == "") {
        assert NameOf(pairs[0]) == "";
        forall i | 0 <= i < k - 1 ensures NameOf(SplitOn(rest, '&')[i]) == "" {
          assert pairs[i + 1] == SplitOn(rest, '&')[i];
        }
      }
    }
  }

  /** Every parameter-scoped exception is for one parameter: the first of the event's query string,
      or "q" when it names none. */
  lemma TargetParameter(event: SecurityEvent, ttlSeconds: int, now: int)
    ensures var row := Generated(event, "TARGET", ttlSeconds, now);
            row.param != "" && row.param == if FirstName(QueryOf(event.path)) == "" then "q" else FirstName(QueryOf(event.path))
    ensures forall i: nat | i < |event.path| && event.path[i] == '?' && '?' !in event.path[..i] :: QueryOf(event.path) == event.path[i + 1..]
    ensures '?' !in event.path ==> QueryOf(event.path) == ""
  {
    hide FirstName, ToUpper, TrimSpace, BasePath;
    forall i: nat | i < |event.path| && event.path[i] == '?' && '?' !in event.path[..i] ensures QueryOf(event.path) == event.path[i + 1..] {
      assert event.path == event.path[..i] + ['?'] + event.path[i + 1..];
      IndexOfUnique(event.path[..i], '?', event.path[i + 1..]);
    }
  }
}
