/** What the compiled policy does to a request, against what the tables say. */
module PolicyMeaning {
  import opened Strings
  import opened PolicyCompiler

  datatype Request = Request(clientIP: string, verb: string, uri: string, headers: map<string, string>)

  /** The parts of the rule engine that are not this repository's: address and expression matching,
      which rule ids a removal text selects, and what a hand-written line does: at load time it can
      take rules out of the whole list (by id, tag or message, or by switching the engine off), and
      during a run affect what comes behind it. */
  datatype Engine = Engine(ipMatch: (string, string) -> bool,
                           rx: (string, string) -> bool,
                           selects: (string, nat) -> bool,
                           load: string -> set<Removal>,
                           raw: (string, Request, set<Removal>) -> RawOutcome)

  datatype RawOutcome = Stop | Go(removals: set<Removal>)

  datatype Outcome = DeniedBy(id: nat) | Stopped(text: string) | Passed(removals: set<Removal>)

  function HeaderValues(req: Request, name: string): seq<string> {
    if name in req.headers then [req.headers[name]] else []
  }

  function Values(target: Target, req: Request): seq<string> {
    match target
    case RemoteAddr => [req.clientIP]
    case RequestUri => [req.uri]
    case Country => HeaderValues(req, "CF-IPCountry") + HeaderValues(req, "X-Country-Code")
    case UserAgent => HeaderValues(req, "User-Agent")
    case Host => HeaderValues(req, "Host")
  }

  predicate Holds(test: Test, value: string, eng: Engine) {
    match test
    case IpMatch(arg) => eng.ipMatch(arg, value)
    case StrEq(arg) => value == arg
    case BeginsWith(arg) => HasPrefix(value, arg)
    case Rx(arg) => eng.rx(arg, value)
  }

  predicate Matches(target: Target, test: Test, eng: Engine, req: Request) {
    exists v | v in Values(target, req) :: Holds(test, v, eng)
  }

  ghost predicate Removed(removals: set<Removal>, id: nat, eng: Engine) {
    exists r | r in removals :: r.RemoveRule? && eng.selects(r.rule, id)
  }

  /** The rule at the head of a list matches: alone, or as the conjunction of a chain. */
  predicate HeadMatches(ds: seq<Directive>, eng: Engine, req: Request)
    requires ds != [] && ds[0].SecRule?
  {
    && Matches(ds[0].target, ds[0].test, eng, req)
    && (ds[0].chain ==> |ds| > 1 && ds[1].ChainTail? && ds[1].verb == req.verb)
  }

  function AfterHead(ds: seq<Directive>): (rest: seq<Directive>)
    requires ds != [] && ds[0].SecRule?
    ensures |rest| < |ds|
  {
    if ds[0].chain && |ds| > 1 then ds[2..] else ds[1..]
  }

  /** Phase 1: rules in list order, the first denial ends the evaluation, a removal affects the rules
      that come after it. */
  ghost function Run(ds: seq<Directive>, eng: Engine, req: Request, removals: set<Removal>): Outcome
    decreases |ds|
  {
    if ds == [] then Passed(removals)
    else match ds[0]
      case SecRule(_, _, id, _, action) =>
        if HeadMatches(ds, eng, req) && !Removed(removals, id, eng) then
          match action
          case Deny(_) => DeniedBy(id)
          case Allow(_) => Run(AfterHead(ds), eng, req, removals)
          case Remove(removal) => Run(AfterHead(ds), eng, req, removals + {removal})
        else Run(AfterHead(ds), eng, req, removals)
      case ChainTail(_) => Run(ds[1..], eng, req, removals)
      case RemoveById(_) => Run(ds[1..], eng, req, removals)
      case Raw(text) =>
        match eng.raw(text, req, removals)
        case Stop => Stopped(text)
        case Go(more) => Run(ds[1..], eng, req, more)
  }

  // ---------------------------------------------------------------- the tables

  datatype Tables = Tables(blocked: seq<string>, geo: seq<GeoRow>, endpoints: seq<EndpointRow>, bots: seq<BotRow>,
                           indicators: seq<IndicatorRow>, exceptions: seq<ExceptionRow>)

  /** The generated directives in order of precedence: address, country, endpoint, bot and indicator
      rules, then the exceptions. */
  function Perimeter(t: Tables, now: int): seq<Directive> {
    CompileRows(IPs(t.blocked), FIRST_IP_ID)
    + CompileRows(Geos(t.geo), FIRST_GEO_ID)
    + CompileRows(Endpoints(BlockedEndpoints(t.endpoints)), FIRST_ENDPOINT_ID)
    + CompileRows(Bots(EnabledBots(t.bots)), FIRST_BOT_ID)
    + CompileRows(Indicators(BlockingIndicators(t.indicators, now)), FIRST_INDICATOR_ID)
  }

  function ExceptionDirectives(t: Tables, now: int): seq<Directive> {
    CompileRows(Exempts(ActiveExceptions(t.exceptions, now)), FIRST_EXCEPTION_ID)
  }

  /** `rest`: the directives of the custom, virtual-patch, base and data-loss rules, in that order. */
  function Policy(t: Tables, now: int, rest: seq<Directive>): seq<Directive> {
    Perimeter(t, now) + (ExceptionDirectives(t, now) + rest)
  }

  /** What the list takes out at load time, wherever the line stands. */
  function LoadRemovals(ds: seq<Directive>, eng: Engine): set<Removal> {
    (set d | d in ds && d.RemoveById? :: RemoveRule(d.rule)) + (set d, r | d in ds && d.Raw? && r in eng.load(d.text) :: r)
  }

  ghost function Evaluate(ds: seq<Directive>, eng: Engine, req: Request): Outcome {
    Run(ds, eng, req, LoadRemovals(ds, eng))
  }

  // ---------------------------------------------------------------- what a denying row is

  predicate HeaderIs(req: Request, name: string, value: string) {
    name in req.headers && req.headers[name] == value
  }

  predicate AddressDenied(address: string, eng: Engine, req: Request) {
    TrimSpace(address) != "" && eng.ipMatch(TrimSpace(address), req.clientIP)
  }

  predicate CountryIsDenied(g: GeoRow, req: Request) {
    && ToUpper(g.action) == "BLOCK"
    && (HeaderIs(req, "CF-IPCountry", Clean(g.country)) || HeaderIs(req, "X-Country-Code", Clean(g.country)))
  }

  predicate EndpointDenied(e: EndpointRow, req: Request) {
    && TrimSpace(e.path) != ""
    && HasPrefix(req.uri, TrimSpace(e.path))
    && (AnyVerb(CleanVerb(e.verb)) || CleanVerb(e.verb) == req.verb)
  }

  predicate AgentDenied(b: BotRow, eng: Engine, req: Request) {
    && TrimSpace(b.uaRegex) != ""
    && (Clean(b.action) == "BLOCK" || Clean(b.action) == "CHALLENGE")
    && "User-Agent" in req.headers && eng.rx(TrimSpace(b.uaRegex), req.headers["User-Agent"])
  }

  predicate IndicatorDenied(i: IndicatorRow, eng: Engine, req: Request) {
    && TrimSpace(i.indicator) != ""
    && ((Clean(i.kind) in {"IP", "CIDR"} && eng.ipMatch(TrimSpace(i.indicator), req.clientIP))
        || (Clean(i.kind) == "DOMAIN" && HeaderIs(req, "Host", TrimSpace(i.indicator))))
  }

  /** The five tables deny the request: rows, not rules. */
  ghost predicate TablesDeny(t: Tables, now: int, eng: Engine, req: Request) {
    || (exists a | a in t.blocked :: AddressDenied(a, eng, req))
    || (exists g | g in t.geo :: CountryIsDenied(g, req))
    || (exists e | e in t.endpoints :: e.status == "BLOCKED" && EndpointDenied(e, req))
    || (exists b | b in t.bots :: b.enabled && AgentDenied(b, eng, req))
    || (exists i | i in t.indicators ::
          i.active && i.action == "BLOCK" && Unexpired(i.expires, now) && IndicatorDenied(i, eng, req))
  }

  predicate RowDenies(row: Row, eng: Engine, req: Request) {
    match row
    case BlockedIP(address) => AddressDenied(address, eng, req)
    case Geo(g) => CountryIsDenied(g, req)
    case Endpoint(e) => EndpointDenied(e, req)
    case Bot(b) => AgentDenied(b, eng, req)
    case Indicator(i) => IndicatorDenied(i, eng, req)
    case Exempt(_) => false
  }

  // ---------------------------------------------------------------- running one row's directives

  lemma OneValue(target: Target, test: Test, eng: Engine, req: Request, v: string)
    requires Values(target, req) == [v]
    ensures Matches(target, test, eng, req) <==> Holds(test, v, eng)
  {
    assert v in Values(target, req);
  }

  lemma HeaderMatches(target: Target, name: string, test: Test, eng: Engine, req: Request)
    requires Values(target, req) == HeaderValues(req, name)
    ensures Matches(target, test, eng, req) <==> name in req.headers && Holds(test, req.headers[name], eng)
  {
    if name in req.headers {
      OneValue(target, test, eng, req, req.headers[name]);
    }
  }

  lemma CountryMatches(country: string, eng: Engine, req: Request)
    ensures Matches(Country, StrEq(country), eng, req) <==>
            HeaderIs(req, "CF-IPCountry", country) || HeaderIs(req, "X-Country-Code", country)
  {
    var a, b := HeaderValues(req, "CF-IPCountry"), HeaderValues(req, "X-Country-Code");
    assert Values(Country, req) == a + b;
    assert forall v :: v in a + b <==> v in a || v in b;
    if HeaderIs(req, "CF-IPCountry", country) {
      assert country in a;
    }
    if HeaderIs(req, "X-Country-Code", country) {
      assert country in b;
    }
    if Matches(Country, StrEq(country), eng, req) {
      assert country in a + b;
    }
  }

  /** The single rule or chain of a row, with the rest of the policy behind it. */
  lemma RunScoped(path: string, verb: string, id: nat, action: Action, rest: seq<Directive>,
                  eng: Engine, req: Request, removals: set<Removal>)
    ensures
      var hit := HasPrefix(req.uri, path) && (AnyVerb(verb) || verb == req.verb) && !Removed(removals, id, eng);
      Run(Scoped(path, verb, id, action) + rest, eng, req, removals) ==
        if hit && action.Deny? then DeniedBy(id)
        else Run(rest, eng, req, if hit && action.Remove? then removals + {action.removal} else removals)
  {
    var ds := Scoped(path, verb, id, action) + rest;
    OneValue(RequestUri, BeginsWith(path), eng, req, req.uri);
    if AnyVerb(verb) {
      assert ds[1..] == rest;
    } else {
      assert ds[2..] == rest;
    }
  }

  lemma RunSingle(d: Directive, rest: seq<Directive>, eng: Engine, req: Request, removals: set<Removal>)
    requires d.SecRule? && !d.chain && !d.action.Remove?
    ensures Run([d] + rest, eng, req, removals) ==
            if d.action.Deny? && Matches(d.target, d.test, eng, req) && !Removed(removals, d.id, eng) then DeniedBy(d.id)
            else Run(rest, eng, req, removals)
  {
    assert ([d] + rest)[1..] == rest;
  }

  lemma RunRow(row: Row, id: nat, rest: seq<Directive>, eng: Engine, req: Request, removals: set<Removal>)
    requires !row.Exempt?
    ensures Run(Emit(row, id) + rest, eng, req, removals) ==
            if RowDenies(row, eng, req) && !Removed(removals, id, eng) then DeniedBy(id) else Run(rest, eng, req, removals)
  {
    hide Run, Matches, TrimSpace, ToUpper, Removed, AnyVerb, Scoped;
    var ds := Emit(row, id);
    if row.Endpoint? {
      var path, verb := TrimSpace(row.endpoint.path), CleanVerb(row.endpoint.verb);
      if path == "" {
        assert ds + rest == rest;
      } else {
        RunScoped(path, verb, id, Deny(EndpointMsg(verb, path)), rest, eng, req, removals);
      }
    } else if ds == [] {
      assert ds + rest == rest;
    } else {
      RunSingle(ds[0], rest, eng, req, removals);
      match ds[0].target
      case RemoteAddr => OneValue(RemoteAddr, ds[0].test, eng, req, req.clientIP);
      case Country => CountryMatches(Clean(row.geo.country), eng, req);
      case UserAgent => HeaderMatches(UserAgent, "User-Agent", ds[0].test, eng, req);
      case Host => HeaderMatches(Host, "Host", ds[0].test, eng, req);
      case RequestUri =>
    }
  }

  /** Row `i` denies the request and its rule is still there. */
  ghost predicate ArmedAt(rows: seq<Row>, i: nat, first: nat, eng: Engine, req: Request, removals: set<Removal>) {
    i < |rows| && RowDenies(rows[i], eng, req) && !Removed(removals, IdAt(rows, i, first), eng)
  }

  ghost predicate Armed(rows: seq<Row>, first: nat, eng: Engine, req: Request, removals: set<Removal>) {
    exists i: nat :: ArmedAt(rows, i, first, eng, req, removals)
  }

  lemma ArmedCons(rows: seq<Row>, first: nat, eng: Engine, req: Request, removals: set<Removal>)
    ensures Armed(rows, first, eng, req, removals) <==>
            rows != [] && ((RowDenies(rows[0], eng, req) && !Removed(removals, first, eng))
                           || Armed(rows[1..], NextId(rows[0], first), eng, req, removals))
  {
    hide RowDenies, Removed, NextId, IdAt;
    if rows != [] {
      IdAtCons(rows, 0, first);
      assert ArmedAt(rows, 0, first, eng, req, removals) <==> RowDenies(rows[0], eng, req) && !Removed(removals, first, eng);
      if i: nat :| ArmedAt(rows, i, first, eng, req, removals) {
        if i > 0 {
          IdAtCons(rows, i - 1, first);
          assert ArmedAt(rows[1..], i - 1, NextId(rows[0], first), eng, req, removals);
        }
      }
      if i: nat :| ArmedAt(rows[1..], i, NextId(rows[0], first), eng, req, removals) {
        IdAtCons(rows, i, first);
        assert ArmedAt(rows, i + 1, first, eng, req, removals);
      }
    }
  }

  /** A family denies with one of its own ids exactly when one of its rows denies and the rule of
      that row was not taken out. */
  lemma {:induction false} RunFamily(rows: seq<Row>, first: nat, rest: seq<Directive>, eng: Engine, req: Request, removals: set<Removal>)
    requires forall r | r in rows :: !r.Exempt?
    ensures
      var outcome := Run(CompileRows(rows, first) + rest, eng, req, removals);
      if Armed(rows, first, eng, req, removals) then outcome.DeniedBy? && first <= outcome.id < first + |rows|
      else outcome == Run(rest, eng, req, removals)
    decreases |rows|
  {
    hide Run, Emit, RowDenies, Removed, Advances, Armed;
    ArmedCons(rows, first, eng, req, removals);
    if rows == [] {
      assert CompileRows(rows, first) + rest == rest;
    } else {
      var tail, next := CompileRows(rows[1..], NextId(rows[0], first)), NextId(rows[0], first);
      assert CompileRows(rows, first) + rest == Emit(rows[0], first) + (tail + rest);
      assert rows[0] in rows;
      RunRow(rows[0], first, tail + rest, eng, req, removals);
      RunFamily(rows[1..], next, rest, eng, req, removals);
    }
  }

  /** Exceptions only add removals. */
  lemma {:induction false} RunExceptions(rows: seq<Row>, id: nat, rest: seq<Directive>, eng: Engine, req: Request, removals: set<Removal>)
      returns (more: set<Removal>)
    requires forall r | r in rows :: r.Exempt?
    ensures removals <= more
    ensures Run(CompileRows(rows, id) + rest, eng, req, removals) == Run(rest, eng, req, more)
    decreases |rows|
  {
    hide Emit, RowDenies, Removed, Advances;
    if rows == [] {
      more := removals;
      assert CompileRows(rows, id) + rest == rest;
    } else {
      var next := NextId(rows[0], id);
      var tail := CompileRows(rows[1..], next);
      assert CompileRows(rows, id) + rest == Emit(rows[0], id) + (tail + rest);
      var after := RunExempt(rows[0].exception, id, tail + rest, eng, req, removals);
      more := RunExceptions(rows[1..], next, rest, eng, req, after);
    }
  }

  lemma RunExempt(e: ExceptionRow, id: nat, rest: seq<Directive>, eng: Engine, req: Request, removals: set<Removal>)
      returns (more: set<Removal>)
    ensures more == removals || more == removals + {RemovalOf(e)}
    ensures Clean(e.scope) != "GLOBAL" && HasPrefix(req.uri, TrimSpace(e.path))
            && (AnyVerb(CleanVerb(e.verb)) || CleanVerb(e.verb) == req.verb) && !Removed(removals, id, eng)
            ==> RemovalOf(e) in more
    ensures Clean(e.scope) == "GLOBAL" || !HasPrefix(req.uri, TrimSpace(e.path))
            || !(AnyVerb(CleanVerb(e.verb)) || CleanVerb(e.verb) == req.verb)
            ==> more == removals
    ensures Run(Emit(Exempt(e), id) + rest, eng, req, removals) == Run(rest, eng, req, more)
  {
    hide TrimSpace, ToUpper, Removed, AnyVerb, Scoped, RemovalOf;
    if Clean(e.scope) == "GLOBAL" {
      more := removals;
      assert (Emit(Exempt(e), id) + rest)[1..] == rest;
    } else {
      var path, verb := TrimSpace(e.path), CleanVerb(e.verb);
      RunScoped(path, verb, id, Remove(RemovalOf(e)), rest, eng, req, removals);
      more := if HasPrefix(req.uri, path) && (AnyVerb(verb) || verb == req.verb) && !Removed(removals, id, eng)
              then removals + {RemovalOf(e)} else removals;
    }
  }

  /** A denial is that of a rule in the list. */
  lemma {:induction false} DenialIsListed(ds: seq<Directive>, eng: Engine, req: Request, removals: set<Removal>)
    requires Run(ds, eng, req, removals).DeniedBy?
    ensures exists d | d in ds :: d.SecRule? && d.action.Deny? && d.id == Run(ds, eng, req, removals).id
    decreases |ds|
  {
    hide HeadMatches, Removed;
    assert ds != [];
    assert forall d | d in ds[1..] :: d in ds;
    match ds[0]
    case SecRule(_, _, id, _, action) =>
      assert forall d | d in AfterHead(ds) :: d in ds;
      if HeadMatches(ds, eng, req) && !Removed(removals, id, eng) {
        match action
        case Deny(_) => assert ds[0] in ds;
        case Allow(_) => DenialIsListed(AfterHead(ds), eng, req, removals);
        case Remove(removal) => DenialIsListed(AfterHead(ds), eng, req, removals + {removal});
      } else {
        DenialIsListed(AfterHead(ds), eng, req, removals);
      }
    case ChainTail(_) => DenialIsListed(ds[1..], eng, req, removals);
    case RemoveById(_) => DenialIsListed(ds[1..], eng, req, removals);
    case Raw(text) =>
      match eng.raw(text, req, removals)
      case Go(more) => DenialIsListed(ds[1..], eng, req, more);
  }

  // ---------------------------------------------------------------- the perimeter theorem

  /** Ids the five perimeter families can use. */
  predicate PerimeterId(t: Tables, now: int, id: nat) {
    || FIRST_IP_ID <= id < FIRST_IP_ID + |t.blocked|
    || FIRST_GEO_ID <= id < FIRST_GEO_ID + |t.geo|
    || FIRST_ENDPOINT_ID <= id < FIRST_ENDPOINT_ID + |BlockedEndpoints(t.endpoints)|
    || FIRST_BOT_ID <= id < FIRST_BOT_ID + |EnabledBots(t.bots)|
    || FIRST_INDICATOR_ID <= id < FIRST_INDICATOR_ID + |BlockingIndicators(t.indicators, now)|
  }

  /** A row of the five tables denies the request, and the rule of that row was not taken out. */
  ghost predicate ArmedTables(t: Tables, now: int, eng: Engine, req: Request, removals: set<Removal>) {
    || Armed(IPs(t.blocked), FIRST_IP_ID, eng, req, removals)
    || Armed(Geos(t.geo), FIRST_GEO_ID, eng, req, removals)
    || Armed(Endpoints(BlockedEndpoints(t.endpoints)), FIRST_ENDPOINT_ID, eng, req, removals)
    || Armed(Bots(EnabledBots(t.bots)), FIRST_BOT_ID, eng, req, removals)
    || Armed(Indicators(BlockingIndicators(t.indicators, now)), FIRST_INDICATOR_ID, eng, req, removals)
  }

  /** The perimeter denies with one of its ids exactly when an armed row does; otherwise what is
      behind it decides. */
  lemma RunPerimeter(t: Tables, now: int, rest: seq<Directive>, eng: Engine, req: Request, removals: set<Removal>)
    ensures
      var outcome := Run(Perimeter(t, now) + rest, eng, req, removals);
      if ArmedTables(t, now, eng, req, removals) then outcome.DeniedBy? && PerimeterId(t, now, outcome.id)
      else outcome == Run(rest, eng, req, removals)
  {
    hide Run, CompileRows, Armed;
    var ips, geos := IPs(t.blocked), Geos(t.geo);
    var ends, bots := Endpoints(BlockedEndpoints(t.endpoints)), Bots(EnabledBots(t.bots));
    var inds := Indicators(BlockingIndicators(t.indicators, now));
    var d4 := CompileRows(inds, FIRST_INDICATOR_ID) + rest;
    var d3 := CompileRows(bots, FIRST_BOT_ID) + d4;
    var d2 := CompileRows(ends, FIRST_ENDPOINT_ID) + d3;
    var d1 := CompileRows(geos, FIRST_GEO_ID) + d2;
    PerimeterShape(t, now, rest);
    RunFamily(ips, FIRST_IP_ID, d1, eng, req, removals);
    RunFamily(geos, FIRST_GEO_ID, d2, eng, req, removals);
    RunFamily(ends, FIRST_ENDPOINT_ID, d3, eng, req, removals);
    RunFamily(bots, FIRST_BOT_ID, d4, eng, req, removals);
    RunFamily(inds, FIRST_INDICATOR_ID, rest, eng, req, removals);
  }

  lemma PerimeterShape(t: Tables, now: int, rest: seq<Directive>)
    ensures Perimeter(t, now) + rest ==
            CompileRows(IPs(t.blocked), FIRST_IP_ID)
            + (CompileRows(Geos(t.geo), FIRST_GEO_ID)
            + (CompileRows(Endpoints(BlockedEndpoints(t.endpoints)), FIRST_ENDPOINT_ID)
            + (CompileRows(Bots(EnabledBots(t.bots)), FIRST_BOT_ID)
            + (CompileRows(Indicators(BlockingIndicators(t.indicators, now)), FIRST_INDICATOR_ID) + rest))))
  {
    hide CompileRows;
  }

  /** The rules behind the perimeter do not deny with its ids. */
  predicate KeepsOut(rest: seq<Directive>, t: Tables, now: int) {
    forall d | d in rest && d.SecRule? && d.action.Deny? :: !PerimeterId(t, now, d.id)
  }

  /** The compiled policy means what the tables say: a perimeter rule denies the request exactly when
      a row of the five tables does and nothing takes the rule of that row out at load time. Exceptions
      for a path and the other rules change nothing. */
  lemma PerimeterExact(t: Tables, now: int, rest: seq<Directive>, eng: Engine, req: Request)
    requires KeepsOut(rest, t, now)
    ensures
      var policy := Policy(t, now, rest);
      var outcome := Evaluate(policy, eng, req);
      && (outcome.DeniedBy? && PerimeterId(t, now, outcome.id) <==> ArmedTables(t, now, eng, req, LoadRemovals(policy, eng)))
      && (outcome.DeniedBy? && !PerimeterId(t, now, outcome.id) ==>
            exists d | d in rest :: d.SecRule? && d.action.Deny? && d.id == outcome.id)
  {
    hide Run, CompileRows, ArmedTables, PerimeterId, LoadRemovals, Perimeter;
    var removals := LoadRemovals(Policy(t, now, rest), eng);
    RunPerimeter(t, now, ExceptionDirectives(t, now) + rest, eng, req, removals);
    var more := RunExceptions(Exempts(ActiveExceptions(t.exceptions, now)), FIRST_EXCEPTION_ID, rest, eng, req, removals);
    if Run(rest, eng, req, more).DeniedBy? {
      DenialIsListed(rest, eng, req, more);
    }
  }

  lemma {:induction false} ArmedIffDenies(rows: seq<Row>, first: nat, eng: Engine, req: Request, removals: set<Removal>)
    ensures Armed(rows, first, eng, req, removals) ==> AnyDenies(rows, eng, req)
    ensures AnyDenies(rows, eng, req) && !Armed(rows, first, eng, req, removals) ==>
              exists id: nat | first <= id < first + |rows| :: Removed(removals, id, eng)
  {
    hide RowDenies, Removed, IdAt;
    if r :| r in rows && RowDenies(r, eng, req) {
      var i :| 0 <= i < |rows| && rows[i] == r;
      IdAtWithin(rows, i, first);
      assert ArmedAt(rows, i, first, eng, req, removals) || Removed(removals, IdAt(rows, i, first), eng);
    }
  }

  /** An armed row is a denying row; and a request that a row denies escapes only if something takes
      a perimeter id out. */
  lemma ArmedTablesDeny(t: Tables, now: int, eng: Engine, req: Request, removals: set<Removal>)
    ensures ArmedTables(t, now, eng, req, removals) ==> TablesDeny(t, now, eng, req)
    ensures TablesDeny(t, now, eng, req) && !ArmedTables(t, now, eng, req, removals) ==>
              exists id: nat :: PerimeterId(t, now, id) && Removed(removals, id, eng)
  {
    hide Armed, AnyDenies, Removed, TablesDeny;
    RowsOfTables(t, now, eng, req);
    ArmedIffDenies(IPs(t.blocked), FIRST_IP_ID, eng, req, removals);
    ArmedIffDenies(Geos(t.geo), FIRST_GEO_ID, eng, req, removals);
    ArmedIffDenies(Endpoints(BlockedEndpoints(t.endpoints)), FIRST_ENDPOINT_ID, eng, req, removals);
    ArmedIffDenies(Bots(EnabledBots(t.bots)), FIRST_BOT_ID, eng, req, removals);
    ArmedIffDenies(Indicators(BlockingIndicators(t.indicators, now)), FIRST_INDICATOR_ID, eng, req, removals);
  }

  /** So when nothing at load time selects a perimeter id, the perimeter denies exactly what the
      tables deny. */
  lemma PerimeterMeansTables(t: Tables, now: int, rest: seq<Directive>, eng: Engine, req: Request)
    requires KeepsOut(rest, t, now)
    requires forall id: nat | PerimeterId(t, now, id) :: !Removed(LoadRemovals(Policy(t, now, rest), eng), id, eng)
    ensures
      var outcome := Evaluate(Policy(t, now, rest), eng, req);
      outcome.DeniedBy? && PerimeterId(t, now, outcome.id) <==> TablesDeny(t, now, eng, req)
  {
    hide PerimeterId, Removed, LoadRemovals, Policy, ArmedTables, TablesDeny, Evaluate;
    PerimeterExact(t, now, rest, eng, req);
    ArmedTablesDeny(t, now, eng, req, LoadRemovals(Policy(t, now, rest), eng));
  }

  // ---------------------------------------------------------------- what is taken out at load time

  ghost predicate LiveGlobal(e: ExceptionRow, t: Tables, now: int) {
    e in t.exceptions && e.status == "ACTIVE" && Unexpired(e.expires, now) && Clean(e.scope) == "GLOBAL"
  }

  lemma {:induction false} FamilyRemovesAtLoad(rows: seq<Row>, id: nat, d: Directive)
    ensures d in CompileRows(rows, id) && d.RemoveById? <==>
            exists r | r in rows :: r.Exempt? && Clean(r.exception.scope) == "GLOBAL" && d == RemoveById(RuleTarget(r.exception.targetRule))
    ensures d in CompileRows(rows, id) ==> !d.Raw?
    decreases |rows|
  {
    hide TrimSpace, ToUpper, CompileRows, TrimPrefix;
    CompileCons(rows, id);
    if rows == [] {
    } else {
      FamilyRemovesAtLoad(rows[1..], NextId(rows[0], id), d);
      assert forall r :: r in rows <==> r == rows[0] || r in rows[1..];
    }
  }

  lemma CompileCons(rows: seq<Row>, id: nat)
    ensures rows == [] ==> CompileRows(rows, id) == []
    ensures rows != [] ==> CompileRows(rows, id) == Emit(rows[0], id) + CompileRows(rows[1..], NextId(rows[0], id))
  {
  }

  lemma PerimeterRemovesNothing(t: Tables, now: int, d: Directive)
    ensures d in Perimeter(t, now) ==> !d.RemoveById? && !d.Raw?
  {
    hide CompileRows, TrimSpace, ToUpper, TrimPrefix, Where;
    FamilyRemovesAtLoad(IPs(t.blocked), FIRST_IP_ID, d);
    FamilyRemovesAtLoad(Geos(t.geo), FIRST_GEO_ID, d);
    FamilyRemovesAtLoad(Endpoints(BlockedEndpoints(t.endpoints)), FIRST_ENDPOINT_ID, d);
    FamilyRemovesAtLoad(Bots(EnabledBots(t.bots)), FIRST_BOT_ID, d);
    FamilyRemovesAtLoad(Indicators(BlockingIndicators(t.indicators, now)), FIRST_INDICATOR_ID, d);
  }

  lemma ExceptionsRemove(t: Tables, now: int, d: Directive)
    ensures d in ExceptionDirectives(t, now) && d.RemoveById? <==>
            exists e | LiveGlobal(e, t, now) :: d == RemoveById(RuleTarget(e.targetRule))
    ensures d in ExceptionDirectives(t, now) ==> !d.Raw?
  {
    hide CompileRows, TrimSpace, ToUpper, TrimPrefix;
    var active := ActiveExceptions(t.exceptions, now);
    FamilyRemovesAtLoad(Exempts(active), FIRST_EXCEPTION_ID, d);
    if r :| r in Exempts(active) && Clean(r.exception.scope) == "GLOBAL" && d == RemoveById(RuleTarget(r.exception.targetRule)) {
      assert r.exception in active;
      assert LiveGlobal(r.exception, t, now);
    }
    if e :| LiveGlobal(e, t, now) && d == RemoveById(RuleTarget(e.targetRule)) {
      assert e in active;
      assert Exempt(e) in Exempts(active);
    }
  }

  /** Exactly the live GLOBAL exceptions and the lines behind the exceptions take rules out at load
      time. */
  lemma LoadRemovalsExact(t: Tables, now: int, rest: seq<Directive>, eng: Engine, r: Removal)
    ensures r in LoadRemovals(Policy(t, now, rest), eng) <==>
            || (exists e | LiveGlobal(e, t, now) :: r == RemoveRule(RuleTarget(e.targetRule)))
            || r in LoadRemovals(rest, eng)
  {
    hide Perimeter, ExceptionDirectives, RuleTarget, LiveGlobal;
    forall d ensures d in Perimeter(t, now) ==> !d.RemoveById? && !d.Raw? {
      PerimeterRemovesNothing(t, now, d);
    }
    forall d
      ensures d in ExceptionDirectives(t, now) && d.RemoveById? <==> exists e | LiveGlobal(e, t, now) :: d == RemoveById(RuleTarget(e.targetRule))
      ensures d in ExceptionDirectives(t, now) ==> !d.Raw?
    {
      ExceptionsRemove(t, now, d);
    }
    if e :| LiveGlobal(e, t, now) && r == RemoveRule(RuleTarget(e.targetRule)) {
      assert RemoveById(RuleTarget(e.targetRule)) in Policy(t, now, rest);
    }
  }

  /** A hand-written line can therefore open the perimeter: with one blocked address and a line whose
      load-time removal selects the id of its rule, the address is let through to what follows. */
  lemma HandWrittenLineOpens(t: Tables, now: int, line: string, removal: Removal, eng: Engine, req: Request)
    requires t == Tables([req.clientIP], [], [], [], [], []) && TrimSpace(req.clientIP) == req.clientIP != ""
    requires eng.ipMatch(req.clientIP, req.clientIP)
    requires removal in eng.load(line) && removal.RemoveRule? && eng.selects(removal.rule, FIRST_IP_ID)
    ensures TablesDeny(t, now, eng, req)
    ensures !Evaluate(Policy(t, now, [Raw(line)]), eng, req).DeniedBy?
  {
    hide TrimSpace, Run, LoadRemovals, Policy, Armed, ExceptionDirectives, Perimeter;
    var rest := [Raw(line)];
    var policy := Policy(t, now, rest);
    var removals := LoadRemovals(policy, eng);
    assert req.clientIP in t.blocked && AddressDenied(req.clientIP, eng, req);
    LoadRemovalsExact(t, now, rest, eng, removal);
    assert removal in LoadRemovals(rest, eng) by {
      LineRemoves(rest, 0, eng, removal);
    }
    assert Removed(removals, FIRST_IP_ID, eng);
    PerimeterExact(t, now, rest, eng, req);
    assert IPs(t.blocked) == [BlockedIP(req.clientIP)];
    ArmedCons(IPs(t.blocked), FIRST_IP_ID, eng, req, removals);
    NobodyArmed(FIRST_IP_ID + 1, eng, req, removals);
    assert IPs(t.blocked)[1..] == [] && Geos([]) == [] && Endpoints([]) == [] && Bots([]) == [] && Indicators([]) == [];
    NobodyArmed(FIRST_GEO_ID, eng, req, removals);
    NobodyArmed(FIRST_ENDPOINT_ID, eng, req, removals);
    NobodyArmed(FIRST_BOT_ID, eng, req, removals);
    NobodyArmed(FIRST_INDICATOR_ID, eng, req, removals);
    assert NextId(IPs(t.blocked)[0], FIRST_IP_ID) == FIRST_IP_ID + 1;
  }

  lemma LineRemoves(rest: seq<Directive>, i: nat, eng: Engine, r: Removal)
    requires i < |rest| && rest[i].Raw? && r in eng.load(rest[i].text)
    ensures r in LoadRemovals(rest, eng)
  {
    assert rest[i] in rest;
  }

  lemma NobodyArmed(first: nat, eng: Engine, req: Request, removals: set<Removal>)
    ensures !Armed([], first, eng, req, removals)
  {
  }

  ghost predicate AnyDenies(rows: seq<Row>, eng: Engine, req: Request) {
    exists r | r in rows :: RowDenies(r, eng, req)
  }

  lemma RowsOfTables(t: Tables, now: int, eng: Engine, req: Request)
    ensures TablesDeny(t, now, eng, req) <==>
            || AnyDenies(IPs(t.blocked), eng, req)
            || AnyDenies(Geos(t.geo), eng, req)
            || AnyDenies(Endpoints(BlockedEndpoints(t.endpoints)), eng, req)
            || AnyDenies(Bots(EnabledBots(t.bots)), eng, req)
            || AnyDenies(Indicators(BlockingIndicators(t.indicators, now)), eng, req)
  {
    DenyingAddressOrCountry(t, eng, req);
    DenyingEndpoint(BlockedEndpoints(t.endpoints), eng, req);
    DenyingBot(EnabledBots(t.bots), eng, req);
    DenyingIndicator(BlockingIndicators(t.indicators, now), eng, req);
    hide AnyDenies, AddressDenied, CountryIsDenied, EndpointDenied, AgentDenied, IndicatorDenied;
  }

  lemma DenyingAddressOrCountry(t: Tables, eng: Engine, req: Request)
    ensures AnyDenies(IPs(t.blocked), eng, req) <==> exists a | a in t.blocked :: AddressDenied(a, eng, req)
    ensures AnyDenies(Geos(t.geo), eng, req) <==> exists g | g in t.geo :: CountryIsDenied(g, req)
  {
    hide AddressDenied, CountryIsDenied, EndpointDenied, AgentDenied, IndicatorDenied;
    forall a | a in t.blocked && AddressDenied(a, eng, req) ensures AnyDenies(IPs(t.blocked), eng, req) {
      assert BlockedIP(a) in IPs(t.blocked) && RowDenies(BlockedIP(a), eng, req);
    }
    forall g | g in t.geo && CountryIsDenied(g, req) ensures AnyDenies(Geos(t.geo), eng, req) {
      assert Geo(g) in Geos(t.geo) && RowDenies(Geo(g), eng, req);
    }
  }

  lemma DenyingEndpoint(rows: seq<EndpointRow>, eng: Engine, req: Request)
    ensures AnyDenies(Endpoints(rows), eng, req) <==> exists e | e in rows :: EndpointDenied(e, req)
  {
    hide EndpointDenied;
    forall e | e in rows && EndpointDenied(e, req) ensures AnyDenies(Endpoints(rows), eng, req) {
      assert Endpoint(e) in Endpoints(rows) && RowDenies(Endpoint(e), eng, req);
    }
  }

  lemma DenyingBot(rows: seq<BotRow>, eng: Engine, req: Request)
    ensures AnyDenies(Bots(rows), eng, req) <==> exists b | b in rows :: AgentDenied(b, eng, req)
  {
    hide AgentDenied;
    forall b | b in rows && AgentDenied(b, eng, req) ensures AnyDenies(Bots(rows), eng, req) {
      assert Bot(b) in Bots(rows) && RowDenies(Bot(b), eng, req);
    }
  }

  lemma DenyingIndicator(rows: seq<IndicatorRow>, eng: Engine, req: Request)
    ensures AnyDenies(Indicators(rows), eng, req) <==> exists i | i in rows :: IndicatorDenied(i, eng, req)
  {
    hide IndicatorDenied;
    forall i | i in rows && IndicatorDenied(i, eng, req) ensures AnyDenies(Indicators(rows), eng, req) {
      assert Indicator(i) in Indicators(rows) && RowDenies(Indicator(i), eng, req);
    }
  }
}
