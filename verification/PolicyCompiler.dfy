/** The table rows and the compiler from rows to SecLang directives
    (`syncDynamicWAFRules` in management-plane/main.go). */
module PolicyCompiler {
  import opened Wrappers
  import opened Strings

  // ---------------------------------------------------------------- tables

  datatype ExceptionRow = ExceptionRow(targetRule: string, path: string, verb: string, scope: string,
                                       param: string, header: string, status: string, expires: Option<int>)
  datatype GeoRow = GeoRow(country: string, action: string)
  datatype EndpointRow = EndpointRow(verb: string, path: string, status: string)
  datatype BotRow = BotRow(name: string, uaRegex: string, action: string, enabled: bool)
  datatype IndicatorRow = IndicatorRow(indicator: string, kind: string, category: string, confidence: nat,
                                       action: string, active: bool, expires: Option<int>)

  predicate Unexpired(expires: Option<int>, now: int) {
    expires.None? || expires.value > now
  }

  /** The WHERE clauses. */
  function Where<T(!new)>(rows: seq<T>, keep: T -> bool): (kept: seq<T>)
    ensures forall r :: r in kept <==> r in rows && keep(r)
    ensures |kept| <= |rows|
  {
    if rows == [] then []
    else
      var rest := Where(rows[1..], keep);
      assert forall r :: r in rows <==> r == rows[0] || r in rows[1..];
      if keep(rows[0]) then [rows[0]] + rest else rest
  }

  function ActiveExceptions(rows: seq<ExceptionRow>, now: int): seq<ExceptionRow> {
    Where(rows, (r: ExceptionRow) => r.status == "ACTIVE" && Unexpired(r.expires, now))
  }

  function BlockedEndpoints(rows: seq<EndpointRow>): seq<EndpointRow> {
    Where(rows, (r: EndpointRow) => r.status == "BLOCKED")
  }

  function EnabledBots(rows: seq<BotRow>): seq<BotRow> {
    Where(rows, (r: BotRow) => r.enabled)
  }

  function BlockingIndicators(rows: seq<IndicatorRow>, now: int): seq<IndicatorRow> {
    Where(rows, (r: IndicatorRow) => r.active && r.action == "BLOCK" && Unexpired(r.expires, now))
  }

  // ---------------------------------------------------------------- directives

  datatype Target = RemoteAddr | RequestUri | Country | UserAgent | Host

  datatype Test = IpMatch(arg: string) | StrEq(arg: string) | BeginsWith(arg: string) | Rx(arg: string)

  /** What an exception takes out of the rest of the evaluation. */
  datatype Removal = RemoveRule(rule: string) | RemoveArg(rule: string, param: string) | RemoveHeader(rule: string, header: string)

  /** The message of a generated rule; `Text` is a message as read back. */
  datatype Message =
    | IPBlocked(ip: string)
    | CountryDenied(country: string)
    | PathBlocked(path: string)
    | EndpointBlocked(verb: string, path: string)
    | BotBlocked(name: string)
    | BotChallenged(name: string)
    | BotAllowed(name: string)
    | AddressListed(category: string, confidence: nat)
    | DomainListed(domain: string)
    | Text(text: string)

  datatype Action = Deny(msg: Message) | Allow(msg: Message) | Remove(removal: Removal)

  datatype Directive =
    | SecRule(target: Target, test: Test, id: nat, chain: bool, action: Action)
    | ChainTail(verb: string)
    | RemoveById(rule: string)
    | Raw(text: string)

  /** A row of one of the six families whose directives carry generated ids. */
  datatype Row =
    | BlockedIP(address: string)
    | Geo(geo: GeoRow)
    | Endpoint(endpoint: EndpointRow)
    | Bot(bot: BotRow)
    | Indicator(indicator: IndicatorRow)
    | Exempt(exception: ExceptionRow)

  const FIRST_IP_ID := 10001
  const FIRST_EXCEPTION_ID := 20001
  const FIRST_GEO_ID := 30001
  const FIRST_ENDPOINT_ID := 50001
  const FIRST_BOT_ID := 60001
  const FIRST_INDICATOR_ID := 70001

  function Clean(s: string): string {
    ToUpper(TrimSpace(s))
  }

  /** Methods are upper-cased first and trimmed afterwards. */
  function CleanVerb(s: string): string {
    TrimSpace(ToUpper(s))
  }

  predicate AnyVerb(verb: string) {
    verb == "" || verb == "ANY"
  }

  function RuleTarget(rule: string): string {
    TrimPrefix(TrimSpace(rule), "CRS-")
  }

  /** What the exception's scope makes of its target rule; GLOBAL rows never get here. */
  function RemovalOf(e: ExceptionRow): Removal {
    var target, param, header := RuleTarget(e.targetRule), TrimSpace(e.param), TrimSpace(e.header);
    if Clean(e.scope) != "TARGET" then RemoveRule(target)
    else if param != "" then RemoveArg(target, param)
    else if header != "" then RemoveHeader(target, header)
    else RemoveRule(target)
  }

  /** One rule, or a chain of two when it is limited to a method. */
  function Scoped(path: string, verb: string, id: nat, action: Action): seq<Directive> {
    if AnyVerb(verb) then [SecRule(RequestUri, BeginsWith(path), id, false, action)]
    else [SecRule(RequestUri, BeginsWith(path), id, true, action), ChainTail(verb)]
  }

  function EndpointMsg(verb: string, path: string): Message {
    if AnyVerb(verb) then PathBlocked(path) else EndpointBlocked(verb, path)
  }

  /** The directives of one row, given the family's next free id. */
  function Emit(row: Row, id: nat): seq<Directive> {
    match row
    case BlockedIP(address) =>
      var ip := TrimSpace(address);
      if ip == "" then []
      else [SecRule(RemoteAddr, IpMatch(ip), id, false, Deny(IPBlocked(ip)))]
    case Geo(g) =>
      var country := Clean(g.country);
      if ToUpper(g.action) != "BLOCK" then []
      else [SecRule(Country, StrEq(country), id, false, Deny(CountryDenied(country)))]
    case Endpoint(e) =>
      var path, verb := TrimSpace(e.path), CleanVerb(e.verb);
      if path == "" then [] else Scoped(path, verb, id, Deny(EndpointMsg(verb, path)))
    case Bot(b) =>
      var rx, action := TrimSpace(b.uaRegex), Clean(b.action);
      if rx == "" then []
      else if action == "BLOCK" then [SecRule(UserAgent, Rx(rx), id, false, Deny(BotBlocked(b.name)))]
      else if action == "CHALLENGE" then [SecRule(UserAgent, Rx(rx), id, false, Deny(BotChallenged(b.name)))]
      else if action == "ALLOW" then [SecRule(UserAgent, Rx(rx), id, false, Allow(BotAllowed(b.name)))]
      else []
    case Indicator(i) =>
      var ind, kind := TrimSpace(i.indicator), Clean(i.kind);
      if ind == "" then []
      else if kind == "IP" || kind == "CIDR" then
        [SecRule(RemoteAddr, IpMatch(ind), id, false, Deny(AddressListed(i.category, i.confidence)))]
      else if kind == "DOMAIN" then
        [SecRule(Host, StrEq(ind), id, false, Deny(DomainListed(ind)))]
      else []
    case Exempt(e) =>
      if Clean(e.scope) == "GLOBAL" then [RemoveById(RuleTarget(e.targetRule))]
      else Scoped(TrimSpace(e.path), CleanVerb(e.verb), id, Remove(RemovalOf(e)))
  }

  /** Whether the row uses up an id: geo and exception rows always do, a bot row whenever its
      expression is not blank, the others only when they emit. */
  predicate Advances(row: Row) {
    match row
    case BlockedIP(address) => TrimSpace(address) != ""
    case Geo(_) => true
    case Endpoint(e) => TrimSpace(e.path) != ""
    case Bot(b) => TrimSpace(b.uaRegex) != ""
    case Indicator(i) => TrimSpace(i.indicator) != "" && Clean(i.kind) in {"IP", "CIDR", "DOMAIN"}
    case Exempt(_) => true
  }

  function CompileRows(rows: seq<Row>, id: nat): seq<Directive> {
    if rows == [] then []
    else Emit(rows[0], id) + CompileRows(rows[1..], NextId(rows[0], id))
  }

  /** How often the rows advance their family's counter. */
  function Advanced(rows: seq<Row>): nat {
    if rows == [] then 0 else (if Advances(rows[0]) then 1 else 0) + Advanced(rows[1..])
  }

  /** The family's next free id when its row `i` is compiled. */
  function IdAt(rows: seq<Row>, i: nat, first: nat): nat
    requires i <= |rows|
  {
    first + Advanced(rows[..i])
  }

  lemma IdAtCons(rows: seq<Row>, i: nat, first: nat)
    requires rows != [] && i < |rows|
    ensures IdAt(rows, 0, first) == first
    ensures IdAt(rows, i + 1, first) == IdAt(rows[1..], i, NextId(rows[0], first))
  {
    hide Advances;
    assert rows[..i + 1][1..] == rows[1..][..i];
  }

  lemma {:induction false} IdAtWithin(rows: seq<Row>, i: nat, first: nat)
    requires i < |rows|
    ensures first <= IdAt(rows, i, first) < first + |rows|
    decreases i
  {
    hide Advances;
    if i == 0 {
    } else {
      IdAtCons(rows, i - 1, first);
      IdAtWithin(rows[1..], i - 1, NextId(rows[0], first));
    }
  }

  /** Countries and exceptions use up an id for every row, whether it emits a rule or not. */
  lemma {:induction false} EveryRowAdvances(rows: seq<Row>, i: nat, first: nat)
    requires i <= |rows| && forall r | r in rows :: r.Geo? || r.Exempt?
    ensures IdAt(rows, i, first) == first + i
    decreases i
  {
    hide Advanced;
    if i == 0 {
      NothingAdvanced();
    } else {
      assert rows[0] in rows;
      IdAtCons(rows, i - 1, first);
      EveryRowAdvances(rows[1..], i - 1, NextId(rows[0], first));
    }
  }

  /** Bots use up an id for every expression that is not blank, whatever their action. */
  lemma {:induction false} BotsAdvance(bots: seq<BotRow>, i: nat, first: nat)
    requires i <= |bots|
    ensures IdAt(Bots(bots), i, first) == first + |set k | 0 <= k < i && TrimSpace(bots[k].uaRegex) != ""|
    decreases i
  {
    hide TrimSpace, Advances, Advanced;
    var rows := Bots(bots);
    if i == 0 {
      NothingAdvanced();
    } else {
      BotsAdvance(bots, i - 1, first);
      OneMoreExpression(bots, i - 1);
      AdvancedSnoc(rows, i - 1);
      BotAdvances(bots[i - 1]);
    }
  }

  lemma NothingAdvanced()
    ensures forall rows: seq<Row> :: Advanced(rows[..0]) == 0
  {
  }

  lemma BotAdvances(b: BotRow)
    ensures Advances(Bot(b)) <==> TrimSpace(b.uaRegex) != ""
  {
    hide TrimSpace;
  }

  lemma OneMoreExpression(bots: seq<BotRow>, i: nat)
    requires i < |bots|
    ensures |set k | 0 <= k < i + 1 && TrimSpace(bots[k].uaRegex) != ""| ==
            |set k | 0 <= k < i && TrimSpace(bots[k].uaRegex) != ""| + if TrimSpace(bots[i].uaRegex) != "" then 1 else 0
  {
    hide TrimSpace;
    var few := set k | 0 <= k < i && TrimSpace(bots[k].uaRegex) != "";
    var all := set k | 0 <= k < i + 1 && TrimSpace(bots[k].uaRegex) != "";
    assert all == few + if TrimSpace(bots[i].uaRegex) != "" then {i} else {};
  }

  lemma {:induction false} AdvancedSnoc(rows: seq<Row>, i: nat)
    requires i < |rows|
    ensures Advanced(rows[..i + 1]) == Advanced(rows[..i]) + if Advances(rows[i]) then 1 else 0
    decreases i
  {
    hide Advances;
    if i == 0 {
      assert rows[..1][1..] == [] && rows[..0] == [];
    } else {
      AdvancedSnoc(rows[1..], i - 1);
      assert rows[..i + 1][1..] == rows[1..][..i] && rows[..i][1..] == rows[1..][..i - 1];
    }
  }

  // ---------------------------------------------------------------- the loops of the compiler

  function IPs(rows: seq<string>): (s: seq<Row>)
    ensures |s| == |rows| && forall i | 0 <= i < |rows| :: s[i] == BlockedIP(rows[i])
  {
    seq(|rows|, i requires 0 <= i < |rows| => BlockedIP(rows[i]))
  }

  function Geos(rows: seq<GeoRow>): (s: seq<Row>)
    ensures |s| == |rows| && forall i | 0 <= i < |rows| :: s[i] == Geo(rows[i])
  {
    seq(|rows|, i requires 0 <= i < |rows| => Geo(rows[i]))
  }

  function Endpoints(rows: seq<EndpointRow>): (s: seq<Row>)
    ensures |s| == |rows| && forall i | 0 <= i < |rows| :: s[i] == Endpoint(rows[i])
  {
    seq(|rows|, i requires 0 <= i < |rows| => Endpoint(rows[i]))
  }

  function Bots(rows: seq<BotRow>): (s: seq<Row>)
    ensures |s| == |rows| && forall i | 0 <= i < |rows| :: s[i] == Bot(rows[i])
  {
    seq(|rows|, i requires 0 <= i < |rows| => Bot(rows[i]))
  }

  function Indicators(rows: seq<IndicatorRow>): (s: seq<Row>)
    ensures |s| == |rows| && forall i | 0 <= i < |rows| :: s[i] == Indicator(rows[i])
  {
    seq(|rows|, i requires 0 <= i < |rows| => Indicator(rows[i]))
  }

  function Exempts(rows: seq<ExceptionRow>): (s: seq<Row>)
    ensures |s| == |rows| && forall i | 0 <= i < |rows| :: s[i] == Exempt(rows[i])
  {
    seq(|rows|, i requires 0 <= i < |rows| => Exempt(rows[i]))
  }

  function NextId(row: Row, id: nat): nat {
    if Advances(row) then id + 1 else id
  }

  /** The loop step all families share: append the row's directives, then advance the id. */
  lemma LoopStep(done: seq<Directive>, rows: seq<Row>, i: nat, id: nat, total: seq<Directive>)
    requires i < |rows|
    requires done + CompileRows(rows[i..], id) == total
    ensures (done + Emit(rows[i], id)) + CompileRows(rows[i + 1..], NextId(rows[i], id)) == total
  {
    hide Emit, NextId;
    assert rows[i..][1..] == rows[i + 1..];
  }

  lemma LoopEnds(rows: seq<Row>, id: nat)
    ensures rows[0..] == rows
    ensures CompileRows(rows[|rows|..], id) == []
  {
  }

  method CompileBlockedIPs(rows: seq<string>) returns (ipRules: seq<Directive>)
    ensures ipRules == CompileRows(IPs(rows), FIRST_IP_ID)
  {
    hide TrimSpace, ToUpper, TrimPrefix, CompileRows;
    ipRules := [];
    var ruleID: nat := FIRST_IP_ID;
    LoopEnds(IPs(rows), ruleID);
    for i := 0 to |rows|
      invariant ipRules + CompileRows(IPs(rows)[i..], ruleID) == CompileRows(IPs(rows), FIRST_IP_ID)
    {
      LoopStep(ipRules, IPs(rows), i, ruleID, CompileRows(IPs(rows), FIRST_IP_ID));
      var ip := rows[i];
      if TrimSpace(ip) != "" {
        ip := TrimSpace(ip);
        ipRules := ipRules + [SecRule(RemoteAddr, IpMatch(ip), ruleID, false, Deny(IPBlocked(ip)))];
        ruleID := ruleID + 1;
      }
    }
    LoopEnds(IPs(rows), ruleID);
  }

  method CompileExceptions(rows: seq<ExceptionRow>) returns (excRules: seq<Directive>)
    ensures excRules == CompileRows(Exempts(rows), FIRST_EXCEPTION_ID)
  {
    hide TrimSpace, ToUpper, TrimPrefix, CompileRows;
    excRules := [];
    var excID: nat := FIRST_EXCEPTION_ID;
    LoopEnds(Exempts(rows), excID);
    for i := 0 to |rows|
      invariant excRules + CompileRows(Exempts(rows)[i..], excID) == CompileRows(Exempts(rows), FIRST_EXCEPTION_ID)
    {
      LoopStep(excRules, Exempts(rows), i, excID, CompileRows(Exempts(rows), FIRST_EXCEPTION_ID));
      var targetRule := TrimPrefix(TrimSpace(rows[i].targetRule), "CRS-");
      var path := TrimSpace(rows[i].path);
      var verb := TrimSpace(ToUpper(rows[i].verb));
      var scope := ToUpper(TrimSpace(rows[i].scope));
      var param, header := TrimSpace(rows[i].param), TrimSpace(rows[i].header);
      if scope == "GLOBAL" {
        excRules := excRules + [RemoveById(targetRule)];
        excID := excID + 1;
        continue;
      }
      var ctl: Removal;
      if scope == "TARGET" {
        if param != "" {
          ctl := RemoveArg(targetRule, param);
        } else if header != "" {
          ctl := RemoveHeader(targetRule, header);
        } else {
          ctl := RemoveRule(targetRule);
        }
      } else {
        ctl := RemoveRule(targetRule);
      }
      if verb == "" || verb == "ANY" {
        excRules := excRules + [SecRule(RequestUri, BeginsWith(path), excID, false, Remove(ctl))];
      } else {
        excRules := excRules + [SecRule(RequestUri, BeginsWith(path), excID, true, Remove(ctl)), ChainTail(verb)];
      }
      excID := excID + 1;
    }
    LoopEnds(Exempts(rows), excID);
  }

  method CompileGeo(rows: seq<GeoRow>) returns (geoRules: seq<Directive>)
    ensures geoRules == CompileRows(Geos(rows), FIRST_GEO_ID)
  {
    hide TrimSpace, ToUpper, TrimPrefix, CompileRows;
    geoRules := [];
    var geoID: nat := FIRST_GEO_ID;
    LoopEnds(Geos(rows), geoID);
    for i := 0 to |rows|
      invariant geoRules + CompileRows(Geos(rows)[i..], geoID) == CompileRows(Geos(rows), FIRST_GEO_ID)
    {
      LoopStep(geoRules, Geos(rows), i, geoID, CompileRows(Geos(rows), FIRST_GEO_ID));
      var country := ToUpper(TrimSpace(rows[i].country));
      if ToUpper(rows[i].action) == "BLOCK" {
        geoRules := geoRules + [SecRule(Country, StrEq(country), geoID, false, Deny(CountryDenied(country)))];
      }
      geoID := geoID + 1;
    }
    LoopEnds(Geos(rows), geoID);
  }

  method CompileEndpoints(rows: seq<EndpointRow>) returns (apiBlockRules: seq<Directive>)
    ensures apiBlockRules == CompileRows(Endpoints(rows), FIRST_ENDPOINT_ID)
  {
    hide TrimSpace, ToUpper, TrimPrefix, CompileRows;
    apiBlockRules := [];
    var apiRuleID: nat := FIRST_ENDPOINT_ID;
    LoopEnds(Endpoints(rows), apiRuleID);
    for i := 0 to |rows|
      invariant apiBlockRules + CompileRows(Endpoints(rows)[i..], apiRuleID) == CompileRows(Endpoints(rows), FIRST_ENDPOINT_ID)
    {
      LoopStep(apiBlockRules, Endpoints(rows), i, apiRuleID, CompileRows(Endpoints(rows), FIRST_ENDPOINT_ID));
      var verb := TrimSpace(ToUpper(rows[i].verb));
      var path := TrimSpace(rows[i].path);
      if path != "" {
        if verb == "" || verb == "ANY" {
          apiBlockRules := apiBlockRules + [SecRule(RequestUri, BeginsWith(path), apiRuleID, false,
                                                    Deny(PathBlocked(path)))];
        } else {
          apiBlockRules := apiBlockRules + [SecRule(RequestUri, BeginsWith(path), apiRuleID, true,
                                                    Deny(EndpointBlocked(verb, path))),
                                            ChainTail(verb)];
        }
        apiRuleID := apiRuleID + 1;
      }
    }
    LoopEnds(Endpoints(rows), apiRuleID);
  }

  method CompileBots(rows: seq<BotRow>) returns (botRules: seq<Directive>)
    ensures botRules == CompileRows(Bots(rows), FIRST_BOT_ID)
  {
    hide TrimSpace, ToUpper, TrimPrefix, CompileRows;
    botRules := [];
    var botRuleID: nat := FIRST_BOT_ID;
    LoopEnds(Bots(rows), botRuleID);
    for i := 0 to |rows|
      invariant botRules + CompileRows(Bots(rows)[i..], botRuleID) == CompileRows(Bots(rows), FIRST_BOT_ID)
    {
      LoopStep(botRules, Bots(rows), i, botRuleID, CompileRows(Bots(rows), FIRST_BOT_ID));
      var name := rows[i].name;
      var uaRegex := TrimSpace(rows[i].uaRegex);
      var action := ToUpper(TrimSpace(rows[i].action));
      if uaRegex != "" {
        if action == "BLOCK" {
          botRules := botRules + [SecRule(UserAgent, Rx(uaRegex), botRuleID, false, Deny(BotBlocked(name)))];
        } else if action == "CHALLENGE" {
          botRules := botRules + [SecRule(UserAgent, Rx(uaRegex), botRuleID, false, Deny(BotChallenged(name)))];
        } else if action == "ALLOW" {
          botRules := botRules + [SecRule(UserAgent, Rx(uaRegex), botRuleID, false, Allow(BotAllowed(name)))];
        }
        botRuleID := botRuleID + 1;
      }
    }
    LoopEnds(Bots(rows), botRuleID);
  }

  method CompileIndicators(rows: seq<IndicatorRow>) returns (tiRules: seq<Directive>)
    ensures tiRules == CompileRows(Indicators(rows), FIRST_INDICATOR_ID)
  {
    hide TrimSpace, ToUpper, TrimPrefix, CompileRows;
    tiRules := [];
    var tiRuleID: nat := FIRST_INDICATOR_ID;
    LoopEnds(Indicators(rows), tiRuleID);
    for i := 0 to |rows|
      invariant tiRules + CompileRows(Indicators(rows)[i..], tiRuleID) == CompileRows(Indicators(rows), FIRST_INDICATOR_ID)
    {
      LoopStep(tiRules, Indicators(rows), i, tiRuleID, CompileRows(Indicators(rows), FIRST_INDICATOR_ID));
      var ind := TrimSpace(rows[i].indicator);
      var kind := ToUpper(TrimSpace(rows[i].kind));
      if ind != "" {
        if kind == "IP" || kind == "CIDR" {
          tiRules := tiRules + [SecRule(RemoteAddr, IpMatch(ind), tiRuleID, false,
                                        Deny(AddressListed(rows[i].category, rows[i].confidence)))];
          tiRuleID := tiRuleID + 1;
        } else if kind == "DOMAIN" {
          tiRules := tiRules + [SecRule(Host, StrEq(ind), tiRuleID, false, Deny(DomainListed(ind)))];
          tiRuleID := tiRuleID + 1;
        }
      }
    }
    LoopEnds(Indicators(rows), tiRuleID);
  }
}
