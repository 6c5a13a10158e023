/** The lines of the policy, character by character (the format strings of `syncDynamicWAFRules` in
    management-plane/main.go), against what the compiler and the printer make of each row. */
module PolicyFormats {
  import opened Wrappers
  import opened Strings
  import opened PolicyCompiler
  import opened PolicyPrinter
  import opened PolicyText
  import opened PolicySync

  // ---------------------------------------------------------------- lines

  function Line(target: string, test: string, actions: string): string {
    "SecRule " + target + " \"" + test + "\" \"" + actions + "\""
  }

  function Denial(id: nat, chain: bool, msg: string): string {
    "id:" + Decimal(id) + ",phase:1," + (if chain then "chain," else "") + "deny,status:403,msg:'" + msg + "'"
  }

  function Passage(id: nat, chain: bool, action: string): string {
    "id:" + Decimal(id) + ",phase:1," + (if chain then "chain," else "") + "pass,nolog," + action
  }

  /** The line that limits a rule to a method, if it is. */
  function VerbLine(verb: string): seq<string> {
    if verb == "" || verb == "ANY" then [] else [Line("REQUEST_METHOD", "@streq " + verb, "t:none")]
  }

  lemma RuleText(target: string, test: string, actions: string)
    ensures PrintRule(target, test, actions) == Line(target, test, actions)
  {
    assert RULE == "SecRule ";
    hide RULE;
    assert PrintRule(target, test, actions) ==
           RULE + target + (" " + ['"']) + test + (['"'] + " " + ['"']) + actions + ['"'];
    assert " \"" == " " + ['"'] && "\" \"" == ['"'] + " " + ['"'] && "\"" == ['"'];
  }

  lemma HeadText(id: nat, chain: bool)
    ensures ID + Decimal(id) + "," + PHASE_ONE + "," + (if chain then CHAIN + "," else "") ==
            "id:" + Decimal(id) + ",phase:1," + (if chain then "chain," else "")
  {
    hide Decimal;
    assert ID == "id:" && "," + PHASE_ONE + "," == ",phase:1," && CHAIN + "," == "chain,";
    hide ID, PHASE_ONE, CHAIN;
    assert ID + Decimal(id) + "," + PHASE_ONE + "," == ID + Decimal(id) + ("," + PHASE_ONE + ",");
  }

  lemma JoinMore(first: string, rest: seq<string>)
    requires rest != []
    ensures Join([first] + rest, ",") == first + "," + Join(rest, ",")
  {
    assert ([first] + rest)[1..] == rest;
  }

  lemma JoinThree(a: string, b: string, c: string)
    ensures Join([a, b, c], ",") == a + "," + b + "," + c
  {
    JoinMore(a, [b, c]);
    JoinMore(b, [c]);
    assert [a, b, c] == [a] + [b, c] && [b, c] == [b] + [c];
  }

  lemma JoinHead(id: nat, chain: bool, items: seq<string>)
    requires items != []
    ensures Join([ID + Decimal(id), PHASE_ONE] + (if chain then [CHAIN] else []) + items, ",") ==
            ID + Decimal(id) + "," + PHASE_ONE + "," + (if chain then CHAIN + "," else "") + Join(items, ",")
  {
    hide ID, PHASE_ONE, CHAIN, Decimal, Join;
    var tail := (if chain then [CHAIN] else []) + items;
    assert [ID + Decimal(id), PHASE_ONE] + (if chain then [CHAIN] else []) + items == [ID + Decimal(id)] + ([PHASE_ONE] + tail);
    JoinMore(ID + Decimal(id), [PHASE_ONE] + tail);
    JoinMore(PHASE_ONE, tail);
    if chain {
      JoinMore(CHAIN, items);
    } else {
      assert tail == items;
    }
  }

  lemma DenyWords()
    ensures DENY + "," + STATUS + "," + (MESSAGE + ['\'']) == "deny,status:403,msg:'"
  {
  }

  lemma PassWords()
    ensures PASS + "," + NO_LOG + "," == "pass,nolog,"
  {
  }

  lemma DenialText(id: nat, chain: bool, msg: Message)
    ensures PrintActions(id, chain, Deny(msg)) == Denial(id, chain, PrintMessage(msg))
  {
    hide ID, PHASE_ONE, CHAIN, DENY, STATUS, MESSAGE, PrintMessage, Decimal, Join;
    var items := ActionItems(Deny(msg));
    JoinHead(id, chain, items);
    JoinThree(items[0], items[1], items[2]);
    assert items == [items[0], items[1], items[2]];
    HeadText(id, chain);
    DenyWords();
    assert "'" == ['\''];
    var text := PrintMessage(msg);
    assert DENY + "," + STATUS + "," + (MESSAGE + ['\''] + text + ['\'']) == DENY + "," + STATUS + "," + (MESSAGE + ['\'']) + text + ['\''];
    AppendThree(ID + Decimal(id) + "," + PHASE_ONE + "," + (if chain then CHAIN + "," else ""), "deny,status:403,msg:'", text, ['\'']);
  }

  lemma AppendThree(a: string, b: string, c: string, d: string)
    ensures a + (b + c + d) == a + b + c + d
  {
  }

  lemma PassingItems(a: Action)
    requires !a.Deny?
    ensures |ActionItems(a)| == 3 && ActionItems(a)[0] == PASS && ActionItems(a)[1] == NO_LOG
  {
    hide PASS, NO_LOG, MessageItem, RemovalText, PrintMessage;
  }

  lemma PassageText(id: nat, chain: bool, a: Action)
    requires !a.Deny?
    ensures PrintActions(id, chain, a) == Passage(id, chain, ActionItems(a)[2])
  {
    hide ID, PHASE_ONE, CHAIN, PASS, NO_LOG, Decimal, Join, ActionItems;
    var items := ActionItems(a);
    PassingItems(a);
    JoinHead(id, chain, items);
    JoinThree(PASS, NO_LOG, items[2]);
    assert items == [PASS, NO_LOG, items[2]];
    HeadText(id, chain);
    PassWords();
    PassageJoined(ID + Decimal(id) + "," + PHASE_ONE + "," + (if chain then CHAIN + "," else ""), PASS + "," + NO_LOG + ",", items[2]);
  }

  lemma PassageJoined(head: string, words: string, action: string)
    ensures head + (words + action) == head + words + action
  {
  }

  lemma VerbText(verb: string)
    ensures PrintRule(VERB_TARGET, PrintTest(StrEq(verb)), NO_TRANSFORM) == Line("REQUEST_METHOD", "@streq " + verb, "t:none")
  {
    hide Line, PrintRule;
    RuleText(VERB_TARGET, PrintTest(StrEq(verb)), NO_TRANSFORM);
  }

  lemma PrintedOne(d: Directive)
    ensures PrintAll([d]) == [Print(d)] && PrintAll([]) == []
  {
    hide Print;
  }

  lemma ScopedText(path: string, verb: string, id: nat, a: Action)
    ensures PrintAll(Scoped(path, verb, id, a)) ==
            [Line("REQUEST_URI", "@beginsWith " + path, PrintActions(id, !(verb == "" || verb == "ANY"), a))] + VerbLine(verb)
  {
    hide PrintActions, Line, PrintRule;
    var chain := !(verb == "" || verb == "ANY");
    RuleText(PrintTarget(RequestUri), PrintTest(BeginsWith(path)), PrintActions(id, chain, a));
    VerbText(verb);
    assert PrintAll(Scoped(path, verb, id, a))[0] == Print(SecRule(RequestUri, BeginsWith(path), id, chain, a));
  }

  // ---------------------------------------------------------------- the rows of each family

  lemma BlockedIPLines(address: string, id: nat)
    ensures var ip := TrimSpace(address);
            PrintAll(Emit(BlockedIP(address), id)) ==
            if ip == "" then []
            else [Line("REMOTE_ADDR", "@ipMatch " + ip, Denial(id, false, "Client IP " + ip + " explicitly blocked by SOC"))]
  {
    hide TrimSpace, Line, Denial, PrintRule, PrintActions;
    var ip := TrimSpace(address);
    RuleText(PrintTarget(RemoteAddr), PrintTest(IpMatch(ip)), PrintActions(id, false, Deny(IPBlocked(ip))));
    DenialText(id, false, IPBlocked(ip));
    PrintedOne(SecRule(RemoteAddr, IpMatch(ip), id, false, Deny(IPBlocked(ip))));
  }

  lemma GeoLines(g: GeoRow, id: nat)
    ensures var country := ToUpper(TrimSpace(g.country));
            PrintAll(Emit(Geo(g), id)) ==
            if ToUpper(g.action) != "BLOCK" then []
            else [Line("REQUEST_HEADERS:" + "CF-IPCountry" + "|" + "REQUEST_HEADERS:" + "X-Country-Code", "@streq " + country,
                       Denial(id, false, "Geo-IP Access Denied for Country " + country))]
  {
    hide TrimSpace, ToUpper, Line, Denial, PrintRule, PrintActions;
    var country := Clean(g.country);
    RuleText(PrintTarget(Country), PrintTest(StrEq(country)), PrintActions(id, false, Deny(CountryDenied(country))));
    DenialText(id, false, CountryDenied(country));
    PrintedOne(SecRule(Country, StrEq(country), id, false, Deny(CountryDenied(country))));
  }

  lemma EndpointLines(e: EndpointRow, id: nat)
    ensures var path, verb := TrimSpace(e.path), TrimSpace(ToUpper(e.verb));
            PrintAll(Emit(Endpoint(e), id)) ==
            if path == "" then []
            else if verb == "" || verb == "ANY" then
              [Line("REQUEST_URI", "@beginsWith " + path,
                    Denial(id, false, "API Endpoint " + path + " blocked by API Allowlist Policy"))]
            else
              [Line("REQUEST_URI", "@beginsWith " + path,
                    Denial(id, true, "API " + verb + " " + path + " blocked by API Allowlist Policy"))] + VerbLine(verb)
  {
    hide TrimSpace, ToUpper, Line, Denial, PrintActions, PrintAll, Scoped;
    var path, verb := TrimSpace(e.path), CleanVerb(e.verb);
    ScopedText(path, verb, id, Deny(EndpointMsg(verb, path)));
    DenialText(id, !(verb == "" || verb == "ANY"), EndpointMsg(verb, path));
    PrintedNone();
  }

  lemma PrintedNone()
    ensures PrintAll([]) == []
  {
    hide Print;
  }

  lemma BotLines(b: BotRow, id: nat)
    ensures var rx, action := TrimSpace(b.uaRegex), ToUpper(TrimSpace(b.action));
            PrintAll(Emit(Bot(b), id)) ==
            if rx == "" then []
            else if action == "BLOCK" then
              [Line("REQUEST_HEADERS:" + "User-Agent", "@rx " + rx, Denial(id, false, "Bot Shield: " + b.name + " blocked by policy"))]
            else if action == "CHALLENGE" then
              [Line("REQUEST_HEADERS:" + "User-Agent", "@rx " + rx, Denial(id, false, "Bot Challenge: " + b.name + " challenged"))]
            else if action == "ALLOW" then
              [Line("REQUEST_HEADERS:" + "User-Agent", "@rx " + rx, Passage(id, false, "msg:" + ['\''] + ("Bot Shield: " + b.name + " allowed") + ['\'']))]
            else []
  {
    hide TrimSpace, ToUpper, Line, Denial, Passage, PrintRule, PrintActions;
    var rx := TrimSpace(b.uaRegex);
    BotText(rx, id, Deny(BotBlocked(b.name)));
    BotText(rx, id, Deny(BotChallenged(b.name)));
    BotText(rx, id, Allow(BotAllowed(b.name)));
    DenialText(id, false, BotBlocked(b.name));
    DenialText(id, false, BotChallenged(b.name));
    PassageText(id, false, Allow(BotAllowed(b.name)));
  }

  lemma BotText(rx: string, id: nat, a: Action)
    ensures PrintAll([SecRule(UserAgent, Rx(rx), id, false, a)]) == [Line("REQUEST_HEADERS:" + "User-Agent", "@rx " + rx, PrintActions(id, false, a))]
    ensures PrintAll([]) == []
  {
    hide Line, PrintRule, PrintActions;
    RuleText(PrintTarget(UserAgent), PrintTest(Rx(rx)), PrintActions(id, false, a));
    PrintedOne(SecRule(UserAgent, Rx(rx), id, false, a));
  }

  lemma IndicatorLines(i: IndicatorRow, id: nat)
    ensures var ind, kind := TrimSpace(i.indicator), ToUpper(TrimSpace(i.kind));
            PrintAll(Emit(Indicator(i), id)) ==
            if ind == "" then []
            else if kind == "IP" || kind == "CIDR" then
              [Line("REMOTE_ADDR", "@ipMatch " + ind,
                    Denial(id, false, "Threat Intel IOC Block: " + i.category + " (Confidence " + Decimal(i.confidence) + "%)"))]
            else if kind == "DOMAIN" then
              [Line("REQUEST_HEADERS:" + "Host", "@streq " + ind, Denial(id, false, "Threat Intel Malicious Domain Block: " + ind))]
            else []
  {
    hide TrimSpace, ToUpper, Line, Denial, PrintRule, PrintActions, Decimal;
    var ind := TrimSpace(i.indicator);
    var listed, domain := Deny(AddressListed(i.category, i.confidence)), Deny(DomainListed(ind));
    RuleText(PrintTarget(RemoteAddr), PrintTest(IpMatch(ind)), PrintActions(id, false, listed));
    RuleText(PrintTarget(Host), PrintTest(StrEq(ind)), PrintActions(id, false, domain));
    DenialText(id, false, AddressListed(i.category, i.confidence));
    DenialText(id, false, DomainListed(ind));
    PrintedOne(SecRule(RemoteAddr, IpMatch(ind), id, false, listed));
    PrintedOne(SecRule(Host, StrEq(ind), id, false, domain));
  }

  /** What an exception takes out. */
  function RemovalWords(scope: string, target: string, param: string, header: string): string {
    if scope == "TARGET" && param != "" then "ctl:ruleRemoveTargetById=" + (target + [';'] + "ARGS:" + param)
    else if scope == "TARGET" && header != "" then "ctl:ruleRemoveTargetById=" + (target + [';'] + "REQUEST_HEADERS:" + header)
    else "ctl:ruleRemoveById=" + target
  }

  lemma ExceptionLines(e: ExceptionRow, id: nat)
    ensures var target, path, verb := TrimPrefix(TrimSpace(e.targetRule), "CRS-"), TrimSpace(e.path), TrimSpace(ToUpper(e.verb));
            var scope := ToUpper(TrimSpace(e.scope));
            PrintAll(Emit(Exempt(e), id)) ==
            if scope == "GLOBAL" then ["SecRuleRemoveById " + target]
            else [Line("REQUEST_URI", "@beginsWith " + path,
                       Passage(id, !(verb == "" || verb == "ANY"), RemovalWords(scope, target, TrimSpace(e.param), TrimSpace(e.header))))]
                 + VerbLine(verb)
  {
    hide TrimSpace, ToUpper, TrimPrefix, Line, Passage, PrintActions, PrintAll, Scoped, RemovalWords;
    var path, verb := TrimSpace(e.path), CleanVerb(e.verb);
    var a := Remove(RemovalOf(e));
    ScopedText(path, verb, id, a);
    PassageText(id, !(verb == "" || verb == "ANY"), a);
    RemovalItemText(e);
    GlobalText(RuleTarget(e.targetRule));
  }

  lemma GlobalText(target: string)
    ensures PrintAll([RemoveById(target)]) == ["SecRuleRemoveById " + target]
  {
    PrintedOne(RemoveById(target));
  }

  lemma RemovalItemText(e: ExceptionRow)
    ensures ActionItems(Remove(RemovalOf(e))) ==
            [PASS, NO_LOG,
             RemovalWords(ToUpper(TrimSpace(e.scope)), TrimPrefix(TrimSpace(e.targetRule), "CRS-"), TrimSpace(e.param), TrimSpace(e.header))]
  {
    hide TrimSpace, ToUpper, TrimPrefix, REMOVE_RULE, REMOVE_TARGET, ARGS, HEADERS, PASS, NO_LOG;
    RemovalConstants();
  }

  lemma RemovalConstants()
    ensures REMOVE_RULE == "ctl:ruleRemoveById=" && REMOVE_TARGET == "ctl:ruleRemoveTargetById=" && ARGS == "ARGS:" && HEADERS == "REQUEST_HEADERS:"
  {
  }

  /** The families start at these ids. */
  lemma FirstIds()
    ensures (FIRST_IP_ID, FIRST_EXCEPTION_ID, FIRST_GEO_ID, FIRST_ENDPOINT_ID, FIRST_BOT_ID, FIRST_INDICATOR_ID) ==
            (10001, 20001, 30001, 50001, 60001, 70001)
  {
  }

  // ---------------------------------------------------------------- the other lines

  lemma DlpLine(r: DlpRow)
    ensures PrintDlp(r) ==
            Line("RESPONSE_BODY", "@rx " + r.regex,
                 "id:" + Decimal(r.ruleID) + ",phase:4,deny,status:502,msg:'DLP Violation: " + r.name + " detected in outbound response body'")
  {
    hide Line, Decimal, PrintRule;
    RuleText(RESPONSE_BODY, RX + r.regex,
             ID + Decimal(r.ruleID) + ",phase:4,deny,status:502,msg:'DLP Violation: " + r.name + " detected in outbound response body'");
  }

  lemma LearnerText()
    ensures LEARNER == Line("REQUEST_URI", "@rx ^/", "id:1000" + "," + "phase:1" + "," + "pass" + "," + "nolog" + "," + "auditlog")
  {
    hide Line, PrintRule, Join, LEARNER_ITEMS;
    LearnerJoined();
    RuleText("REQUEST_URI", "@rx ^/", Join(LEARNER_ITEMS, ","));
  }

  /** The order of precedence, at one rule a block. */
  lemma BlocksInOrder(ip: string, geo: string, endpoint: string, bot: string, indicator: string, exception: string, custom: string,
                      cve: string, base: string, dlp: string)
    ensures AssembledText(Sections([ip], [geo], [endpoint], [bot], [indicator], [exception], [custom], [cve], base, [dlp])) ==
            ip + "\n" + (geo + "\n" + (endpoint + "\n" + (bot + "\n" + (indicator + "\n" + (exception + "\n" + (custom + "\n" + (cve + "\n"
            + (base + "\n" + ("SecResponseBodyAccess On" + "\n" + ("SecResponseBodyMimeType" + " text/plain text/html" + " text/xml" + " application/json"))
               + "\n" + dlp))))))))
  {
  }

  /** An empty block leaves nothing behind, not even its line break. */
  lemma EmptyBlocksVanish(base: string)
    ensures AssembledText(Sections([], [], [], [], [], [], [], [], base, [])) == base
  {
  }
}
