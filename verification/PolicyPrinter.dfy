/** The SecLang line of a directive (the format strings of `syncDynamicWAFRules` in
    management-plane/main.go). */
module PolicyPrinter {
  import opened Strings
  import opened PolicyCompiler

  function Decimal(n: nat): (s: string)
    ensures Digits(s)
  {
    if n < 10 then [('0' as int + n) as char] else Decimal(n / 10) + [('0' as int + n % 10) as char]
  }

  function Quoted(s: string): string {
    ['"'] + s + ['"']
  }

  // ---------------------------------------------------------------- messages

  const CLIENT_IP := "Client IP "
  const BY_SOC := " explicitly blocked by SOC"
  const GEO_DENIED := "Geo-IP Access Denied for Country "
  const API_ENDPOINT := "API Endpoint "
  const API := "API "
  const BY_ALLOWLIST := " blocked by API Allowlist Policy"
  const BOT_SHIELD := "Bot Shield: "
  const BOT_CHALLENGE := "Bot Challenge: "
  const BY_POLICY := " blocked by policy"
  const CHALLENGED := " challenged"
  const ALLOWED := " allowed"
  const IOC_BLOCK := "Threat Intel IOC Block: "
  const CONFIDENCE := " (Confidence "
  const PERCENT := "%)"
  const DOMAIN_BLOCK := "Threat Intel Malicious Domain Block: "

  function PrintMessage(m: Message): string {
    match m
    case IPBlocked(ip) => CLIENT_IP + ip + BY_SOC
    case CountryDenied(country) => GEO_DENIED + country
    case PathBlocked(path) => API_ENDPOINT + path + BY_ALLOWLIST
    case EndpointBlocked(verb, path) => API + verb + " " + path + BY_ALLOWLIST
    case BotBlocked(name) => BOT_SHIELD + name + BY_POLICY
    case BotChallenged(name) => BOT_CHALLENGE + name + CHALLENGED
    case BotAllowed(name) => BOT_SHIELD + name + ALLOWED
    case AddressListed(category, confidence) => IOC_BLOCK + category + CONFIDENCE + Decimal(confidence) + PERCENT
    case DomainListed(domain) => DOMAIN_BLOCK + domain
    case Text(text) => text
  }

  // ---------------------------------------------------------------- the parts of a rule

  const HEADERS := "REQUEST_HEADERS:"
  const VERB_TARGET := "REQUEST_METHOD"

  function PrintTarget(t: Target): string {
    match t
    case RemoteAddr => "REMOTE_ADDR"
    case RequestUri => "REQUEST_URI"
    case Country => HEADERS + "CF-IPCountry" + "|" + HEADERS + "X-Country-Code"
    case UserAgent => HEADERS + "User-Agent"
    case Host => HEADERS + "Host"
  }

  const IP_MATCH := "@ipMatch "
  const STR_EQ := "@streq "
  const BEGINS_WITH := "@beginsWith "
  const RX := "@rx "

  function PrintTest(t: Test): string {
    match t
    case IpMatch(arg) => IP_MATCH + arg
    case StrEq(arg) => STR_EQ + arg
    case BeginsWith(arg) => BEGINS_WITH + arg
    case Rx(arg) => RX + arg
  }

  const ID := "id:"
  const PHASE_ONE := "phase:1"
  const CHAIN := "chain"
  const DENY := "deny"
  const STATUS := "status:403"
  const PASS := "pass"
  const NO_LOG := "nolog"
  const MESSAGE := "msg:"
  const REMOVE_RULE := "ctl:ruleRemoveById="
  const REMOVE_TARGET := "ctl:ruleRemoveTargetById="
  const ARGS := "ARGS:"
  const NO_TRANSFORM := "t:none"

  function MessageItem(text: string): string {
    MESSAGE + ['\''] + text + ['\'']
  }

  /** The value of a removal action. */
  function RemovalText(r: Removal): string {
    match r
    case RemoveRule(rule) => rule
    case RemoveArg(rule, param) => rule + [';'] + ARGS + param
    case RemoveHeader(rule, header) => rule + [';'] + HEADERS + header
  }

  function ActionItems(a: Action): seq<string> {
    match a
    case Deny(msg) => [DENY, STATUS, MessageItem(PrintMessage(msg))]
    case Allow(msg) => [PASS, NO_LOG, MessageItem(PrintMessage(msg))]
    case Remove(r) => [PASS, NO_LOG, (if r.RemoveRule? then REMOVE_RULE else REMOVE_TARGET) + RemovalText(r)]
  }

  function PrintActions(id: nat, chain: bool, action: Action): string {
    Join([ID + Decimal(id), PHASE_ONE] + (if chain then [CHAIN] else []) + ActionItems(action), ",")
  }

  const RULE := "SecRule "
  const REMOVAL := "SecRuleRemoveById "

  function PrintRule(target: string, test: string, actions: string): string {
    RULE + target + " " + Quoted(test) + " " + Quoted(actions)
  }

  function Print(d: Directive): string {
    match d
    case SecRule(target, test, id, chain, action) =>
      PrintRule(PrintTarget(target), PrintTest(test), PrintActions(id, chain, action))
    case ChainTail(verb) => PrintRule(VERB_TARGET, PrintTest(StrEq(verb)), NO_TRANSFORM)
    case RemoveById(rule) => REMOVAL + rule
    case Raw(text) => text
  }

  function PrintAll(ds: seq<Directive>): (texts: seq<string>)
    ensures |texts| == |ds| && forall i | 0 <= i < |ds| :: texts[i] == Print(ds[i])
  {
    seq(|ds|, i requires 0 <= i < |ds| => Print(ds[i]))
  }
}
