/** Reading a generated SecLang line back as the rule engine does, and exactly when a directive, and
    the row it comes from, survives being printed. */
module PolicyReader {
  import opened Wrappers
  import opened Strings
  import opened PolicyCompiler
  import opened PolicyPrinter
  import opened PolicyText
  import opened SecLang

  // ---------------------------------------------------------------- the reader

  function Value(s: string): nat
    requires Digits(s)
  {
    var n := |s| - 1;
    var last := s[n] as int - '0' as int;
    if n == 0 then last
    else
      assert Digits(s[..n]);
      Value(s[..n]) * 10 + last
  }

  /** What follows the head. */
  function After(s: string, head: string): (rest: Option<string>)
    ensures rest.Some? <==> HasPrefix(s, head)
    ensures rest.Some? ==> s == head + rest.value
  {
    if HasPrefix(s, head) then Some(s[|head|..]) else None
  }

  function ReadTarget(s: string): Option<Target> {
    if s == ADDRESS then Some(RemoteAddr)
    else if s == URI then Some(RequestUri)
    else if s == HEADER + COUNTRY_HEADER + "|" + HEADER + COUNTRY_CODE_HEADER then Some(Country)
    else if s == HEADER + USER_AGENT_HEADER then Some(UserAgent)
    else if s == HEADER + HOST_HEADER then Some(Host)
    else None
  }

  function ReadTest(s: string): Option<Test> {
    match (After(s, IP_MATCH_OPERATOR), After(s, STR_EQ_OPERATOR), After(s, BEGINS_WITH_OPERATOR), After(s, RX_OPERATOR))
    case (Some(arg), _, _, _) => Some(IpMatch(arg))
    case (_, Some(arg), _, _) => Some(StrEq(arg))
    case (_, _, Some(arg), _) => Some(BeginsWith(arg))
    case (_, _, _, Some(arg)) => Some(Rx(arg))
    case _ => None
  }

  function ReadId(item: string): Option<nat> {
    match After(item, ID_ACTION)
    case Some(n) => if Digits(n) && Decimal(Value(n)) == n then Some(Value(n)) else None
    case None => None
  }

  /** A message stands in apostrophes. */
  function ReadMessage(item: string): Option<Message> {
    match After(item, MESSAGE_ACTION)
    case Some(m) =>
      if |m| > 1 && m[0] == '\'' && m[|m| - 1] == '\'' && Apostrophable(m[1..|m| - 1]) then Some(Text(m[1..|m| - 1])) else None
    case None => None
  }

  function ReadPart(rule: string, part: string): Option<Removal> {
    match (After(part, ARGS_COLLECTION), After(part, HEADER))
    case (Some(param), _) => Some(RemoveArg(rule, param))
    case (_, Some(header)) => Some(RemoveHeader(rule, header))
    case _ => None
  }

  /** A removal stands without apostrophes. */
  function ReadRemoval(item: string): Option<Removal> {
    match (After(item, REMOVE_RULE_ACTION), After(item, REMOVE_TARGET_ACTION))
    case (Some(rule), _) => if Unbroken(rule) then Some(RemoveRule(rule)) else None
    case (_, Some(v)) =>
      var j := IndexOf(v, ';');
      if j == |v| || !Unbroken(v) then None else ReadPart(v[..j], v[j + 1..])
    case _ => None
  }

  function ReadAction(items: seq<string>): Option<Action> {
    if |items| != 3 then None
    else if items[..2] == [DENY_ACTION, STATUS_ACTION] then
      match ReadMessage(items[2]) case Some(msg) => Some(Deny(msg)) case None => None
    else if items[..2] == [PASS_ACTION, NO_LOG_ACTION] then
      match (ReadMessage(items[2]), ReadRemoval(items[2]))
      case (Some(msg), _) => Some(Allow(msg))
      case (_, Some(removal)) => Some(Remove(removal))
      case _ => None
    else None
  }

  datatype Actions = Actions(id: nat, chain: bool, action: Action)

  function ReadItems(items: seq<string>): Option<Actions> {
    if |items| < 3 || items[1] != PHASE_ACTION then None
    else
      var chain := items[2] == CHAIN_ACTION;
      match (ReadId(items[0]), ReadAction(if chain then items[3..] else items[2..]))
      case (Some(id), Some(action)) => Some(Actions(id, chain, action))
      case _ => None
  }

  function ReadActions(s: string): Option<Actions> {
    ReadItems(Items(s))
  }

  const OPENING := " \""

  /** The next quoted field, after a blank. */
  function NextField(s: string): Option<(string, string)> {
    match After(s, OPENING)
    case Some(rest) => ReadQuoted(rest)
    case None => None
  }

  /** The target up to the first blank, the test and the actions. */
  function ReadFields(line: string): Option<(string, string, string)> {
    match After(line, RULE_WORD)
    case None => None
    case Some(s) =>
      var j := IndexOf(s, ' ');
      match NextField(s[j..])
      case None => None
      case Some((test, rest)) =>
        match NextField(rest)
        case Some((actions, end)) => if end == "" then Some((s[..j], test, actions)) else None
        case None => None
  }

  function ReadRule(target: string, test: string, actions: string): Option<Directive> {
    if target == VERB then
      match ReadTest(test)
      case Some(StrEq(verb)) => if actions == NO_TRANSFORM_ACTION then Some(ChainTail(verb)) else None
      case _ => None
    else match (ReadTarget(target), ReadTest(test), ReadActions(actions))
      case (Some(t), Some(o), Some(Actions(id, chain, action))) => Some(SecRule(t, o, id, chain, action))
      case _ => None
  }

  function ReadLine(line: string): Option<Directive> {
    match After(line, REMOVAL_WORD)
    case Some(rule) => Some(RemoveById(rule))
    case None =>
      match ReadFields(line)
      case Some((target, test, actions)) => ReadRule(target, test, actions)
      case None => None
  }

  // ---------------------------------------------------------------- what survives printing

  /** The action as it reads back: messages are text. */
  function AsReadAction(a: Action): Action {
    match a
    case Deny(msg) => Deny(Text(PrintMessage(msg)))
    case Allow(msg) => Allow(Text(PrintMessage(msg)))
    case Remove(_) => a
  }

  function AsRead(d: Directive): Directive {
    if d.SecRule? then d.(action := AsReadAction(d.action)) else d
  }

  /** The action list reads back. */
  predicate Legible(a: Action) {
    match a
    case Deny(msg) => Apostrophable(PrintMessage(msg))
    case Allow(msg) => Apostrophable(PrintMessage(msg))
    case Remove(r) => Unbroken(RemovalText(r)) && (r.RemoveRule? || ';' !in r.rule)
  }

  /** The text of the action that varies. */
  function VariableText(a: Action): string {
    match a
    case Deny(msg) => PrintMessage(msg)
    case Allow(msg) => PrintMessage(msg)
    case Remove(r) => RemovalText(r)
  }

  /** The field of quotes the text stands in keeps it, and the line is not broken. */
  predicate PlainTest(s: string) {
    '\n' !in s && Quotable(s)
  }

  predicate PlainAction(a: Action) {
    && Legible(a)
    && '\n' !in VariableText(a)
    && if a.Remove? then Quotable(VariableText(a)) else '"' !in VariableText(a)
  }

  predicate PlainDirective(d: Directive) {
    match d
    case SecRule(_, test, _, _, action) => PlainTest(test.arg) && PlainAction(action)
    case ChainTail(verb) => PlainTest(verb)
    case RemoveById(rule) => rule != "" && '\n' !in rule && !IsSpace(rule[|rule| - 1]) && rule[|rule| - 1] != '\\'
    case Raw(_) => false
  }

  /** The printed directive is one line that the next does not continue, and reads back. */
  predicate Survives(d: Directive) {
    && CleanLines(Print(d)) == [Print(d)] && Print(d) != ""
    && Print(d)[|Print(d)| - 1] != '\\'
    && ReadLine(Print(d)) == Some(AsRead(d))
  }

  // ---------------------------------------------------------------- constants

  /** The printer writes the words the engine reads. */
  lemma EngineWords()
    ensures RULE == RULE_WORD && REMOVAL == REMOVAL_WORD && VERB_TARGET == VERB && NO_TRANSFORM == NO_TRANSFORM_ACTION
    ensures IP_MATCH == IP_MATCH_OPERATOR && STR_EQ == STR_EQ_OPERATOR && BEGINS_WITH == BEGINS_WITH_OPERATOR && RX == RX_OPERATOR
    ensures ID == ID_ACTION && PHASE_ONE == PHASE_ACTION && CHAIN == CHAIN_ACTION && DENY == DENY_ACTION && STATUS == STATUS_ACTION
    ensures PASS == PASS_ACTION && NO_LOG == NO_LOG_ACTION && MESSAGE == MESSAGE_ACTION
    ensures REMOVE_RULE == REMOVE_RULE_ACTION && REMOVE_TARGET == REMOVE_TARGET_ACTION && ARGS == ARGS_COLLECTION && HEADERS == HEADER
  {
  }

  lemma EngineTargets()
    ensures PrintTarget(RemoteAddr) == ADDRESS && PrintTarget(RequestUri) == URI
    ensures PrintTarget(Country) == HEADER + COUNTRY_HEADER + "|" + HEADER + COUNTRY_CODE_HEADER
    ensures PrintTarget(UserAgent) == HEADER + USER_AGENT_HEADER && PrintTarget(Host) == HEADER + HOST_HEADER
  {
  }

  /** Nothing in the text means anything to SecLang. */
  predicate Sober(s: string) {
    forall c | c in s :: c !in {'"', '\'', '\\', ',', '\n'}
  }

  lemma SoberConcat(a: string, b: string)
    requires Sober(a) && Sober(b)
    ensures Sober(a + b)
  {
  }

  lemma SoberTests()
    ensures Sober(IP_MATCH) && Sober(STR_EQ) && Sober(BEGINS_WITH) && Sober(RX)
  {
  }

  lemma SoberTargets(t: Target)
    ensures Sober(PrintTarget(t)) && ' ' !in PrintTarget(t)
  {
    hide HEADERS, HEADER;
    SoberHeaders();
    match t
    case RemoteAddr =>
    case RequestUri =>
    case Country => SoberCountry();
    case UserAgent =>
    case Host =>
  }

  lemma SoberCountry()
    ensures Sober(PrintTarget(Country)) && ' ' !in PrintTarget(Country)
  {
    hide HEADERS, HEADER;
    SoberHeaders();
    assert Sober("CF-IPCountry") && ' ' !in "CF-IPCountry";
    assert Sober("X-Country-Code") && ' ' !in "X-Country-Code";
  }

  lemma SoberHeaders()
    ensures Sober(HEADERS) && ' ' !in HEADERS && ';' !in HEADERS && |HEADERS| == 16 && HEADERS[0] == 'R'
  {
  }

  lemma SoberItems()
    ensures Sober(ID) && Sober(PHASE_ONE) && Sober(CHAIN) && Sober(DENY) && Sober(STATUS) && Sober(PASS) && Sober(NO_LOG) && Sober(MESSAGE)
  {
  }

  lemma DistinctItems()
    ensures DENY != PASS && CHAIN != DENY && CHAIN != PASS && MESSAGE != "" && MESSAGE[0] == 'm'
  {
    assert CHAIN[0] == 'c' && DENY[0] == 'd' && PASS[0] == 'p';
  }

  lemma SoberRemovals()
    ensures Sober(REMOVE_RULE) && Sober(REMOVE_TARGET) && REMOVE_RULE != "" && REMOVE_TARGET != ""
    ensures REMOVE_RULE[0] == 'c' && REMOVE_TARGET[0] == 'c'
    ensures |REMOVE_RULE| > 14 && |REMOVE_TARGET| > 14 && REMOVE_RULE[14] == 'B' && REMOVE_TARGET[14] == 'T'
  {
  }

  lemma SoberArgs()
    ensures Sober(ARGS) && ARGS != "" && ARGS[0] == 'A'
  {
  }

  lemma SoberRule()
    ensures |RULE| == 8 && RULE[0] == 'S' && RULE[7] == ' ' && Sober(RULE)
    ensures |REMOVAL| == 18 && REMOVAL[0] == 'S' && REMOVAL[7] == 'R' && REMOVAL[17] == ' ' && Sober(REMOVAL)
    ensures Sober(VERB_TARGET) && ' ' !in VERB_TARGET && |VERB_TARGET| == 14
    ensures Sober(NO_TRANSFORM)
  {
  }

  lemma SoberDecimal(n: nat)
    ensures Sober(Decimal(n))
  {
    hide Decimal;
  }

  // ---------------------------------------------------------------- targets, tests and ids

  lemma {:induction false} ValueOfDecimal(n: nat)
    ensures Value(Decimal(n)) == n
  {
    if n < 10 {
    } else {
      ValueOfDecimal(n / 10);
      assert Decimal(n)[..|Decimal(n)| - 1] == Decimal(n / 10);
    }
  }

  lemma AfterOwn(head: string, rest: string)
    ensures After(head + rest, head) == Some(rest)
  {
  }

  lemma AfterOther(s: string, head: string, i: nat)
    requires i < |head| && (i < |s| ==> s[i] != head[i])
    ensures After(s, head) == None
  {
  }

  lemma TargetReads(t: Target)
    ensures ReadTarget(PrintTarget(t)) == Some(t)
    ensures PrintTarget(t) != VERB_TARGET
  {
    EngineTargets();
    hide HEADERS, HEADER, COUNTRY_HEADER, COUNTRY_CODE_HEADER, USER_AGENT_HEADER, HOST_HEADER, ADDRESS, URI;
    SoberHeaders();
    TargetLengths(t);
    TargetLengths(RemoteAddr);
    TargetLengths(RequestUri);
    TargetLengths(Country);
    TargetLengths(UserAgent);
    TargetLengths(Host);
    SoberRule();
    hide PrintTarget, VERB_TARGET, VERB;
  }

  lemma TargetLengths(t: Target)
    ensures |PrintTarget(t)| == match t case RemoteAddr => 11 case RequestUri => 11 case Country => 59 case UserAgent => 26 case Host => 20
    ensures t.RemoteAddr? ==> PrintTarget(t)[2] == 'M'
    ensures t.RequestUri? ==> PrintTarget(t)[2] == 'Q'
  {
    hide HEADERS, HEADER;
    SoberHeaders();
  }

  lemma TestReads(t: Test)
    ensures ReadTest(PrintTest(t)) == Some(t)
  {
    var s := PrintTest(t);
    match t
    case IpMatch(arg) => AfterOwn(IP_MATCH, arg);
    case StrEq(arg) =>
      AfterOwn(STR_EQ, arg);
      AfterOther(s, IP_MATCH, 1);
    case BeginsWith(arg) =>
      AfterOwn(BEGINS_WITH, arg);
      AfterOther(s, IP_MATCH, 1);
      AfterOther(s, STR_EQ, 1);
    case Rx(arg) =>
      AfterOwn(RX, arg);
      AfterOther(s, IP_MATCH, 1);
      AfterOther(s, STR_EQ, 1);
      AfterOther(s, BEGINS_WITH, 1);
  }

  /** Only the printed test reads as the test. */
  lemma TestIsPrinted(s: string)
    ensures ReadTest(s).Some? ==> s == PrintTest(ReadTest(s).value)
  {
    EngineWords();
    hide IP_MATCH, STR_EQ, BEGINS_WITH, RX, IP_MATCH_OPERATOR, STR_EQ_OPERATOR, BEGINS_WITH_OPERATOR, RX_OPERATOR;
  }

  // ---------------------------------------------------------------- actions

  function PrintedItems(id: nat, chain: bool, a: Action): seq<string> {
    [ID + Decimal(id), PHASE_ONE] + (if chain then [CHAIN] else []) + ActionItems(a)
  }

  lemma MessageReads(text: string)
    ensures ReadMessage(MessageItem(text)) == if Apostrophable(text) then Some(Text(text)) else None
  {
    hide Apostrophable;
    var m := ['\''] + text + ['\''];
    assert MessageItem(text) == MESSAGE + m;
    AfterOwn(MESSAGE, m);
    assert m[1..|m| - 1] == text;
  }

  lemma MessageIsPrinted(item: string)
    ensures ReadMessage(item).Some? ==> ReadMessage(item).value.Text? && item == MessageItem(ReadMessage(item).value.text)
  {
    EngineWords();
    hide MESSAGE, Apostrophable, MESSAGE_ACTION;
    if ReadMessage(item).Some? {
      var m := After(item, MESSAGE).value;
      assert m == ['\''] + m[1..|m| - 1] + ['\''];
    }
  }

  function RemovalItem(r: Removal): string {
    (if r.RemoveRule? then REMOVE_RULE else REMOVE_TARGET) + RemovalText(r)
  }

  lemma RemovalReads(r: Removal)
    ensures ReadRemoval(RemovalItem(r)) == Some(r) <==> Legible(Remove(r))
  {
    EngineWords();
    hide REMOVE_RULE, REMOVE_TARGET, RemovalText, Unbroken, ReadPart, IndexOf, REMOVE_RULE_ACTION, REMOVE_TARGET_ACTION;
    SoberRemovals();
    hide Sober;
    var v := RemovalText(r);
    if r.RemoveRule? {
      AfterOwn(REMOVE_RULE, v);
      RuleText(r.rule);
    } else {
      AfterOwn(REMOVE_TARGET, v);
      AfterOther(RemovalItem(r), REMOVE_RULE, 14);
      PartOfRemoval(r);
    }
  }

  lemma RuleText(rule: string)
    ensures RemovalText(RemoveRule(rule)) == rule
  {
  }

  lemma PartOfRemoval(r: Removal)
    requires !r.RemoveRule?
    ensures var v := RemovalText(r);
            var j := IndexOf(v, ';');
            j < |v| && (ReadPart(v[..j], v[j + 1..]) == Some(r) <==> ';' !in r.rule)
  {
    hide HEADERS, ARGS, ReadPart, HEADER, ARGS_COLLECTION;
    var v := RemovalText(r);
    var part := if r.RemoveArg? then ARGS + r.param else HEADERS + r.header;
    assert v == r.rule + [';'] + part;
    assert v[|r.rule|] == ';';
    var j := IndexOf(v, ';');
    assert v[..|v|] == v;
    if ';' !in r.rule {
      IndexOfUnique(r.rule, ';', part);
      assert v[..j] == r.rule && v[j + 1..] == part;
      PartReads(r, part);
    } else {
      PartRule(v[..j], v[j + 1..]);
    }
  }

  lemma PartReads(r: Removal, part: string)
    requires (r.RemoveArg? && part == ARGS + r.param) || (r.RemoveHeader? && part == HEADERS + r.header)
    ensures ReadPart(r.rule, part) == Some(r)
  {
    EngineWords();
    hide ARGS, HEADERS, ARGS_COLLECTION, HEADER;
    SoberHeaders();
    SoberArgs();
    if r.RemoveArg? {
      AfterOwn(ARGS, r.param);
    } else {
      AfterOwn(HEADERS, r.header);
      AfterOther(part, ARGS, 0);
    }
  }

  lemma PartRule(rule: string, part: string)
    ensures ReadPart(rule, part).Some? ==> ReadPart(rule, part).value.rule == rule
  {
  }

  lemma RemovalIsPrinted(item: string)
    ensures ReadRemoval(item).Some? ==> item == RemovalItem(ReadRemoval(item).value)
  {
    EngineWords();
    hide REMOVE_RULE, REMOVE_TARGET, HEADERS, ARGS, Unbroken, REMOVE_RULE_ACTION, REMOVE_TARGET_ACTION, HEADER, ARGS_COLLECTION;
    if ReadRemoval(item).Some? && After(item, REMOVE_RULE).None? {
      var v := After(item, REMOVE_TARGET).value;
      var j := IndexOf(v, ';');
      assert v == v[..j] + [';'] + v[j + 1..];
      PartIsPrinted(v[..j], v[j + 1..]);
    }
  }

  lemma PartIsPrinted(rule: string, part: string)
    ensures ReadPart(rule, part).Some? ==>
              !ReadPart(rule, part).value.RemoveRule? && RemovalText(ReadPart(rule, part).value) == rule + [';'] + part
  {
    EngineWords();
    hide HEADERS, ARGS, HEADER, ARGS_COLLECTION;
    if ReadPart(rule, part).Some? {
      var r := ReadPart(rule, part).value;
      assert RemovalText(r) == rule + [';'] + part;
    }
  }

  lemma ActionReads(a: Action)
    ensures ReadAction(ActionItems(a)) == Some(AsReadAction(a)) <==> Legible(a)
  {
    EngineWords();
    hide PrintMessage, MessageItem, RemovalText, Apostrophable, Unbroken, ReadMessage, ReadRemoval, DENY, STATUS, PASS, NO_LOG, DENY_ACTION, STATUS_ACTION, PASS_ACTION, NO_LOG_ACTION;
    DistinctItems();
    var items := ActionItems(a);
    match a
    case Deny(msg) =>
      assert items[..2] == [DENY, STATUS];
      MessageReads(PrintMessage(msg));
    case Allow(msg) =>
      assert items[..2] == [PASS, NO_LOG] && items[..2][0] != DENY;
      MessageReads(PrintMessage(msg));
      MessageIsNoRemoval(PrintMessage(msg));
    case Remove(r) =>
      assert items[..2] == [PASS, NO_LOG] && items[..2][0] != DENY && items[2] == RemovalItem(r);
      RemovalReads(r);
      RemovalIsNoMessage(r);
  }

  lemma MessageIsNoRemoval(text: string)
    ensures ReadRemoval(MessageItem(text)) == None
  {
    EngineWords();
    SoberRemovals();
    DistinctItems();
    hide MESSAGE, REMOVE_RULE, REMOVE_TARGET, MESSAGE_ACTION, REMOVE_RULE_ACTION, REMOVE_TARGET_ACTION;
    AfterOther(MessageItem(text), REMOVE_RULE, 0);
    AfterOther(MessageItem(text), REMOVE_TARGET, 0);
  }

  lemma RemovalIsNoMessage(r: Removal)
    ensures ReadMessage(RemovalItem(r)) == None
  {
    EngineWords();
    SoberRemovals();
    DistinctItems();
    hide MESSAGE, REMOVE_RULE, REMOVE_TARGET, RemovalText, MESSAGE_ACTION, REMOVE_RULE_ACTION, REMOVE_TARGET_ACTION;
    AfterOther(RemovalItem(r), MESSAGE, 0);
  }

  lemma ActionIsPrinted(items: seq<string>, a: Action)
    requires ReadAction(items) == Some(AsReadAction(a))
    ensures items == ActionItems(a)
  {
    EngineWords();
    hide PrintMessage, MessageItem, RemovalText, ReadMessage, ReadRemoval, DENY, STATUS, PASS, NO_LOG, DENY_ACTION, STATUS_ACTION, PASS_ACTION, NO_LOG_ACTION;
    MessageIsPrinted(items[2]);
    RemovalIsPrinted(items[2]);
    assert items == items[..2] + [items[2]];
  }

  lemma ItemsRead(id: nat, chain: bool, a: Action)
    ensures ReadItems(PrintedItems(id, chain, a)) == Some(Actions(id, chain, AsReadAction(a))) <==> Legible(a)
  {
    EngineWords();
    hide ReadAction, ReadId, ActionItems, AsReadAction, Legible, Decimal, ID, PHASE_ONE, CHAIN, ID_ACTION, PHASE_ACTION, CHAIN_ACTION;
    IdReads(id);
    ActionReads(a);
    FirstActionItem(a);
    var items := PrintedItems(id, chain, a);
    assert (if chain then items[3..] else items[2..]) == ActionItems(a);
  }

  lemma FirstActionItem(a: Action)
    ensures |ActionItems(a)| == 3 && ActionItems(a)[0] != CHAIN
  {
    DistinctItems();
  }

  lemma IdReads(id: nat)
    ensures ReadId(ID + Decimal(id)) == Some(id)
  {
    ValueOfDecimal(id);
    AfterOwn(ID, Decimal(id));
  }

  lemma ItemsArePrinted(items: seq<string>, id: nat, chain: bool, a: Action)
    requires ReadItems(items) == Some(Actions(id, chain, AsReadAction(a)))
    ensures items == PrintedItems(id, chain, a)
  {
    EngineWords();
    hide ReadAction, ActionItems, AsReadAction, Decimal, ID, PHASE_ONE, CHAIN, ID_ACTION, PHASE_ACTION, CHAIN_ACTION;
    ActionIsPrinted(if chain then items[3..] else items[2..], a);
    assert items == [items[0], items[1]] + (if chain then [items[2]] + items[3..] else items[2..]);
  }

  /** Cutting a legible action list gives its actions. */
  lemma PrintedItemsAreCut(id: nat, chain: bool, a: Action)
    requires Legible(a)
    ensures Items(PrintActions(id, chain, a)) == PrintedItems(id, chain, a)
  {
    hide ID, PHASE_ONE, CHAIN, ActionItems, Decimal, Items, Legible, Sober, ID_ACTION, PHASE_ACTION, CHAIN_ACTION;
    SoberItems();
    SoberDecimal(id);
    SoberConcat(ID, Decimal(id));
    ActionItemsAreCut(a);
    FirstActionItem(a);
    var rest := ActionItems(a);
    var tail := if chain then [CHAIN] + rest else rest;
    if chain {
      CutFirst(CHAIN, rest);
    }
    CutFirst(PHASE_ONE, tail);
    CutFirst(ID + Decimal(id), [PHASE_ONE] + tail);
    assert PrintedItems(id, chain, a) == [ID + Decimal(id)] + ([PHASE_ONE] + tail);
  }

  lemma CutFirst(item: string, rest: seq<string>)
    requires rest != [] && Sober(item) && Items(Join(rest, ",")) == rest
    ensures Items(Join([item] + rest, ",")) == [item] + rest
  {
    hide Items;
    assert ([item] + rest)[1..] == rest;
    assert Join([item] + rest, ",") == item + [','] + Join(rest, ",");
    SoberIsUnbroken(item);
    FirstItem(item, Join(rest, ","));
  }

  lemma SoberIsUnbroken(s: string)
    requires Sober(s)
    ensures Unbroken(s) && '\\' !in s && '"' !in s && '\n' !in s
  {
    forall i | 0 <= i < |s| ensures !Bare(s, i, ',') && !Bare(s, i, '\'') {
      assert s[i] in s;
    }
  }

  lemma ActionItemsAreCut(a: Action)
    requires Legible(a)
    ensures Items(Join(ActionItems(a), ",")) == ActionItems(a)
  {
    hide DENY, STATUS, PASS, NO_LOG, MESSAGE, PrintMessage, RemovalText, Items, Sober, Unbroken, Apostrophable, Join, DENY_ACTION, STATUS_ACTION, PASS_ACTION, NO_LOG_ACTION, MESSAGE_ACTION;
    SoberItems();
    var items := ActionItems(a);
    LastItemIsCut(a);
    CutFirst(items[1], [items[2]]);
    CutFirst(items[0], [items[1]] + [items[2]]);
    assert items == [items[0]] + ([items[1]] + [items[2]]);
  }

  lemma LastItemIsCut(a: Action)
    requires Legible(a)
    ensures Items(Join([ActionItems(a)[2]], ",")) == [ActionItems(a)[2]]
  {
    hide MESSAGE, REMOVE_RULE, REMOVE_TARGET, PrintMessage, RemovalText, Items, Sober, Unbroken, Apostrophable, MESSAGE_ACTION, REMOVE_RULE_ACTION, REMOVE_TARGET_ACTION;
    SoberItems();
    SoberRemovals();
    match a
    case Deny(msg) =>
      SoberIsUnbroken(MESSAGE);
      QuotedItem(MESSAGE, PrintMessage(msg));
    case Allow(msg) =>
      SoberIsUnbroken(MESSAGE);
      QuotedItem(MESSAGE, PrintMessage(msg));
    case Remove(r) =>
      var head := if r.RemoveRule? then REMOVE_RULE else REMOVE_TARGET;
      SoberIsUnbroken(head);
      UnbrokenConcat(head, RemovalText(r));
      UnbrokenItem(head + RemovalText(r));
  }

  /** An action list reads back exactly when it is legible. */
  lemma ActionsReadIff(id: nat, chain: bool, a: Action)
    ensures ReadActions(PrintActions(id, chain, a)) == Some(Actions(id, chain, AsReadAction(a))) <==> Legible(a)
  {
    hide Items, ReadItems, PrintedItems, Legible, AsReadAction, PrintActions;
    ItemsRead(id, chain, a);
    if Legible(a) {
      PrintedItemsAreCut(id, chain, a);
    }
    if ReadActions(PrintActions(id, chain, a)) == Some(Actions(id, chain, AsReadAction(a))) {
      ItemsArePrinted(Items(PrintActions(id, chain, a)), id, chain, a);
    }
  }

  /** Only the printed list reads as the list. */
  lemma ActionsArePrinted(s: string, id: nat, chain: bool, a: Action)
    requires ReadActions(s) == Some(Actions(id, chain, AsReadAction(a)))
    ensures s == PrintActions(id, chain, a)
  {
    hide Items, ReadItems, ActionItems, AsReadAction;
    ItemsArePrinted(Items(s), id, chain, a);
    ItemsJoin(s);
  }

  // ---------------------------------------------------------------- fields and lines

  /** Nothing but the varying text can hold a quote, a backslash or a line break. */
  lemma ActionsText(id: nat, chain: bool, a: Action)
    returns (head: string, tail: string)
    ensures PrintActions(id, chain, a) == head + VariableText(a) + tail && tail == if a.Remove? then "" else "'"
    ensures Quiet(head)
  {
    hide ID, PHASE_ONE, CHAIN, DENY, STATUS, PASS, NO_LOG, MESSAGE, REMOVE_RULE, REMOVE_TARGET, PrintMessage, RemovalText, Decimal, Sober, Quiet, Join, ID_ACTION, PHASE_ACTION, CHAIN_ACTION, DENY_ACTION, STATUS_ACTION, PASS_ACTION, NO_LOG_ACTION, MESSAGE_ACTION, REMOVE_RULE_ACTION, REMOVE_TARGET_ACTION;
    SoberItems();
    SoberRemovals();
    SoberDecimal(id);
    SoberConcat(ID, Decimal(id));
    var items := ActionItems(a);
    var first := [ID + Decimal(id), PHASE_ONE] + (if chain then [CHAIN] else []) + items[..2];
    assert items[..2] == [items[0], items[1]];
    forall item | item in first ensures Quiet(item) {
      SoberIsQuiet(item);
    }
    var all := JoinedBefore(first, items[2]);
    assert [ID + Decimal(id), PHASE_ONE] + (if chain then [CHAIN] else []) + items == first + [items[2]];
    var last;
    last, tail := LastItemText(a);
    head := all + last;
    QuietConcat(all, last);
    assert all + (last + VariableText(a) + tail) == head + VariableText(a) + tail;
  }

  /** No quote, no backslash and no line break. */
  predicate Quiet(s: string) {
    '"' !in s && '\\' !in s && '\n' !in s
  }

  lemma SoberIsQuiet(s: string)
    requires Sober(s)
    ensures Quiet(s)
  {
    SoberIsUnbroken(s);
  }

  lemma QuietConcat(a: string, b: string)
    requires Quiet(a) && Quiet(b)
    ensures Quiet(a + b)
  {
  }

  lemma LastItemText(a: Action) returns (last: string, tail: string)
    ensures ActionItems(a)[2] == last + VariableText(a) + tail
    ensures tail == (if a.Remove? then "" else "'") && Quiet(last)
  {
    hide MESSAGE, REMOVE_RULE, REMOVE_TARGET, PrintMessage, RemovalText, Sober, MESSAGE_ACTION, REMOVE_RULE_ACTION, REMOVE_TARGET_ACTION;
    SoberItems();
    SoberRemovals();
    SoberIsQuiet(MESSAGE);
    SoberIsQuiet(REMOVE_RULE);
    SoberIsQuiet(REMOVE_TARGET);
    tail := if a.Remove? then "" else "'";
    last := match a case Remove(r) => if r.RemoveRule? then REMOVE_RULE else REMOVE_TARGET case _ => MESSAGE + ['\''];
  }

  lemma {:induction false} JoinedBefore(items: seq<string>, last: string) returns (head: string)
    requires forall item | item in items :: Quiet(item)
    ensures Join(items + [last], ",") == head + last && Quiet(head)
    decreases |items|
  {
    if items == [] {
      head := "";
      assert items + [last] == [last];
    } else {
      assert items[0] in items;
      var rest := JoinedBefore(items[1..], last);
      assert (items + [last])[1..] == items[1..] + [last];
      head := items[0] + "," + rest;
    }
  }

  lemma QuotableAfter(a: string, s: string)
    requires Quiet(a)
    ensures Quotable(a + s) <==> Quotable(s)
  {
    DanglingAfter(a, s);
  }

  /** The actions can stand in quotes exactly when the varying text holds no quote and, where it ends
      the field, does not end in a protecting backslash. */
  lemma ActionsQuotable(id: nat, chain: bool, a: Action)
    ensures Quotable(PrintActions(id, chain, a)) <==> if a.Remove? then Quotable(VariableText(a)) else '"' !in VariableText(a)
    ensures '\n' in PrintActions(id, chain, a) <==> '\n' in VariableText(a)
  {
    hide PrintActions, VariableText, Dangling;
    var head, tail := ActionsText(id, chain, a);
    assert head + VariableText(a) + tail == head + (VariableText(a) + tail);
    QuotableAfter(head, VariableText(a) + tail);
    if a.Remove? {
      assert VariableText(a) + tail == VariableText(a);
    } else {
      NotDangling(VariableText(a) + tail);
    }
  }

  lemma TestQuotable(t: Test)
    ensures Quotable(PrintTest(t)) <==> Quotable(t.arg)
    ensures '\n' in PrintTest(t) <==> '\n' in t.arg
  {
    hide IP_MATCH, STR_EQ, BEGINS_WITH, RX, Quotable, Sober, IP_MATCH_OPERATOR, STR_EQ_OPERATOR, BEGINS_WITH_OPERATOR, RX_OPERATOR;
    SoberTests();
    var head := match t case IpMatch(_) => IP_MATCH case StrEq(_) => STR_EQ case BeginsWith(_) => BEGINS_WITH case Rx(_) => RX;
    assert PrintTest(t) == head + t.arg;
    SoberIsQuiet(head);
    QuotableAfter(head, t.arg);
  }

  lemma FieldReads(field: string, rest: string)
    ensures NextField(" " + Quoted(field) + rest) == ReadQuoted(field + ['"'] + rest)
  {
    hide ReadQuoted;
    var s := " " + Quoted(field) + rest;
    assert s == OPENING + (field + ['"'] + rest);
    AfterOwn(OPENING, field + ['"'] + rest);
  }

  lemma TargetEnds(target: string, rest: string)
    requires ' ' !in target
    ensures var s := target + (" " + rest);
            IndexOf(s, ' ') == |target| && s[..|target|] == target && s[|target|..] == " " + rest
  {
    assert target + (" " + rest) == target + [' '] + rest;
    IndexOfUnique(target, ' ', rest);
  }

  /** The three fields of a rule read back exactly when both quoted ones can stand in quotes; when
      the first cannot, another text is read for it, and when the second cannot, for that. */
  lemma FieldsReadIff(target: string, test: string, actions: string)
    requires ' ' !in target
    ensures var r := ReadFields(PrintRule(target, test, actions));
            && (Quotable(test) && Quotable(actions) ==> r == Some((target, test, actions)))
            && (r.Some? && r.value.1 == test ==> Quotable(test))
            && (r.Some? && r.value.1 == test && r.value.2 == actions ==> Quotable(actions))
            && (r.Some? ==> r.value.0 == target)
  {
    EngineWords();
    hide RULE, Quotable, ReadQuoted, OPENING, NextField, IndexOf, RULE_WORD;
    var line := PrintRule(target, test, actions);
    var second := " " + Quoted(actions);
    var first := " " + Quoted(test) + second;
    var s := target + first;
    assert line == RULE + s;
    AfterOwn(RULE, s);
    TargetEnds(target, Quoted(test) + second);
    assert first == " " + (Quoted(test) + second);
    FieldReads(test, second);
    QuotedExact(test, second);
    assert second == " " + Quoted(actions) + "";
    FieldReads(actions, "");
    QuotedExact(actions, "");
  }

  lemma RuleIsNoRemoval(target: string, test: string, actions: string)
    ensures After(PrintRule(target, test, actions), REMOVAL) == None
  {
    SoberRule();
    hide RULE, REMOVAL, RULE_WORD, REMOVAL_WORD;
    var line := PrintRule(target, test, actions);
    assert line == RULE + (target + " " + Quoted(test) + " " + Quoted(actions));
    assert line[7] == RULE[7];
    AfterOther(line, REMOVAL, 7);
  }

  /** A rule reads back exactly when its fields can stand in quotes and its actions are legible. */
  lemma RuleReadsIff(t: Target, test: Test, id: nat, chain: bool, a: Action)
    ensures var d := SecRule(t, test, id, chain, a);
            ReadLine(Print(d)) == Some(AsRead(d)) <==> Quotable(PrintTest(test)) && Quotable(PrintActions(id, chain, a)) && Legible(a)
  {
    EngineWords();
    hide ReadFields, ReadTarget, ReadTest, ReadActions, PrintTarget, PrintTest, PrintActions, PrintRule, Quotable, Legible, AsReadAction;
    hide VERB_TARGET, REMOVAL, Sober, VERB, REMOVAL_WORD;
    TargetReads(t);
    SoberTargets(t);
    TestReads(test);
    ActionsReadIff(id, chain, a);
    RuleIsNoRemoval(PrintTarget(t), PrintTest(test), PrintActions(id, chain, a));
    FieldsReadIff(PrintTarget(t), PrintTest(test), PrintActions(id, chain, a));
    var d := SecRule(t, test, id, chain, a);
    if ReadLine(Print(d)) == Some(AsRead(d)) {
      var fields := ReadFields(Print(d)).value;
      TestIsPrinted(fields.1);
      ActionsArePrinted(fields.2, id, chain, a);
    }
  }

  lemma TailReadsIff(verb: string)
    ensures ReadLine(Print(ChainTail(verb))) == Some(ChainTail(verb)) <==> Quotable(PrintTest(StrEq(verb)))
  {
    EngineWords();
    hide ReadFields, ReadTarget, ReadTest, ReadActions, PrintTest, PrintRule, VERB_TARGET, REMOVAL, NO_TRANSFORM, Quotable, Sober, Dangling, VERB, REMOVAL_WORD, NO_TRANSFORM_ACTION;
    SoberRule();
    TestReads(StrEq(verb));
    SoberIsQuiet(NO_TRANSFORM);
    assert Quotable(NO_TRANSFORM) by {
      assert NO_TRANSFORM + "" == NO_TRANSFORM;
      QuotableAfter(NO_TRANSFORM, "");
      NothingDangles();
    }
    RuleIsNoRemoval(VERB_TARGET, PrintTest(StrEq(verb)), NO_TRANSFORM);
    FieldsReadIff(VERB_TARGET, PrintTest(StrEq(verb)), NO_TRANSFORM);
    if ReadLine(Print(ChainTail(verb))) == Some(ChainTail(verb)) {
      TestIsPrinted(ReadFields(Print(ChainTail(verb))).value.1);
    }
  }

  lemma NothingDangles()
    ensures Quotable("")
  {
  }

  // ---------------------------------------------------------------- lines

  lemma {:induction false} SplitHasNoBreak(s: string)
    ensures forall line | line in Split(s) :: '\n' !in line
    decreases |s|
  {
    var j := IndexOf(s, '\n');
    if j == |s| {
      assert s[..j] == s;
    } else {
      SplitHasNoBreak(s[j + 1..]);
    }
  }

  lemma {:induction false} TrimmedLines(lines: seq<string>)
    requires forall line | line in lines :: '\n' !in line
    ensures forall line | line in TrimAll(lines) :: line != "" && Trimmed(line) && '\n' !in line
    decreases |lines|
  {
    hide TrimSpace, Trimmed;
    if lines == [] {
    } else {
      var n := |lines| - 1;
      TrimmedLines(lines[..n]);
      TrimSpaceProps(lines[n]);
      TrimIsPart(lines[n]);
    }
  }

  lemma TrimIsPart(s: string)
    ensures forall c | c in TrimSpace(s) :: c in s
  {
    var l := TrimLeft(s);
    assert forall c | c in TrimRight(l) :: c in l;
    assert forall c | c in l :: c in s;
  }

  /** A text is its own only line exactly when it is a trimmed, non-blank line. */
  lemma OneLineIff(s: string)
    ensures CleanLines(s) == [s] <==> s != "" && '\n' !in s && Trimmed(s)
  {
    hide TrimAll, Split, Trimmed;
    if s != "" && '\n' !in s && Trimmed(s) {
      OneLine(s);
    }
    SplitHasNoBreak(s);
    TrimmedLines(Split(s));
    if CleanLines(s) == [s] {
      assert s in CleanLines(s);
    }
  }

  lemma RuleLine(target: string, test: string, actions: string)
    requires Sober(target)
    ensures var line := PrintRule(target, test, actions);
            && (CleanLines(line) == [line] <==> '\n' !in test && '\n' !in actions)
            && line != "" && line[|line| - 1] == '"'
  {
    hide RULE, CleanLines, RULE_WORD;
    SoberRule();
    var line := PrintRule(target, test, actions);
    assert line[0] == 'S' && line[|line| - 1] == '"';
    SoberIsUnbroken(target);
    SoberIsUnbroken(RULE);
    hide Sober, Unbroken;
    assert '\n' in line <==> '\n' in test || '\n' in actions;
    OneLineIff(line);
  }

  /** The exact condition under which a directive survives being printed. */
  lemma SurvivesIffPlain(d: Directive)
    ensures Survives(d) <==> PlainDirective(d)
  {
    hide CleanLines, ReadLine, PrintTarget, PrintTest, PrintActions, PrintRule, Quotable, Legible, VariableText, AsReadAction, REMOVAL, REMOVAL_WORD;
    match d
    case SecRule(t, test, id, chain, a) =>
      SoberTargets(t);
      RuleLine(PrintTarget(t), PrintTest(test), PrintActions(id, chain, a));
      RuleReadsIff(t, test, id, chain, a);
      TestQuotable(test);
      ActionsQuotable(id, chain, a);
    case ChainTail(verb) =>
      assert AsRead(d) == d;
      SoberRule();
      RuleLine(VERB_TARGET, PrintTest(StrEq(verb)), NO_TRANSFORM);
      SoberIsUnbroken(NO_TRANSFORM);
      TailReadsIff(verb);
      TestQuotable(StrEq(verb));
    case RemoveById(rule) => RemovalSurvivesIff(rule);
    case Raw(text) => NeverRaw(text);
  }

  lemma RemovalSurvivesIff(rule: string)
    ensures Survives(RemoveById(rule)) <==> PlainDirective(RemoveById(rule))
  {
    EngineWords();
    hide CleanLines, REMOVAL, REMOVAL_WORD;
    SoberRule();
    SoberIsUnbroken(REMOVAL);
    hide Sober, Unbroken;
    var line := REMOVAL + rule;
    AfterOwn(REMOVAL, rule);
    OneLineIff(line);
    assert line[0] == 'S';
    assert line[|line| - 1] == if rule == "" then ' ' else rule[|rule| - 1];
    assert '\n' in line <==> '\n' in rule;
  }

  lemma NeverRaw(line: string)
    ensures ReadLine(line) != Some(Raw(line))
  {
  }

  // ---------------------------------------------------------------- rows

  /** The text can stand in a message, with more text behind it. */
  predicate InMessage(s: string) {
    '"' !in s && '\n' !in s && forall i | 0 <= i < |s| :: !Bare(s, i, '\'')
  }

  /** The text can end a message. */
  predicate EndsMessage(s: string) {
    InMessage(s) && (s != "" ==> s[|s| - 1] != '\\')
  }

  /** The condition on the fields of a row, as cleaned by the compiler. */
  predicate PlainRow(row: Row) {
    match row
    case BlockedIP(address) => PlainTest(TrimSpace(address)) && InMessage(TrimSpace(address))
    case Geo(g) => ToUpper(g.action) == "BLOCK" ==> PlainTest(Clean(g.country)) && EndsMessage(Clean(g.country))
    case Endpoint(e) =>
      var path, verb := TrimSpace(e.path), CleanVerb(e.verb);
      path != "" ==> PlainTest(path) && InMessage(path) && (AnyVerb(verb) || (PlainTest(verb) && InMessage(verb)))
    case Bot(b) =>
      TrimSpace(b.uaRegex) != "" && Clean(b.action) in {"BLOCK", "CHALLENGE", "ALLOW"} ==>
        PlainTest(TrimSpace(b.uaRegex)) && InMessage(b.name)
    case Indicator(i) =>
      var ind, kind := TrimSpace(i.indicator), Clean(i.kind);
      ind != "" ==>
        && (kind in {"IP", "CIDR"} ==> PlainTest(ind) && InMessage(i.category))
        && (kind == "DOMAIN" ==> PlainTest(ind) && EndsMessage(ind))
    case Exempt(e) =>
      var target, path, verb := RuleTarget(e.targetRule), TrimSpace(e.path), CleanVerb(e.verb);
      if Clean(e.scope) == "GLOBAL" then target != "" && '\n' !in target && target[|target| - 1] != '\\'
      else PlainTest(path) && (AnyVerb(verb) || PlainTest(verb)) && PlainAction(Remove(RemovalOf(e)))
  }

  /** Around a text in the middle of a message. */
  lemma Around(a: string, s: string, b: string)
    requires Sober(a) && Sober(b) && a != "" && b != ""
    ensures '"' in a + s + b <==> '"' in s
    ensures '\n' in a + s + b <==> '\n' in s
    ensures Apostrophable(a + s + b) <==> forall i | 0 <= i < |s| :: !Bare(s, i, '\'')
  {
    var t := a + s + b;
    assert '"' !in a && '"' !in b && '\n' !in a && '\n' !in b;
    assert a[|a| - 1] in a && b[|b| - 1] in b;
    assert t[|t| - 1] == b[|b| - 1] != '\\';
    forall i | 0 <= i < |s| ensures Bare(t, |a| + i, '\'') == Bare(s, i, '\'') {
      assert t[|a| + i] == s[i] && t[|a| + i - 1] == if i == 0 then a[|a| - 1] else s[i - 1];
    }
    if forall i | 0 <= i < |s| :: !Bare(s, i, '\'') {
      forall i | 0 <= i < |t| ensures !Bare(t, i, '\'') {
        if i < |a| {
          assert t[i] in a;
        } else if i < |a| + |s| {
          assert !Bare(s, i - |a|, '\'');
        } else {
          assert t[i] in b;
        }
      }
    }
    if Apostrophable(t) {
      forall i | 0 <= i < |s| ensures !Bare(s, i, '\'') {
        assert !Bare(t, |a| + i, '\'');
      }
    }
  }

  /** Before a text that ends a message. */
  lemma Before(a: string, s: string)
    requires Sober(a) && a != ""
    ensures '"' in a + s <==> '"' in s
    ensures '\n' in a + s <==> '\n' in s
    ensures Apostrophable(a + s) <==> Apostrophable(s)
  {
    var t := a + s;
    assert '"' !in a && '\n' !in a && a[|a| - 1] in a;
    forall i | 0 <= i < |s| ensures Bare(t, |a| + i, '\'') == Bare(s, i, '\'') {
      assert t[|a| + i] == s[i] && t[|a| + i - 1] == if i == 0 then a[|a| - 1] else s[i - 1];
    }
    assert t[|t| - 1] == if s == "" then a[|a| - 1] else s[|s| - 1];
    if Apostrophable(s) {
      forall i | 0 <= i < |t| ensures !Bare(t, i, '\'') {
        if i < |a| {
          assert t[i] in a;
        } else {
          assert !Bare(s, i - |a|, '\'');
        }
      }
    }
    if Apostrophable(t) {
      forall i | 0 <= i < |s| ensures !Bare(s, i, '\'') {
        assert !Bare(t, |a| + i, '\'');
      }
    }
  }

  predicate PlainMessage(m: Message) {
    '\n' !in PrintMessage(m) && '"' !in PrintMessage(m) && Apostrophable(PrintMessage(m))
  }

  lemma SoberPhrases()
    ensures Sober(CLIENT_IP) && CLIENT_IP != "" && Sober(API_ENDPOINT) && API_ENDPOINT != "" && Sober(API) && API != ""
    ensures Sober(CONFIDENCE) && CONFIDENCE != "" && Sober(PERCENT) && PERCENT != ""
  {
  }

  lemma SoberBotPhrases()
    ensures Sober(BOT_SHIELD) && BOT_SHIELD != "" && Sober(BOT_CHALLENGE) && BOT_CHALLENGE != ""
    ensures Sober(CHALLENGED) && CHALLENGED != "" && Sober(ALLOWED) && ALLOWED != "" && Sober(BY_POLICY) && BY_POLICY != ""
  {
  }

  lemma SoberBySOC()
    ensures Sober(BY_SOC) && BY_SOC != ""
  {
  }

  lemma SoberGeoDenied()
    ensures Sober(GEO_DENIED) && GEO_DENIED != ""
  {
  }

  lemma SoberByAllowlist()
    ensures Sober(BY_ALLOWLIST) && BY_ALLOWLIST != ""
  {
  }

  lemma SoberIocBlock()
    ensures Sober(IOC_BLOCK) && IOC_BLOCK != ""
  {
  }

  lemma SoberDomainBlock()
    ensures Sober(DOMAIN_BLOCK) && DOMAIN_BLOCK != ""
  {
  }

  lemma AddressMessages(s: string)
    ensures PlainMessage(IPBlocked(s)) <==> InMessage(s)
    ensures PlainMessage(CountryDenied(s)) <==> EndsMessage(s)
    ensures PlainMessage(DomainListed(s)) <==> EndsMessage(s)
  {
    hide CLIENT_IP, BY_SOC, GEO_DENIED, DOMAIN_BLOCK, Sober;
    SoberPhrases();
    SoberBySOC();
    SoberGeoDenied();
    SoberDomainBlock();
    Around(CLIENT_IP, s, BY_SOC);
    Before(GEO_DENIED, s);
    Before(DOMAIN_BLOCK, s);
  }

  lemma NamedMessages(s: string, confidence: nat)
    ensures PlainMessage(BotBlocked(s)) <==> InMessage(s)
    ensures PlainMessage(BotChallenged(s)) <==> InMessage(s)
    ensures PlainMessage(BotAllowed(s)) <==> InMessage(s)
    ensures PlainMessage(AddressListed(s, confidence)) <==> InMessage(s)
  {
    hide BOT_SHIELD, BOT_CHALLENGE, BY_POLICY, CHALLENGED, ALLOWED, IOC_BLOCK, CONFIDENCE, PERCENT, Decimal, Sober, Apostrophable;
    SoberPhrases();
    SoberBotPhrases();
    SoberIocBlock();
    SoberDecimal(confidence);
    Around(BOT_SHIELD, s, BY_POLICY);
    Around(BOT_CHALLENGE, s, CHALLENGED);
    Around(BOT_SHIELD, s, ALLOWED);
    SoberConcat(CONFIDENCE, Decimal(confidence));
    SoberConcat(CONFIDENCE + Decimal(confidence), PERCENT);
    var b := CONFIDENCE + Decimal(confidence) + PERCENT;
    Around(IOC_BLOCK, s, b);
    assert PrintMessage(AddressListed(s, confidence)) == IOC_BLOCK + s + b;
  }

  lemma EndpointMessages(verb: string, path: string)
    ensures PlainMessage(PathBlocked(path)) <==> InMessage(path)
    ensures PlainMessage(EndpointBlocked(verb, path)) <==> InMessage(verb) && InMessage(path)
  {
    hide API_ENDPOINT, API, BY_ALLOWLIST, Sober;
    SoberPhrases();
    SoberByAllowlist();
    Around(API_ENDPOINT, path, BY_ALLOWLIST);
    var m := verb + " " + path;
    assert PrintMessage(EndpointBlocked(verb, path)) == API + m + BY_ALLOWLIST;
    Around(API, m, BY_ALLOWLIST);
    TwoTexts(verb, path);
  }

  lemma TwoTexts(a: string, b: string)
    ensures InMessage(a + " " + b) <==> InMessage(a) && InMessage(b)
  {
    var t := a + " " + b;
    assert forall i | 0 <= i < |a| :: Bare(t, i, '\'') == Bare(a, i, '\'');
    forall i | 0 <= i < |b| ensures Bare(t, |a| + 1 + i, '\'') == Bare(b, i, '\'') {
    }
    if InMessage(t) {
      forall i | 0 <= i < |a| ensures !Bare(a, i, '\'') {
        assert !Bare(t, i, '\'');
      }
      forall i | 0 <= i < |b| ensures !Bare(b, i, '\'') {
        assert !Bare(t, |a| + 1 + i, '\'');
      }
    }
    if InMessage(a) && InMessage(b) {
      forall i | 0 <= i < |t| ensures !Bare(t, i, '\'') {
        if i < |a| {
          assert !Bare(a, i, '\'');
        } else if i > |a| {
          assert !Bare(b, i - |a| - 1, '\'');
        }
      }
    }
  }

  lemma PlainDenial(m: Message)
    ensures PlainAction(Deny(m)) <==> PlainMessage(m)
    ensures PlainAction(Allow(m)) <==> PlainMessage(m)
  {
  }

  lemma RuleTargetEnds(rule: string)
    ensures var t := RuleTarget(rule); t != "" ==> !IsSpace(t[|t| - 1])
  {
    hide TrimSpace;
    TrimSpaceProps(rule);
  }

  predicate AllPlain(ds: seq<Directive>) {
    forall d | d in ds :: PlainDirective(d)
  }

  lemma AllPlainOf(a: Directive, b: Directive)
    ensures AllPlain([]) && (AllPlain([a]) <==> PlainDirective(a)) && (AllPlain([a, b]) <==> PlainDirective(a) && PlainDirective(b))
  {
    hide PlainDirective;
    assert a in [a] && a in [a, b] && b in [a, b];
  }

  /** The exact condition under which a row survives: on its fields, as cleaned by the compiler. */
  lemma RowIsPlainIff(row: Row, id: nat)
    ensures AllPlain(Emit(row, id)) <==> PlainRow(row)
  {
    hide AllPlain, PrintMessage, TrimSpace, ToUpper, RuleTarget, RemovalOf, PlainTest, InMessage, PlainMessage, Legible, Quotable, AnyVerb, Scoped;
    var ds := Emit(row, id);
    AllPlainOf(if |ds| > 0 then ds[0] else Raw(""), if |ds| > 1 then ds[1] else Raw(""));
    match row
    case BlockedIP(address) =>
      AddressMessages(TrimSpace(address));
      PlainDenial(IPBlocked(TrimSpace(address)));
      BlankIsPlain();
    case Geo(g) =>
      AddressMessages(Clean(g.country));
      PlainDenial(CountryDenied(Clean(g.country)));
    case Endpoint(e) =>
      var path, verb := TrimSpace(e.path), CleanVerb(e.verb);
      EndpointMessages(verb, path);
      PlainDenial(EndpointMsg(verb, path));
      ScopedIsPlainIff(path, verb, id, Deny(EndpointMsg(verb, path)));
    case Bot(b) =>
      NamedMessages(b.name, 0);
      PlainDenial(BotBlocked(b.name));
      PlainDenial(BotChallenged(b.name));
      PlainDenial(BotAllowed(b.name));
    case Indicator(i) =>
      NamedMessages(i.category, i.confidence);
      AddressMessages(TrimSpace(i.indicator));
      PlainDenial(AddressListed(i.category, i.confidence));
      PlainDenial(DomainListed(TrimSpace(i.indicator)));
    case Exempt(e) =>
      RuleTargetEnds(e.targetRule);
      ScopedIsPlainIff(TrimSpace(e.path), CleanVerb(e.verb), id, Remove(RemovalOf(e)));
  }

  lemma BlankIsPlain()
    ensures PlainTest("") && InMessage("")
  {
  }

  lemma ScopedIsPlainIff(path: string, verb: string, id: nat, a: Action)
    ensures AllPlain(Scoped(path, verb, id, a)) <==> PlainTest(path) && PlainAction(a) && (AnyVerb(verb) || PlainTest(verb))
  {
    hide PlainTest, PlainAction, AllPlain, AnyVerb;
    var ds := Scoped(path, verb, id, a);
    AllPlainOf(ds[0], if |ds| > 1 then ds[1] else Raw(""));
  }

  lemma {:induction false} CompiledIsPlain(rows: seq<Row>, id: nat)
    requires forall r | r in rows :: PlainRow(r)
    ensures AllPlain(CompileRows(rows, id))
    decreases |rows|
  {
    hide PlainRow, PlainDirective, Emit, NextId;
    if rows == [] {
    } else {
      assert rows[0] in rows;
      RowIsPlainIff(rows[0], id);
      CompiledIsPlain(rows[1..], NextId(rows[0], id));
    }
  }
}
