/** The whole of `syncDynamicWAFRules` (management-plane/main.go): from the stored tables to the
    document the proxies are served, and what that document does to a request. */
module PolicySync {
  import opened Wrappers
  import opened Strings
  import opened PolicyCompiler
  import opened PolicyMeaning
  import opened PolicyPrinter
  import opened SecLang
  import opened PolicyReader
  import opened PolicyText
  import opened CorazaJson
  import opened MonitorRewrite

  /** A row whose `regex` is blank is skipped; otherwise `regex` is printed as it is. */
  datatype DlpRow = DlpRow(ruleID: nat, name: string, regex: string)

  /** `patches` and `dlp` hold the enabled rows, in the order of the queries. */
  datatype Stored = Stored(tables: Tables, custom: seq<CustomRow>, patches: seq<string>, base: string, dlp: seq<DlpRow>)

  const RESPONSE_BODY := "RESPONSE_BODY"

  function PrintDlp(r: DlpRow): string {
    PrintRule(RESPONSE_BODY, RX + r.regex,
              ID + Decimal(r.ruleID) + ",phase:4,deny,status:502,msg:'DLP Violation: " + r.name + " detected in outbound response body'")
  }

  function DlpDirectives(rows: seq<DlpRow>): seq<string> {
    if rows == [] then []
    else
      var n := |rows| - 1;
      DlpDirectives(rows[..n]) + if TrimSpace(rows[n].regex) == "" then [] else [PrintDlp(rows[n])]
  }

  /** The ten blocks of the policy. */
  function SectionsOf(s: Stored, now: int): Sections {
    var t := s.tables;
    Sections(PrintAll(CompileRows(IPs(t.blocked), FIRST_IP_ID)),
             PrintAll(CompileRows(Geos(t.geo), FIRST_GEO_ID)),
             PrintAll(CompileRows(Endpoints(BlockedEndpoints(t.endpoints)), FIRST_ENDPOINT_ID)),
             PrintAll(CompileRows(Bots(EnabledBots(t.bots)), FIRST_BOT_ID)),
             PrintAll(CompileRows(Indicators(BlockingIndicators(t.indicators, now)), FIRST_INDICATOR_ID)),
             PrintAll(ExceptionDirectives(t, now)),
             CompileCustom(s.custom, now), TrimAll(s.patches), s.base, DlpDirectives(s.dlp))
  }

  // ---------------------------------------------------------------- the loops not compiled elsewhere

  method CompilePatches(rows: seq<string>) returns (cveRules: seq<string>)
    ensures cveRules == TrimAll(rows)
  {
    hide TrimSpace;
    cveRules := [];
    for i := 0 to |rows|
      invariant cveRules == TrimAll(rows[..i])
    {
      assert rows[..i + 1][..i] == rows[..i];
      if TrimSpace(rows[i]) != "" {
        cveRules := cveRules + [TrimSpace(rows[i])];
      }
    }
    assert rows[..|rows|] == rows;
  }

  method CompileDlp(rows: seq<DlpRow>) returns (dlpDirectives: seq<string>)
    ensures dlpDirectives == DlpDirectives(rows)
  {
    hide TrimSpace, PrintDlp;
    dlpDirectives := [];
    for i := 0 to |rows|
      invariant dlpDirectives == DlpDirectives(rows[..i])
    {
      assert rows[..i + 1][..i] == rows[..i];
      if TrimSpace(rows[i].regex) != "" {
        dlpDirectives := dlpDirectives + [PrintDlp(rows[i])];
      }
    }
    assert rows[..|rows|] == rows;
  }

  predicate HasExpression(r: DlpRow) {
    TrimSpace(r.regex) != ""
  }

  lemma {:induction false} DlpCount(rows: seq<DlpRow>)
    ensures |DlpDirectives(rows)| == |set k | 0 <= k < |rows| && HasExpression(rows[k])|
    decreases |rows|
  {
    hide TrimSpace, PrintDlp;
    if rows == [] {
    } else {
      var n := |rows| - 1;
      var front := rows[..n];
      DlpCount(front);
      var few := set k | 0 <= k < n && HasExpression(front[k]);
      var all := set k | 0 <= k < |rows| && HasExpression(rows[k]);
      assert all == few + if HasExpression(rows[n]) then {n} else {};
    }
  }

  /** There are as many directives as rows with an expression, and the directive of such a row comes
      behind those of the rows before it. */
  lemma {:induction false} DlpInOrder(rows: seq<DlpRow>, i: nat)
    ensures |DlpDirectives(rows)| == |set k | 0 <= k < |rows| && HasExpression(rows[k])|
    ensures i < |rows| && HasExpression(rows[i]) ==>
              var before := |DlpDirectives(rows[..i])|;
              before < |DlpDirectives(rows)| && DlpDirectives(rows)[before] == PrintDlp(rows[i])
    decreases |rows|
  {
    hide TrimSpace, PrintDlp;
    DlpCount(rows);
    if rows == [] {
    } else {
      var front := rows[..|rows| - 1];
      DlpInOrder(front, i);
      assert i < |front| ==> front[..i] == rows[..i];
    }
  }

  /** None of them is of a generated form, whatever its fields hold. */
  lemma DlpIsNotGenerated(r: DlpRow)
    ensures ReadLine(PrintDlp(r)) == None
  {
    EngineWords();
    hide RX, ID, ReadFields, PrintRule, REMOVAL, VERB_TARGET, PrintTarget, ReadTest, ReadActions, Sober;
    var test, actions := RX + r.regex,
      ID + Decimal(r.ruleID) + ",phase:4,deny,status:502,msg:'DLP Violation: " + r.name + " detected in outbound response body'";
    RuleIsNoRemoval(RESPONSE_BODY, test, actions);
    UnknownTarget();
    FieldsReadIff(RESPONSE_BODY, test, actions);
  }

  lemma UnknownTarget()
    ensures ' ' !in RESPONSE_BODY && RESPONSE_BODY != VERB_TARGET && ReadTarget(RESPONSE_BODY) == None
  {
    EngineTargets();
    EngineWords();
    hide PrintTarget;
    TargetLengths(RemoteAddr);
    TargetLengths(RequestUri);
    TargetLengths(Country);
    TargetLengths(UserAgent);
    TargetLengths(Host);
  }

  /** The document that is pushed. */
  function PushedDocument(s: Stored, now: int): string {
    Wrap(Join(QuoteAll(CleanLines(WithLearner(AssembledText(SectionsOf(s, now))))), SEPARATOR))
  }

  /** Compile every table, assemble, and encode what is pushed: the document decodes to the lines of
      the ten blocks in order of precedence. */
  method SyncDynamicWAFRules(s: Stored, now: int) returns (fullRules: string, json: string)
    ensures fullRules == WithLearner(AssembledText(SectionsOf(s, now)))
    ensures json == PushedDocument(s, now)
    ensures DecodeConfig(json) == Some(PolicyLines(SectionsOf(s, now)))
  {
    hide CompileRows, PrintAll, CompileCustom, TrimAll, DlpDirectives, WithLearner, AssembledText, CleanLines, DecodeConfig, PolicyLines;
    hide Where, Join, QuoteAll, Wrap;
    var t := s.tables;
    var ipRules := CompileBlockedIPs(t.blocked);
    var excRules := CompileExceptions(ActiveExceptions(t.exceptions, now));
    var geoRules := CompileGeo(t.geo);
    var activeCustomRules := CompileCustomRules(s.custom, now);
    var dlpDirectives := CompileDlp(s.dlp);
    var apiBlockRules := CompileEndpoints(BlockedEndpoints(t.endpoints));
    var botRules := CompileBots(EnabledBots(t.bots));
    var tiRules := CompileIndicators(BlockingIndicators(t.indicators, now));
    var cveRules := CompilePatches(s.patches);
    fullRules := Assemble(Sections(PrintAll(ipRules), PrintAll(geoRules), PrintAll(apiBlockRules), PrintAll(botRules),
                                   PrintAll(tiRules), PrintAll(excRules), activeCustomRules, cveRules, s.base, dlpDirectives));
    AssembledLines(SectionsOf(s, now));
    json := BuildCorazaJSON(fullRules);
  }

  // ---------------------------------------------------------------- the generated lines

  /** Every row that is compiled survives being printed. */
  ghost predicate PlainTables(t: Tables, now: int) {
    && (forall r | r in IPs(t.blocked) :: PlainRow(r))
    && (forall r | r in Geos(t.geo) :: PlainRow(r))
    && (forall r | r in Endpoints(BlockedEndpoints(t.endpoints)) :: PlainRow(r))
    && (forall r | r in Bots(EnabledBots(t.bots)) :: PlainRow(r))
    && (forall r | r in Indicators(BlockingIndicators(t.indicators, now)) :: PlainRow(r))
    && (forall r | r in Exempts(ActiveExceptions(t.exceptions, now)) :: PlainRow(r))
  }

  function Generated(t: Tables, now: int): seq<Directive> {
    Perimeter(t, now) + ExceptionDirectives(t, now)
  }

  lemma {:induction false} FlatPrinted(ds: seq<Directive>)
    requires AllPlain(ds)
    ensures Flat(PrintAll(ds)) == PrintAll(ds)
    decreases |ds|
  {
    hide Print, PlainDirective, CleanLines, ReadLine;
    if ds == [] {
      assert PrintAll(ds) == [];
    } else {
      assert ds[0] in ds && forall d | d in ds[1..] :: d in ds;
      SurvivesIffPlain(ds[0]);
      FlatPrinted(ds[1..]);
      assert PrintAll(ds)[1..] == PrintAll(ds[1..]);
    }
  }

  lemma PrintConcat(a: seq<Directive>, b: seq<Directive>)
    ensures PrintAll(a + b) == PrintAll(a) + PrintAll(b)
  {
    hide Print;
  }

  lemma {:induction false} FlatConcat(a: seq<string>, b: seq<string>)
    ensures Flat(a + b) == Flat(a) + Flat(b)
    decreases |a|
  {
    if a == [] {
      assert a + b == b;
    } else {
      assert (a + b)[1..] == a[1..] + b;
      FlatConcat(a[1..], b);
    }
  }

  lemma GeneratedIsPlain(t: Tables, now: int)
    requires PlainTables(t, now)
    ensures AllPlain(Generated(t, now))
  {
    hide CompileRows, PlainRow, PlainDirective, Where;
    CompiledIsPlain(IPs(t.blocked), FIRST_IP_ID);
    CompiledIsPlain(Geos(t.geo), FIRST_GEO_ID);
    CompiledIsPlain(Endpoints(BlockedEndpoints(t.endpoints)), FIRST_ENDPOINT_ID);
    CompiledIsPlain(Bots(EnabledBots(t.bots)), FIRST_BOT_ID);
    CompiledIsPlain(Indicators(BlockingIndicators(t.indicators, now)), FIRST_INDICATOR_ID);
    CompiledIsPlain(Exempts(ActiveExceptions(t.exceptions, now)), FIRST_EXCEPTION_ID);
  }

  /** Whether the learner rule was put in front. */
  function LearnerLines(s: Stored, now: int): seq<string> {
    if Contains(AssembledText(SectionsOf(s, now)), "id:1000") then [] else [LEARNER]
  }

  function OtherLines(s: Stored, now: int): seq<string> {
    Flat(CompileCustom(s.custom, now)) + Flat(TrimAll(s.patches)) + CleanLines(s.base) + DlpLines(DlpDirectives(s.dlp))
  }

  /** The pushed lines are one line for each generated directive, between the learner rule and the
      lines of the other blocks. */
  lemma PushedLines(s: Stored, now: int)
    requires PlainTables(s.tables, now)
    ensures PolicyLines(SectionsOf(s, now)) == LearnerLines(s, now) + (PrintAll(Generated(s.tables, now)) + OtherLines(s, now))
  {
    var t := s.tables;
    hide CompileRows, PrintAll, Flat, CompileCustom, TrimAll, CleanLines, DlpLines, DlpDirectives, AssembledText, Contains, LEARNER, Where;
    hide PlainTables, AllPlain;
    GeneratedIsPlain(t, now);
    FlatPrinted(Generated(t, now));
    var a := CompileRows(IPs(t.blocked), FIRST_IP_ID);
    var b := CompileRows(Geos(t.geo), FIRST_GEO_ID);
    var c := CompileRows(Endpoints(BlockedEndpoints(t.endpoints)), FIRST_ENDPOINT_ID);
    var d := CompileRows(Bots(EnabledBots(t.bots)), FIRST_BOT_ID);
    var e := CompileRows(Indicators(BlockingIndicators(t.indicators, now)), FIRST_INDICATOR_ID);
    var f := ExceptionDirectives(t, now);
    FlatOfSix(a, b, c, d, e, f);
    GroupSix(LearnerLines(s, now), Flat(PrintAll(a)), Flat(PrintAll(b)), Flat(PrintAll(c)), Flat(PrintAll(d)), Flat(PrintAll(e)),
            Flat(PrintAll(f)), Flat(CompileCustom(s.custom, now)), Flat(TrimAll(s.patches)), CleanLines(s.base),
            DlpLines(DlpDirectives(s.dlp)));
  }

  lemma FlatOfSix(a: seq<Directive>, b: seq<Directive>, c: seq<Directive>, d: seq<Directive>, e: seq<Directive>, f: seq<Directive>)
    ensures Flat(PrintAll(a + b + c + d + e + f)) ==
            Flat(PrintAll(a)) + Flat(PrintAll(b)) + Flat(PrintAll(c)) + Flat(PrintAll(d)) + Flat(PrintAll(e)) + Flat(PrintAll(f))
  {
    hide PrintAll, Flat;
    FlatOfTwo(a, b);
    FlatOfTwo(a + b, c);
    FlatOfTwo(a + b + c, d);
    FlatOfTwo(a + b + c + d, e);
    FlatOfTwo(a + b + c + d + e, f);
  }

  lemma FlatOfTwo(a: seq<Directive>, b: seq<Directive>)
    ensures Flat(PrintAll(a + b)) == Flat(PrintAll(a)) + Flat(PrintAll(b))
  {
    PrintConcat(a, b);
    FlatConcat(PrintAll(a), PrintAll(b));
  }

  // ---------------------------------------------------------------- reading the pushed document

  /** A line that is not of a generated form is left to the engine. */
  function ReadOrRaw(line: string): Directive {
    match ReadLine(line)
    case Some(d) => d
    case None => Raw(line)
  }

  function ReadAll(lines: seq<string>): (ds: seq<Directive>)
    ensures |ds| == |lines| && forall i | 0 <= i < |lines| :: ds[i] == ReadOrRaw(lines[i])
  {
    seq(|lines|, i requires 0 <= i < |lines| => ReadOrRaw(lines[i]))
  }

  /** The same directive but for the wording of its message. */
  predicate SameButMessage(d: Directive, e: Directive) {
    e == d || e == AsRead(d)
  }

  /** Messages do not matter to a run. */
  lemma {:induction false} RunIgnoresMessages(ds: seq<Directive>, es: seq<Directive>, eng: Engine, req: Request, removals: set<Removal>)
    requires |ds| == |es| && forall i | 0 <= i < |ds| :: SameButMessage(ds[i], es[i])
    ensures Run(es, eng, req, removals) == Run(ds, eng, req, removals)
    decreases |ds|
  {
    hide Matches, Removed, PrintMessage;
    if ds == [] {
    } else {
      assert SameButMessage(ds[0], es[0]);
      match ds[0]
      case SecRule(_, _, id, _, action) =>
        if |ds| > 1 {
          assert SameButMessage(ds[1], es[1]);
        }
        var rest, others := AfterHead(ds), AfterHead(es);
        RunIgnoresMessages(rest, others, eng, req, removals);
        if action.Remove? {
          RunIgnoresMessages(rest, others, eng, req, removals + {action.removal});
        }
      case ChainTail(_) => RunIgnoresMessages(ds[1..], es[1..], eng, req, removals);
      case RemoveById(_) => RunIgnoresMessages(ds[1..], es[1..], eng, req, removals);
      case Raw(text) =>
        match eng.raw(text, req, removals)
        case Stop =>
        case Go(more) => RunIgnoresMessages(ds[1..], es[1..], eng, req, more);
    }
  }

  lemma SameLoadRemovals(ds: seq<Directive>, es: seq<Directive>, eng: Engine)
    requires |ds| == |es| && forall i | 0 <= i < |ds| :: SameButMessage(ds[i], es[i])
    ensures LoadRemovals(es, eng) == LoadRemovals(ds, eng)
  {
    hide PrintMessage;
    forall i | 0 <= i < |ds|
      ensures ds[i].RemoveById? || ds[i].Raw? || es[i].RemoveById? || es[i].Raw? ==> es[i] == ds[i]
    {
      assert SameButMessage(ds[i], es[i]);
    }
    forall d | d in ds && (d.RemoveById? || d.Raw?) ensures d in es {
      var i :| 0 <= i < |ds| && ds[i] == d;
      assert es[i] == d;
    }
    forall e | e in es && (e.RemoveById? || e.Raw?) ensures e in ds {
      var i :| 0 <= i < |es| && es[i] == e;
      assert ds[i] == e;
    }
  }

  lemma ReadConcat(a: seq<string>, b: seq<string>)
    ensures ReadAll(a + b) == ReadAll(a) + ReadAll(b)
  {
    hide ReadOrRaw;
  }

  lemma ReadPrinted(gen: seq<Directive>)
    requires AllPlain(gen)
    ensures var ds := ReadAll(PrintAll(gen)); |ds| == |gen| && forall i | 0 <= i < |gen| :: SameButMessage(gen[i], ds[i])
  {
    hide ReadLine, Print, AsRead, PlainDirective, CleanLines;
    forall i | 0 <= i < |gen| ensures SameButMessage(gen[i], ReadOrRaw(Print(gen[i]))) {
      assert gen[i] in gen;
      SurvivesIffPlain(gen[i]);
    }
  }

  // ---------------------------------------------------------------- the learner rule

  lemma LearnerItemsAreCut()
    ensures Items(Join(LEARNER_ITEMS, ",")) == LEARNER_ITEMS
  {
    hide Items, Join;
    SoberLearner();
    SoberIsUnbroken("auditlog");
    LastAlone();
    CutFirst("nolog", ["auditlog"]);
    CutFirst("pass", ["nolog"] + ["auditlog"]);
    CutFirst("phase:1", ["pass"] + (["nolog"] + ["auditlog"]));
    CutFirst("id:1000", ["phase:1"] + (["pass"] + (["nolog"] + ["auditlog"])));
    assert LEARNER_ITEMS == ["id:1000"] + (["phase:1"] + (["pass"] + (["nolog"] + ["auditlog"])));
  }

  lemma LastAlone()
    ensures Items(Join(["auditlog"], ",")) == ["auditlog"]
  {
    SoberLearner();
    SoberIsUnbroken("auditlog");
    UnbrokenItem("auditlog");
  }

  lemma SoberLearner()
    ensures Sober("id:1000") && Sober("phase:1") && Sober("pass") && Sober("nolog") && Sober("auditlog")
  {
  }

  lemma LearnerItemsAreNotRead()
    ensures ReadItems(LEARNER_ITEMS) == None
  {
    hide ReadId;
    SoberRemovals();
    DistinctItems();
    AfterOther("auditlog", MESSAGE, 0);
    AfterOther("auditlog", REMOVE_RULE, 0);
    AfterOther("auditlog", REMOVE_TARGET, 0);
    assert LEARNER_ITEMS[2] != CHAIN;
    assert LEARNER_ITEMS[2..] == ["pass", "nolog", "auditlog"];
  }

  /** The learner rule is not of a generated form: it is left to the engine. */
  lemma LearnerIsRaw()
    ensures ReadOrRaw(LEARNER) == Raw(LEARNER)
  {
    EngineWords();
    hide PrintRule, ReadFields, ReadItems, Items, REMOVAL, VERB_TARGET, ReadTarget, ReadTest, LEARNER_ITEMS;
    LearnerItemsAreCut();
    LearnerItemsAreNotRead();
    var actions := Join(LEARNER_ITEMS, ",");
    RuleIsNoRemoval("REQUEST_URI", "@rx ^/", actions);
    FieldsReadIff("REQUEST_URI", "@rx ^/", actions);
    LearnerFields();
  }

  lemma LearnerFields()
    ensures "REQUEST_URI" != VERB_TARGET && Quotable("@rx ^/") && Quotable(Join(LEARNER_ITEMS, ","))
  {
    hide Join, LEARNER_ITEMS;
    SoberRule();
    NotDangling("@rx ^/");
    SoberLearner();
    var actions := Join(LEARNER_ITEMS, ",");
    assert actions == "id:1000" + "," + "phase:1" + "," + "pass" + "," + "nolog" + "," + "auditlog" by {
      LearnerJoined();
    }
    assert actions[|actions| - 1] == 'g';
    NotDangling(actions);
    assert '"' !in "id:1000" && '"' !in "phase:1" && '"' !in "pass" && '"' !in "nolog" && '"' !in "auditlog" && '"' !in ",";
  }

  // ---------------------------------------------------------------- end to end

  /** The engine records the request at the learner rule and goes on. */
  ghost predicate LearnerPasses(eng: Engine) {
    && eng.load(LEARNER) == {}
    && forall req, removals :: eng.raw(LEARNER, req, removals) == Go(removals)
  }

  lemma LearnerSkipped(learner: seq<string>, ds: seq<Directive>, eng: Engine, req: Request, removals: set<Removal>)
    requires learner == [] || learner == [LEARNER]
    requires LearnerPasses(eng)
    ensures Run(ReadAll(learner) + ds, eng, req, removals) == Run(ds, eng, req, removals)
    ensures LoadRemovals(ReadAll(learner) + ds, eng) == LoadRemovals(ds, eng)
  {
    hide LEARNER, ReadOrRaw;
    if learner == [] {
      assert ReadAll(learner) + ds == ds;
    } else {
      LearnerIsRaw();
      var all := ReadAll(learner) + ds;
      assert all == [Raw(LEARNER)] + ds;
      assert all[1..] == ds;
      assert forall d :: d in all <==> d == Raw(LEARNER) || d in ds;
    }
  }

  /** From the tables to the proxy: decode the pushed document, read every line of it, and a perimeter
      rule denies the request exactly when a row of the tables does and nothing in the document takes
      the rule of that row out. The rows must survive being printed, the engine must go on at the
      learner rule, and no other line may read as a denial with a perimeter id. */
  lemma PushedPolicyExact(s: Stored, now: int, eng: Engine, req: Request)
    requires PlainTables(s.tables, now) && LearnerPasses(eng)
    requires KeepsOut(ReadAll(OtherLines(s, now)), s.tables, now)
    ensures
      var decoded := DecodeConfig(PushedDocument(s, now));
      decoded.Some? &&
      var ds := ReadAll(decoded.value);
      var outcome := Evaluate(ds, eng, req);
      outcome.DeniedBy? && PerimeterId(s.tables, now, outcome.id) <==> ArmedTables(s.tables, now, eng, req, LoadRemovals(ds, eng))
  {
    hide CleanLines, WithLearner, AssembledText, Wrap, Join, QuoteAll, DecodeConfig, PolicyLines, SectionsOf, LearnerPasses;
    hide LearnerLines, OtherLines, Generated, PlainTables, Run, LoadRemovals, PerimeterId, ArmedTables, KeepsOut;
    hide ReadAll, AllPlain, PrintAll, Policy, SameButMessage;
    DocumentDecodes(s, now);
    PushedLines(s, now);
    GeneratedIsPlain(s.tables, now);
    var learner, gen, others := LearnerLines(s, now), Generated(s.tables, now), ReadAll(OtherLines(s, now));
    ReadConcat(learner, PrintAll(gen) + OtherLines(s, now));
    ReadConcat(PrintAll(gen), OtherLines(s, now));
    ReadPrinted(gen);
    var policy, ds := Policy(s.tables, now, others), ReadAll(PrintAll(gen)) + others;
    PolicyIsGenerated(s.tables, now, others);
    SameWithOthers(gen, ReadAll(PrintAll(gen)), others);
    SameLoadRemovals(policy, ds, eng);
    var removals := LoadRemovals(policy, eng);
    LearnerIsOne(s, now);
    LearnerSkipped(learner, ds, eng, req, removals);
    RunIgnoresMessages(policy, ds, eng, req, removals);
    PerimeterExact(s.tables, now, others, eng, req);
  }

  lemma DocumentDecodes(s: Stored, now: int)
    ensures DecodeConfig(PushedDocument(s, now)) == Some(PolicyLines(SectionsOf(s, now)))
  {
    hide SectionsOf, CleanLines, WithLearner, AssembledText, Wrap, Join, QuoteAll, DecodeConfig, PolicyLines;
    PolicyRoundTrip(SectionsOf(s, now));
  }

  lemma LearnerIsOne(s: Stored, now: int)
    ensures LearnerLines(s, now) == [] || LearnerLines(s, now) == [LEARNER]
  {
    hide Contains, AssembledText, SectionsOf, LEARNER;
  }

  lemma SameWithOthers(gen: seq<Directive>, read: seq<Directive>, others: seq<Directive>)
    requires |read| == |gen| && forall i | 0 <= i < |gen| :: SameButMessage(gen[i], read[i])
    ensures var ds, es := gen + others, read + others;
            |ds| == |es| && forall i | 0 <= i < |ds| :: SameButMessage(ds[i], es[i])
  {
    hide AsRead;
  }

  /** So when nothing in the document selects a perimeter id, the proxies deny at the perimeter what
      the tables deny. */
  lemma PushedPolicyMeansTables(s: Stored, now: int, lines: seq<string>, eng: Engine, req: Request)
    requires PlainTables(s.tables, now) && LearnerPasses(eng)
    requires KeepsOut(ReadAll(OtherLines(s, now)), s.tables, now)
    requires DecodeConfig(PushedDocument(s, now)) == Some(lines)
    requires forall id: nat | PerimeterId(s.tables, now, id) :: !Removed(LoadRemovals(ReadAll(lines), eng), id, eng)
    ensures
      var outcome := Evaluate(ReadAll(lines), eng, req);
      outcome.DeniedBy? && PerimeterId(s.tables, now, outcome.id) <==> TablesDeny(s.tables, now, eng, req)
  {
    hide PushedDocument, DecodeConfig, OtherLines, PlainTables, LearnerPasses, PerimeterId, ArmedTables, KeepsOut, ReadAll, Removed, LoadRemovals;
    hide TablesDeny, Evaluate;
    PushedPolicyExact(s, now, eng, req);
    ArmedTablesDeny(s.tables, now, eng, req, LoadRemovals(ReadAll(lines), eng));
  }

  lemma PolicyIsGenerated(t: Tables, now: int, rest: seq<Directive>)
    ensures Policy(t, now, rest) == Generated(t, now) + rest
  {
    hide CompileRows;
  }
}
