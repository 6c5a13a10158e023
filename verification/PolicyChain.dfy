/** The ten-tier evaluation chain and its trace (`runPolicyEngineChain` in
    management-plane/policy_engine_v2.go). */
module PolicyChain {
  import opened Wrappers
  import opened Strings

  datatype EvaluationRequest = EvaluationRequest(verb: string, path: string, clientIP: string,
                                                 headers: map<string, string>, body: string, params: map<string, string>)

  datatype StepAction = PASSTHROUGH | EVALUATE_NEXT | MONITOR_PASS | STEP_BLOCK | STEP_ALLOW

  datatype StepTrace = StepTrace(index: nat, action: StepAction, terminated: bool)

  /** `tier` is the tier that ended the evaluation, 0 when none did. */
  datatype Response = Response(blocked: bool, tier: nat, rule: string, trace: seq<StepTrace>)

  // ---------------------------------------------------------------- what each tier looks for

  predicate IsScanner(req: EvaluationRequest) {
    && "User-Agent" in req.headers
    && (Contains(ToLower(req.headers["User-Agent"]), "nikto") || Contains(ToLower(req.headers["User-Agent"]), "sqlmap"))
  }

  predicate ForbiddenVerb(req: EvaluationRequest) {
    req.verb == "TRACE" || req.verb == "CONNECT"
  }

  /** The order in which the loop meets the parameters: each name once, otherwise unspecified. */
  ghost predicate IsOrder(params: map<string, string>, order: seq<string>) {
    && (forall name :: name in order <==> name in params)
    && forall i, j | 0 <= i < j < |order| :: order[i] != order[j]
  }

  function Payload(req: EvaluationRequest, order: seq<string>): string
    requires forall name | name in order :: name in req.params
  {
    if order == [] then req.path + " " + req.body
    else
      var n := |order| - 1;
      Payload(req, order[..n]) + " " + req.params[order[n]]
  }

  predicate LooksLikeInjection(payload: string) {
    Contains(ToLower(payload), "union select") || Contains(ToLower(payload), "' or '1'='1")
  }

  predicate LooksLikeScript(payload: string) {
    Contains(payload, "<script>") || Contains(payload, "alert(")
  }

  predicate PayloadBlocks(scoped: Option<string>, payload: string) {
    if LooksLikeInjection(payload) then scoped != Some("MONITOR") else LooksLikeScript(payload)
  }

  /** The tiers that can block, each stated on its own; `scoped` is the override read for this path. */
  predicate TierBlocks(tier: nat, req: EvaluationRequest, blocklist: map<string, string>, scoped: Option<string>, payload: string) {
    match tier
    case 3 => req.clientIP in blocklist
    case 5 => IsScanner(req)
    case 6 => ForbiddenVerb(req)
    case 8 => PayloadBlocks(scoped, payload)
    case _ => false
  }

  // ---------------------------------------------------------------- what a response must be

  /** Steps 1..k, only the last of them terminated and only when the decision is to block; all ten
      steps exactly when the request is let through. */
  ghost predicate WellFormed(r: Response) {
    && 1 <= |r.trace| <= 10
    && (forall i | 0 <= i < |r.trace| :: r.trace[i].index == i + 1)
    && (forall i | 0 <= i < |r.trace| - 1 :: !r.trace[i].terminated && r.trace[i].action != STEP_BLOCK)
    && (r.trace[|r.trace| - 1].terminated <==> r.blocked)
    && (r.trace[|r.trace| - 1].action == STEP_BLOCK <==> r.blocked)
    && (|r.trace| == 10 <==> !r.blocked)
    && r.tier == if r.blocked then |r.trace| else 0
  }

  const SOC_AUTOBLOCK := "SOC-L2-AUTOBLOCK"
  const BOT_SCANNER := "BOT-SCANNER-9901"
  const DISALLOWED_METHOD := "PROTOCOL-DISALLOWED-METHOD"
  const SQL_INJECTION := "942100"
  const CROSS_SITE_SCRIPTING := "941100"
  const NO_RULE := "N/A"

  function RuleAt(tier: nat, payload: string): string {
    match tier
    case 3 => SOC_AUTOBLOCK
    case 5 => BOT_SCANNER
    case 6 => DISALLOWED_METHOD
    case 8 => if LooksLikeInjection(payload) then SQL_INJECTION else CROSS_SITE_SCRIPTING
    case _ => NO_RULE
  }

  predicate Trusted(req: EvaluationRequest) {
    req.clientIP == "127.0.0.1" || HasPrefix(req.clientIP, "10.0.")
  }

  /** What a passed step records: a trusted address at step 1, at step 8 a signature that a scoped
      override only monitors, and at step 10 that the request is let through. */
  function Noted(step: nat, req: EvaluationRequest, payload: string): StepAction {
    if step == 1 && Trusted(req) then PASSTHROUGH
    else if step == 8 && LooksLikeInjection(payload) then MONITOR_PASS
    else if step == 10 then STEP_ALLOW
    else EVALUATE_NEXT
  }

  /** Every step but the one that blocks records that. */
  ghost predicate Records(r: Response, req: EvaluationRequest, payload: string) {
    forall i | 0 <= i < |r.trace| && !r.trace[i].terminated :: r.trace[i].action == Noted(i + 1, req, payload)
  }

  /** The request is blocked by the first tier that blocks it, and let through when none does. */
  ghost predicate Decides(r: Response, req: EvaluationRequest, blocklist: map<string, string>, scoped: Option<string>, payload: string) {
    r.rule == RuleAt(r.tier, payload) &&
    if r.blocked then
      && TierBlocks(r.tier, req, blocklist, scoped, payload)
      && forall tier: nat | tier < r.tier :: !TierBlocks(tier, req, blocklist, scoped, payload)
    else forall tier: nat :: !TierBlocks(tier, req, blocklist, scoped, payload)
  }

  /** The trace so far: steps 1..k, all passed. */
  predicate Passing(trace: seq<StepTrace>) {
    forall i | 0 <= i < |trace| :: trace[i].index == i + 1 && !trace[i].terminated && trace[i].action != STEP_BLOCK
  }

  /** The trace of `n` passed steps, with what they record. */
  ghost predicate Recording(trace: seq<StepTrace>, n: nat, req: EvaluationRequest, payload: string) {
    && Passing(trace) && |trace| == n
    && forall i | 0 <= i < n :: trace[i].action == Noted(i + 1, req, payload)
  }

  /** Appends a passed step. */
  method Pass(trace: seq<StepTrace>, index: nat, action: StepAction, req: EvaluationRequest, ghost payload: string)
      returns (more: seq<StepTrace>)
    requires index > 0 && Recording(trace, index - 1, req, payload) && action != STEP_BLOCK
    requires action == Noted(index, req, payload)
    ensures Recording(more, index, req, payload)
    ensures more == trace + [StepTrace(index, action, false)]
  {
    hide Noted;
    more := trace + [StepTrace(index, action, false)];
  }

  /** The response of the tier that ends the evaluation. */
  method Terminate(trace: seq<StepTrace>, index: nat, rule: string, req: EvaluationRequest, ghost payload: string) returns (r: Response)
    requires 0 < index < 10 && Recording(trace, index - 1, req, payload)
    ensures WellFormed(r) && Records(r, req, payload)
    ensures r == Response(true, index, rule, trace + [StepTrace(index, STEP_BLOCK, true)])
  {
    hide Noted;
    r := Response(true, index, rule, trace + [StepTrace(index, STEP_BLOCK, true)]);
  }

  method LetThrough(trace: seq<StepTrace>, req: EvaluationRequest, ghost payload: string) returns (r: Response)
    requires Recording(trace, 10, req, payload)
    ensures WellFormed(r) && Records(r, req, payload)
    ensures r == Response(false, 0, NO_RULE, trace)
  {
    hide Noted;
    r := Response(false, 0, NO_RULE, trace);
  }

  /** The tiers' conditions, asked in the order of the code. */
  lemma TiersInOrder(r: Response, req: EvaluationRequest, blocklist: map<string, string>, scoped: Option<string>, payload: string)
    requires r.blocked <==> r.tier != 0
    requires r.tier ==
             if req.clientIP in blocklist then 3
             else if IsScanner(req) then 5
             else if ForbiddenVerb(req) then 6
             else if PayloadBlocks(scoped, payload) then 8
             else 0
    requires r.rule == RuleAt(r.tier, payload)
    ensures Decides(r, req, blocklist, scoped, payload)
  {
    hide IsScanner, ForbiddenVerb, LooksLikeInjection, LooksLikeScript;
  }

  method RunPolicyEngineChain(req: EvaluationRequest, blocklist: map<string, string>, scoped: Option<string>, order: seq<string>)
      returns (r: Response)
    requires IsOrder(req.params, order)
    ensures WellFormed(r)
    ensures Decides(r, req, blocklist, scoped, Payload(req, order))
    ensures Records(r, req, Payload(req, order))
  {
    hide Contains, LooksLikeInjection, LooksLikeScript, IsScanner, ForbiddenVerb, WellFormed, Payload, Decides, TierBlocks;
    hide Recording, Records, Trusted, Passing, RuleAt, Noted;
    hide SOC_AUTOBLOCK, BOT_SCANNER, DISALLOWED_METHOD, SQL_INJECTION, CROSS_SITE_SCRIPTING, NO_RULE;
    ghost var payload := Payload(req, order);
    Rules(payload);
    StepNotes(req, payload);
    var trace := [];
    NothingPassed(req, payload);
    if Trusted(req) {
      trace := Pass(trace, 1, PASSTHROUGH, req, payload);
    } else {
      trace := Pass(trace, 1, EVALUATE_NEXT, req, payload);
    }
    trace := Pass(trace, 2, EVALUATE_NEXT, req, payload);
    var isBlocked := req.clientIP in blocklist;
    if isBlocked {
      r := Terminate(trace, 3, SOC_AUTOBLOCK, req, payload);
      TiersInOrder(r, req, blocklist, scoped, payload);
      return;
    }
    trace := Pass(trace, 3, EVALUATE_NEXT, req, payload);
    trace := Pass(trace, 4, EVALUATE_NEXT, req, payload);
    if IsScanner(req) {
      r := Terminate(trace, 5, BOT_SCANNER, req, payload);
      TiersInOrder(r, req, blocklist, scoped, payload);
      return;
    }
    trace := Pass(trace, 5, EVALUATE_NEXT, req, payload);
    if ForbiddenVerb(req) {
      r := Terminate(trace, 6, DISALLOWED_METHOD, req, payload);
      TiersInOrder(r, req, blocklist, scoped, payload);
      return;
    }
    trace := Pass(trace, 6, EVALUATE_NEXT, req, payload);
    trace := Pass(trace, 7, EVALUATE_NEXT, req, payload);
    var payloadSearch := BuildPayload(req, order);
    if LooksLikeInjection(payloadSearch) {
      if scoped == Some("MONITOR") {
        trace := Pass(trace, 8, MONITOR_PASS, req, payload);
      } else {
        r := Terminate(trace, 8, SQL_INJECTION, req, payload);
        TiersInOrder(r, req, blocklist, scoped, payload);
        return;
      }
    } else if LooksLikeScript(payloadSearch) {
      r := Terminate(trace, 8, CROSS_SITE_SCRIPTING, req, payload);
      TiersInOrder(r, req, blocklist, scoped, payload);
      return;
    } else {
      trace := Pass(trace, 8, EVALUATE_NEXT, req, payload);
    }
    trace := Pass(trace, 9, EVALUATE_NEXT, req, payload);
    trace := Pass(trace, 10, STEP_ALLOW, req, payload);
    r := LetThrough(trace, req, payload);
    TiersInOrder(r, req, blocklist, scoped, payload);
  }

  lemma NothingPassed(req: EvaluationRequest, payload: string)
    ensures Recording([], 0, req, payload)
  {
  }

  lemma StepNotes(req: EvaluationRequest, payload: string)
    ensures Noted(1, req, payload) == if Trusted(req) then PASSTHROUGH else EVALUATE_NEXT
    ensures Noted(8, req, payload) == if LooksLikeInjection(payload) then MONITOR_PASS else EVALUATE_NEXT
    ensures Noted(10, req, payload) == STEP_ALLOW
    ensures forall step: nat | step !in {1, 8, 10} :: Noted(step, req, payload) == EVALUATE_NEXT
  {
  }

  lemma Rules(payload: string)
    ensures RuleAt(0, payload) == NO_RULE && RuleAt(3, payload) == SOC_AUTOBLOCK && RuleAt(5, payload) == BOT_SCANNER
    ensures RuleAt(6, payload) == DISALLOWED_METHOD
    ensures RuleAt(8, payload) == if LooksLikeInjection(payload) then SQL_INJECTION else CROSS_SITE_SCRIPTING
  {
  }

  method BuildPayload(req: EvaluationRequest, order: seq<string>) returns (payloadSearch: string)
    requires IsOrder(req.params, order)
    ensures payloadSearch == Payload(req, order)
  {
    payloadSearch := req.path + " " + req.body;
    for i := 0 to |order|
      invariant payloadSearch == Payload(req, order[..i])
    {
      assert order[..i + 1][..i] == order[..i];
      payloadSearch := payloadSearch + " " + req.params[order[i]];
    }
    assert order[..|order|] == order;
  }

  // ---------------------------------------------------------------- consequences

  /** The decision is determined: two responses to the same evaluation agree. */
  lemma DecisionUnique(a: Response, b: Response, req: EvaluationRequest, blocklist: map<string, string>, scoped: Option<string>,
                       payload: string)
    requires WellFormed(a) && WellFormed(b)
    requires Decides(a, req, blocklist, scoped, payload) && Decides(b, req, blocklist, scoped, payload)
    ensures a.blocked == b.blocked && a.tier == b.tier && |a.trace| == |b.trace|
  {
    hide TierBlocks;
    if a.blocked && b.blocked {
      assert !(a.tier < b.tier) && !(b.tier < a.tier);
    }
  }

  /** A listed address is blocked at tier 3 whatever else the request holds, trusted subnet or not;
      and tier 3 blocks nobody else. */
  lemma ListedIffTierThree(r: Response, req: EvaluationRequest, blocklist: map<string, string>, scoped: Option<string>, payload: string)
    requires WellFormed(r) && Decides(r, req, blocklist, scoped, payload)
    ensures req.clientIP in blocklist <==> r.blocked && r.tier == 3
  {
    hide IsScanner, ForbiddenVerb, LooksLikeInjection, LooksLikeScript;
    assert TierBlocks(3, req, blocklist, scoped, payload) <==> req.clientIP in blocklist;
    assert forall tier: nat | tier < 3 :: !TierBlocks(tier, req, blocklist, scoped, payload);
  }

  // ---------------------------------------------------------------- what the tiers look for, in full

  /** The text stands somewhere in the other, letter case aside. */
  ghost predicate Mentions(s: string, word: string) {
    exists i: nat :: MentionsAt(s, word, i)
  }

  predicate MentionsAt(s: string, word: string, i: nat) {
    i + |word| <= |s| && forall k | 0 <= k < |word| :: LowerChar(s[i + k]) == word[k]
  }

  lemma MentionsAtIff(s: string, word: string, i: nat)
    ensures OccursAt(ToLower(s), word, i) <==> MentionsAt(s, word, i)
  {
    OccursPointwise(ToLower(s), word, i);
  }

  lemma MentionsIff(s: string, word: string)
    ensures Contains(ToLower(s), word) <==> Mentions(s, word)
  {
    hide OccursAt, ToLower;
    if i :| 0 <= i <= |ToLower(s)| && OccursAt(ToLower(s), word, i) {
      MentionsAtIff(s, word, i);
    }
    if i: nat :| MentionsAt(s, word, i) {
      MentionsAtIff(s, word, i);
      assert i <= |ToLower(s)|;
    }
  }

  /** The decision written out, with the rule it names: a listed address, then a scanner's user agent,
      then TRACE or CONNECT, then an injection that no MONITOR override covers, and a script where there
      is no injection. */
  lemma DecisionExactly(r: Response, req: EvaluationRequest, blocklist: map<string, string>, scoped: Option<string>, payload: string)
    requires WellFormed(r) && Decides(r, req, blocklist, scoped, payload)
    ensures
      var agent := if "User-Agent" in req.headers then req.headers["User-Agent"] else "";
      var injection := Mentions(payload, "union select") || Mentions(payload, "' or '1'='1");
      (r.blocked, r.tier, r.rule) ==
        if req.clientIP in blocklist then (true, 3, "SOC-L2-AUTOBLOCK")
        else if Mentions(agent, "nikto") || Mentions(agent, "sqlmap") then (true, 5, "BOT-SCANNER-9901")
        else if req.verb in {"TRACE", "CONNECT"} then (true, 6, "PROTOCOL-DISALLOWED-METHOD")
        else if injection && scoped != Some("MONITOR") then (true, 8, "942100")
        else if !injection && (Contains(payload, "<script>") || Contains(payload, "alert(")) then (true, 8, "941100")
        else (false, 0, "N/A")
  {
    hide Contains, Mentions;
    var agent := if "User-Agent" in req.headers then req.headers["User-Agent"] else "";
    MentionsIff(agent, "nikto");
    MentionsIff(agent, "sqlmap");
    MentionsIff(payload, "union select");
    MentionsIff(payload, "' or '1'='1");
    NothingMentioned();
    hide ToLower;
    FirstTier(r, req, blocklist, scoped, payload);
  }

  lemma NothingMentioned()
    ensures !Mentions("", "nikto") && !Mentions("", "sqlmap")
  {
  }

  lemma FirstTier(r: Response, req: EvaluationRequest, blocklist: map<string, string>, scoped: Option<string>, payload: string)
    requires WellFormed(r) && Decides(r, req, blocklist, scoped, payload)
    ensures r.tier == if req.clientIP in blocklist then 3 else if IsScanner(req) then 5 else if ForbiddenVerb(req) then 6
                      else if PayloadBlocks(scoped, payload) then 8 else 0
    ensures r.blocked <==> r.tier != 0
    ensures r.rule == RuleAt(r.tier, payload)
  {
    hide IsScanner, ForbiddenVerb, PayloadBlocks, RuleAt;
    assert TierBlocks(3, req, blocklist, scoped, payload) <==> req.clientIP in blocklist;
    assert TierBlocks(5, req, blocklist, scoped, payload) <==> IsScanner(req);
    assert TierBlocks(6, req, blocklist, scoped, payload) <==> ForbiddenVerb(req);
    assert TierBlocks(8, req, blocklist, scoped, payload) <==> PayloadBlocks(scoped, payload);
  }

  /** The trace of a request that is let through: ten steps, each passed. */
  lemma TraceWhenLetThrough(r: Response, req: EvaluationRequest, payload: string)
    requires WellFormed(r) && Records(r, req, payload) && !r.blocked
    ensures |r.trace| == 10
    ensures r.trace[0].action == if req.clientIP == "127.0.0.1" || HasPrefix(req.clientIP, "10.0.") then PASSTHROUGH else EVALUATE_NEXT
    ensures r.trace[7].action == if Mentions(payload, "union select") || Mentions(payload, "' or '1'='1") then MONITOR_PASS else EVALUATE_NEXT
    ensures r.trace[9].action == STEP_ALLOW
    ensures forall i | 0 <= i < 10 && i !in {0, 7, 9} :: r.trace[i].action == EVALUATE_NEXT
  {
    hide Contains, Mentions, ToLower;
    MentionsIff(payload, "union select");
    MentionsIff(payload, "' or '1'='1");
    assert forall i | 0 <= i < 10 :: !r.trace[i].terminated;
  }
}
