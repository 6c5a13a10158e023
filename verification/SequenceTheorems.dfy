/** What the sequence engine's verdicts imply about the window and about whole runs. */
module SequenceTheorems {
  import opened Wrappers
  import opened Strings
  import opened SequenceEngine

  // ---------------------------------------------------------------- the scraping verdict

  predicate IsProductHit(r: AccessLogEntry) {
    MatchProduct(r.path).Some?
  }

  /** No product page was visited since the last hit in another collection. */
  predicate Split(reqs: seq<AccessLogEntry>) {
    var hits := Hits(reqs);
    hits == [] || hits[|hits| - 1].prefix != PRODUCT
  }

  /** How many requests more than necessary the window spends on its scraping count. */
  function Slack(reqs: seq<AccessLogEntry>): int {
    |reqs| + 1 + IdorCount(reqs) - 2 * ScrapingCount(reqs) - Bump(Split(reqs))
  }

  /** Counted product visits, with at most one hit in another collection between two of them. */
  predicate Weave(reqs: seq<AccessLogEntry>) {
    && (forall i | 0 <= i < |reqs| :: WovenAt(reqs, i))
    && AllDiffer(Visits(reqs))
  }

  predicate WovenAt(reqs: seq<AccessLogEntry>, i: nat)
    requires i < |reqs|
  {
    && MatchResource(reqs[i].path).Some?
    && if IsProductHit(reqs[i]) then reqs[i].verb == "GET" else 0 < i && IsProductHit(reqs[i - 1])
  }

  predicate AllDiffer(visits: seq<Visit>) {
    forall k | 0 < k < |visits| :: visits[k].id != visits[k - 1].id
  }

  lemma AllDifferSnoc(visits: seq<Visit>, v: Visit)
    ensures AllDiffer(visits + [v]) <==> AllDiffer(visits) && (visits == [] || visits[|visits| - 1].id != v.id)
  {
    var more := visits + [v];
    assert forall k | 0 <= k < |visits| :: more[k] == visits[k];
    if AllDiffer(more) {
      forall k | 0 < k < |visits| ensures visits[k].id != visits[k - 1].id {
        assert more[k].id != more[k - 1].id;
      }
      assert visits != [] ==> more[|visits|].id != more[|visits| - 1].id;
    }
  }

  /** Outside a split the last hit is the last product visit. */
  lemma {:induction false} LastVisit(reqs: seq<AccessLogEntry>)
    ensures !Split(reqs) ==>
              var hits, visits := Hits(reqs), Visits(reqs);
              visits != [] && hits[|hits| - 1].id == visits[|visits| - 1].id
    ensures reqs != [] && MatchResource(reqs[|reqs| - 1].path).Some? ==> Split(reqs) == !IsProductHit(reqs[|reqs| - 1])
  {
    hide MatchResource, MatchProduct;
    if reqs == [] {
    } else {
      var front, r := reqs[..|reqs| - 1], reqs[|reqs| - 1];
      LastVisit(front);
      Agree(r.path);
    }
  }

  lemma Agree(path: string)
    ensures MatchProduct(path).Some? <==> MatchResource(path).Some? && MatchResource(path).value.prefix == PRODUCT
    ensures MatchProduct(path).Some? ==> MatchResource(path) == Some(Hit(PRODUCT, MatchProduct(path).value))
  {
    if MatchProduct(path).Some? {
      ProductIsResource(path, MatchProduct(path).value);
    }
    if MatchResource(path).Some? {
      ProductIsResource(path, MatchResource(path).value.id);
    }
  }

  /** One request never lowers the slack, and keeps it only by being a counted product visit
      or the first other hit after one. */
  lemma SlackSnoc(reqs: seq<AccessLogEntry>, r: AccessLogEntry)
    ensures
      var counted := IsProductHit(r) && r.verb == "GET"
                     && (Visits(reqs) == [] || Visits(reqs)[|Visits(reqs)| - 1].id != MatchProduct(r.path).value);
      var splitter := MatchResource(r.path).Some? && !IsProductHit(r) && !Split(reqs);
      && Slack(reqs + [r]) >= Slack(reqs)
      && (Slack(reqs + [r]) == Slack(reqs) <==> counted || splitter)
  {
    hide MatchResource, MatchProduct, Hits, Visits, SwitchCount, FreshVisitCount;
    CountersSnoc(reqs, r);
    HitsSnoc(reqs, r);
    LastVisit(reqs);
    Agree(r.path);
  }

  lemma WeaveSnoc(reqs: seq<AccessLogEntry>, r: AccessLogEntry)
    ensures
      var counted := IsProductHit(r) && r.verb == "GET"
                     && (Visits(reqs) == [] || Visits(reqs)[|Visits(reqs)| - 1].id != MatchProduct(r.path).value);
      var splitter := MatchResource(r.path).Some? && !IsProductHit(r) && !Split(reqs);
      Weave(reqs + [r]) <==> Weave(reqs) && (counted || splitter)
  {
    hide MatchResource, MatchProduct;
    HitsSnoc(reqs, r);
    LastVisit(reqs);
    Agree(r.path);
    var n, more := |reqs|, reqs + [r];
    if IsProductHit(r) {
      AllDifferSnoc(Visits(reqs), Visit(MatchProduct(r.path).value, r.verb == "GET"));
    }
    forall i | 0 <= i < n ensures WovenAt(more, i) == WovenAt(reqs, i) {
    }
    if Weave(more) {
      assert WovenAt(more, n);
      forall i | 0 <= i < n ensures WovenAt(reqs, i) {
        assert WovenAt(more, i);
      }
    }
    if Weave(reqs) && n > 0 {
      assert WovenAt(reqs, n - 1);
    }
    assert reqs == [] ==> Split(reqs);
  }

  lemma {:induction false} SlackZeroIsWeave(reqs: seq<AccessLogEntry>)
    ensures Slack(reqs) >= 0
    ensures Slack(reqs) == 0 <==> Weave(reqs)
  {
    if reqs == [] {
    } else {
      var front, r := reqs[..|reqs| - 1], reqs[|reqs| - 1];
      assert reqs == front + [r];
      SlackZeroIsWeave(front);
      SlackSnoc(front, r);
      WeaveSnoc(front, r);
    }
  }

  lemma {:induction false} WeaveCountsEveryVisit(reqs: seq<AccessLogEntry>)
    requires Weave(reqs)
    ensures ScrapingCount(reqs) == |Visits(reqs)|
  {
    if reqs == [] {
    } else {
      var front, r := reqs[..|reqs| - 1], reqs[|reqs| - 1];
      assert reqs == front + [r];
      WeaveSnoc(front, r);
      HitsSnoc(front, r);
      CountersSnoc(front, r);
      WeaveCountsEveryVisit(front);
    }
  }

  /** Fifteen requests: ten product GETs, no two in a row for the same product, and five hits in
      other collections, each alone between two product visits. */
  predicate SaturatedWindow(reqs: seq<AccessLogEntry>) {
    && |reqs| == WINDOW
    && Weave(reqs)
    && |Visits(reqs)| == 10
    && IsProductHit(reqs[WINDOW - 1])
  }

  lemma NoHitNoCall(reqs: seq<AccessLogEntry>, verb: string, path: string)
    requires Weave(reqs) && !HasPrefix(path, API)
    ensures CallCount(reqs, verb, path) == 0
  {
    var calls := set i | 0 <= i < |reqs| && IsCall(reqs[i], verb, path);
    forall i | 0 <= i < |reqs| ensures !IsCall(reqs[i], verb, path) {
      assert WovenAt(reqs, i);
      MatchResourceExact(reqs[i].path, MatchResource(reqs[i].path).value);
    }
    assert calls == {};
  }

  lemma SaturatedCounts(reqs: seq<AccessLogEntry>)
    requires SaturatedWindow(reqs)
    ensures IdorCount(reqs) == 4 && ScrapingCount(reqs) == 10
    ensures CallCount(reqs, "POST", "/login") == 0
    ensures reqs[WINDOW - 1].path != "/checkout"
  {
    SlackZeroIsWeave(reqs);
    LastVisit(reqs);
    WeaveCountsEveryVisit(reqs);
    assert WovenAt(reqs, WINDOW - 1);
    assert !HasPrefix("/login", API) by {
      assert "/login"[1] != API[1];
    }
    NoHitNoCall(reqs, "POST", "/login");
    assert reqs[WINDOW - 1].path[..|PRODUCT_SLASH|][1] == PRODUCT_SLASH[1];
    assert "/checkout"[1] != PRODUCT_SLASH[1];
  }

  /** A window of at most fifteen draws the scraping verdict exactly when it is saturated, and the
      enumeration count then stands at four, one short of its own verdict. */
  lemma ScrapingVerdictExact(reqs: seq<AccessLogEntry>)
    requires |reqs| <= WINDOW
    ensures Verdict(reqs) == Some(CatalogScraping) <==> SaturatedWindow(reqs)
    ensures SaturatedWindow(reqs) ==> IdorCount(reqs) == 4 && ScrapingCount(reqs) == 10
  {
    if Verdict(reqs) == Some(CatalogScraping) {
      SlackZeroIsWeave(reqs);
      LastVisit(reqs);
      assert Rank(Enumeration) < Rank(CatalogScraping);
      assert !Fires(Enumeration, reqs) && Fires(CatalogScraping, reqs);
      assert Slack(reqs) == 0;
      assert WovenAt(reqs, |reqs| - 1);
      WeaveCountsEveryVisit(reqs);
    }
    if SaturatedWindow(reqs) {
      SaturatedCounts(reqs);
      assert !Fires(Enumeration, reqs);
      assert !Fires(LoginBruteForce, reqs);
      assert !Fires(CheckoutBypass, reqs);
      assert Fires(CatalogScraping, reqs);
    }
  }

  // ---------------------------------------------------------------- the velocity challenge

  /** The CHALLENGE verdict means a full window spanning less than five seconds and nothing else amiss. */
  lemma ChallengeExact(reqs: seq<AccessLogEntry>)
    requires |reqs| <= WINDOW
    ensures Verdict(reqs).Some? && ActionOf(Verdict(reqs).value) == "CHALLENGE" <==>
            && |reqs| == WINDOW
            && reqs[WINDOW - 1].timestamp - reqs[0].timestamp < 5
            && forall v: Violation | v != LowBotScore :: !Fires(v, reqs)
  {
    assert ActionOf(LowBotScore) == "CHALLENGE";
    assert "BLOCK"[0] != "CHALLENGE"[0];
    assert forall v: Violation | v != LowBotScore :: Rank(v) < Rank(LowBotScore);
    assert Verdict(reqs) == Some(LowBotScore) ==> Fires(LowBotScore, reqs);
    if |reqs| == WINDOW && reqs[WINDOW - 1].timestamp - reqs[0].timestamp < 5
       && (forall v: Violation | v != LowBotScore :: !Fires(v, reqs)) {
      assert Fires(LowBotScore, reqs);
    }
  }

  // ---------------------------------------------------------------- the other verdicts

  lemma CallsAre(reqs: seq<AccessLogEntry>, path: string, calls: set<int>)
    requires calls == set i | 0 <= i < |reqs| && reqs[i].verb == "POST" && reqs[i].path == path
    ensures CallCount(reqs, "POST", path) == |calls|
  {
    assert calls == set i | 0 <= i < |reqs| && IsCall(reqs[i], "POST", path);
  }

  /** The last request checks out, and no request of the window visited the cart. */
  predicate SkipsCart(reqs: seq<AccessLogEntry>) {
    && |reqs| > 0 && reqs[|reqs| - 1].verb == "POST" && reqs[|reqs| - 1].path == "/checkout"
    && forall i | 0 <= i < |reqs| :: reqs[i].path != "/cart"
  }

  /** Every verdict told from the requests: which counts reach their limits, and which earlier ones do
      not. */
  lemma VerdictMeaning(reqs: seq<AccessLogEntry>, logins: set<int>, vouchers: set<int>, registrations: set<int>)
    requires logins == set i | 0 <= i < |reqs| && reqs[i].verb == "POST" && reqs[i].path == "/login"
    requires vouchers == set i | 0 <= i < |reqs| && reqs[i].verb == "POST" && reqs[i].path == "/api/voucher/redeem"
    requires registrations == set i | 0 <= i < |reqs| && reqs[i].verb == "POST" && reqs[i].path == "/api/register"
    ensures Verdict(reqs) ==
            if |reqs| < 3 then None
            else if IdorCount(reqs) >= 5 then Some(Enumeration)
            else if |logins| >= 5 then Some(LoginBruteForce)
            else if SkipsCart(reqs) then Some(CheckoutBypass)
            else if ScrapingCount(reqs) >= 10 then Some(CatalogScraping)
            else if |vouchers| >= 3 then Some(VoucherAbuse)
            else if |registrations| >= 3 then Some(AccountCreation)
            else if |reqs| >= 15 && reqs[|reqs| - 1].timestamp - reqs[0].timestamp < 5 then Some(LowBotScore)
            else None
    ensures Verdict(reqs).Some? ==> ActionOf(Verdict(reqs).value) == if Verdict(reqs).value.LowBotScore? then "CHALLENGE" else "BLOCK"
  {
    hide IdorCount, ScrapingCount, CallCount;
    CallsAre(reqs, "/login", logins);
    CallsAre(reqs, "/api/voucher/redeem", vouchers);
    CallsAre(reqs, "/api/register", registrations);
  }

  /** A purchase that went through the cart never draws the checkout verdict; one that did not always
      does, unless enumeration or a login burst is reported first. */
  lemma CheckoutVerdictExact(reqs: seq<AccessLogEntry>, logins: set<int>)
    requires logins == set i | 0 <= i < |reqs| && reqs[i].verb == "POST" && reqs[i].path == "/login"
    ensures Verdict(reqs) == Some(CheckoutBypass) <==>
            && |reqs| >= 3 && IdorCount(reqs) < 5 && |logins| < 5
            && reqs[|reqs| - 1].verb == "POST" && reqs[|reqs| - 1].path == "/checkout"
            && forall i | 0 <= i < |reqs| :: reqs[i].path != "/cart"
  {
    hide IdorCount, ScrapingCount;
    VerdictMeaning(reqs, logins,
                   set i | 0 <= i < |reqs| && reqs[i].verb == "POST" && reqs[i].path == "/api/voucher/redeem",
                   set i | 0 <= i < |reqs| && reqs[i].verb == "POST" && reqs[i].path == "/api/register");
  }

  // ---------------------------------------------------------------- runs

  /** Ingesting and evaluating interleave freely: evaluation runs in its own goroutine. */
  datatype Event = Ingest(entry: AccessLogEntry) | Evaluate

  function Window(run: seq<Event>): seq<AccessLogEntry> {
    if run == [] then []
    else
      var n := |run| - 1;
      match run[n]
      case Ingest(entry) => SlideIn(Window(run[..n]), entry)
      case Evaluate => AfterEvaluation(Window(run[..n]))
  }

  /** The requests ingested, in order. */
  function Entries(run: seq<Event>): seq<AccessLogEntry> {
    if run == [] then []
    else
      var n := |run| - 1;
      match run[n]
      case Ingest(entry) => Entries(run[..n]) + [entry]
      case Evaluate => Entries(run[..n])
  }

  /** Whether step `i` of the run is an evaluation that returns a verdict. */
  predicate IsVerdictStep(run: seq<Event>, i: nat)
    requires i < |run|
  {
    run[i].Evaluate? && Verdict(Window(run[..i])).Some?
  }

  function VerdictCount(run: seq<Event>): nat {
    |set i | 0 <= i < |run| && IsVerdictStep(run, i)|
  }

  lemma VerdictCountSnoc(run: seq<Event>)
    requires run != []
    ensures VerdictCount(run) == VerdictCount(run[..|run| - 1]) + Bump(IsVerdictStep(run, |run| - 1))
  {
    hide IsVerdictStep;
    var n := |run| - 1;
    var front := run[..n];
    var before := set i | 0 <= i < n && IsVerdictStep(front, i);
    var after := set i | 0 <= i < |run| && IsVerdictStep(run, i);
    VerdictStepsOfFront(run);
    assert after == before + (if IsVerdictStep(run, n) then {n} else {});
  }

  lemma VerdictStepsOfFront(run: seq<Event>)
    requires run != []
    ensures forall i | 0 <= i < |run| - 1 :: IsVerdictStep(run, i) == IsVerdictStep(run[..|run| - 1], i)
  {
    hide Window, Verdict;
    var front := run[..|run| - 1];
    forall i | 0 <= i < |front| ensures IsVerdictStep(run, i) == IsVerdictStep(front, i) {
      assert run[..i] == front[..i];
    }
  }

  /** Every verdict is paid for by three requests that no later verdict can use. */
  lemma {:induction false} AmortisedBound(run: seq<Event>)
    ensures 3 * VerdictCount(run) + |Window(run)| <= |Entries(run)|
    ensures |Window(run)| <= WINDOW
  {
    if run == [] {
    } else {
      AmortisedBound(run[..|run| - 1]);
      VerdictCountSnoc(run);
    }
  }

  function Last<T>(s: seq<T>, n: nat): seq<T> {
    if |s| <= n then s else s[|s| - n..]
  }

  /** `cut` is the step just after the last verdict, or the start of the run. */
  ghost predicate IsResetPoint(run: seq<Event>, cut: nat) {
    && cut <= |run|
    && (cut > 0 ==> IsVerdictStep(run, cut - 1))
    && forall i | cut <= i < |run| :: !IsVerdictStep(run, i)
  }

  lemma NoEntries()
    ensures Entries([]) == []
  {
  }

  lemma EntriesSnoc(run: seq<Event>, e: Event)
    ensures Entries(run + [e]) == if e.Ingest? then Entries(run) + [e.entry] else Entries(run)
  {
    assert (run + [e])[..|run|] == run;
  }

  lemma SlideInIsLast(entries: seq<AccessLogEntry>, r: AccessLogEntry)
    ensures SlideIn(Last(entries, WINDOW), r) == Last(entries + [r], WINDOW)
  {
  }

  /** The window is the last fifteen requests ingested since the last verdict. */
  lemma {:induction false} WindowIsRecentHistory(run: seq<Event>, cut: nat)
    requires IsResetPoint(run, cut)
    ensures Window(run) == Last(Entries(run[cut..]), WINDOW)
  {
    hide Verdict, SlideIn, Entries;
    if cut == |run| {
      assert run[cut..] == [];
      NoEntries();
    } else {
      var n := |run| - 1;
      var front := run[..n];
      FrontKeepsResetPoint(run, cut);
      WindowIsRecentHistory(front, cut);
      assert run[cut..] == front[cut..] + [run[n]];
      EntriesSnoc(front[cut..], run[n]);
      if run[n].Ingest? {
        SlideInIsLast(Entries(front[cut..]), run[n].entry);
      }
      assert !IsVerdictStep(run, n);
    }
  }

  lemma FrontKeepsResetPoint(run: seq<Event>, cut: nat)
    requires IsResetPoint(run, cut) && cut < |run|
    ensures IsResetPoint(run[..|run| - 1], cut)
  {
    hide IsVerdictStep;
    VerdictStepsOfFront(run);
    var front := run[..|run| - 1];
    assert cut > 0 ==> IsVerdictStep(front, cut - 1);
    forall i | cut <= i < |front| ensures !IsVerdictStep(front, i) {
      assert !IsVerdictStep(run, i);
    }
  }

  // ---------------------------------------------------------------- evaluation after every request

  /** The window when each request is evaluated before the next one is appended. */
  function EagerWindow(entries: seq<AccessLogEntry>): seq<AccessLogEntry> {
    if entries == [] then []
    else
      var n := |entries| - 1;
      AfterEvaluation(SlideIn(EagerWindow(entries[..n]), entries[n]))
  }

  predicate Calm(reqs: seq<AccessLogEntry>) {
    && |reqs| <= WINDOW
    && IdorCount(reqs) < 5
    && CallCount(reqs, "POST", "/login") < 5
    && ScrapingCount(reqs) < 10
    && CallCount(reqs, "POST", "/api/voucher/redeem") < 3
    && CallCount(reqs, "POST", "/api/register") < 3
  }

  lemma {:induction false} CountsBoundedByLength(reqs: seq<AccessLogEntry>)
    ensures var c := CountersOf(reqs);
            c.idor <= |reqs| && c.scraping <= |reqs| && c.voucher <= |reqs| && c.register <= |reqs| && c.login <= |reqs|
  {
    hide CountersOf, Hits, Visits, MatchResource, MatchProduct;
    if reqs == [] {
      NothingCounted();
    } else {
      var front, r := reqs[..|reqs| - 1], reqs[|reqs| - 1];
      assert reqs == front + [r];
      CountsBoundedByLength(front);
      CountersSnoc(front, r);
    }
  }

  lemma {:induction false} HitsOfCons(r: AccessLogEntry, reqs: seq<AccessLogEntry>)
    ensures Hits([r] + reqs) == (match MatchResource(r.path) case Some(h) => [h] case None => []) + Hits(reqs)
    ensures Visits([r] + reqs) == (match MatchProduct(r.path) case Some(id) => [Visit(id, r.verb == "GET")] case None => []) + Visits(reqs)
  {
    hide MatchResource, MatchProduct;
    if reqs == [] {
      assert [r] + reqs == [] + [r];
      HitsSnoc([], r);
    } else {
      var n := |reqs| - 1;
      assert [r] + reqs == ([r] + reqs[..n]) + [reqs[n]];
      HitsOfCons(r, reqs[..n]);
      HitsSnoc([r] + reqs[..n], reqs[n]);
    }
  }

  lemma SwitchCountTail(hits: seq<Hit>)
    requires hits != []
    ensures SwitchCount(hits[1..]) <= SwitchCount(hits)
    decreases |hits|
  {
    var n := |hits| - 1;
    if n == 0 {
    } else {
      var front := hits[..n];
      assert hits == front + [hits[n]];
      assert hits[1..] == front[1..] + [hits[n]];
      SwitchCountTail(front);
      SwitchCountSnoc(front, hits[n]);
      SwitchCountSnoc(front[1..], hits[n]);
    }
  }

  /** Dropping the oldest request raises neither the enumeration nor the login count. */
  lemma DroppingHead(reqs: seq<AccessLogEntry>)
    requires reqs != []
    ensures IdorCount(reqs[1..]) <= IdorCount(reqs)
    ensures CallCount(reqs[1..], "POST", "/login") <= CallCount(reqs, "POST", "/login")
  {
    assert reqs == [reqs[0]] + reqs[1..];
    HitsOfCons(reqs[0], reqs[1..]);
    if MatchResource(reqs[0].path).Some? {
      assert Hits(reqs)[1..] == Hits(reqs[1..]);
      SwitchCountTail(Hits(reqs));
    } else {
      assert Hits(reqs) == Hits(reqs[1..]);
    }
    CallCountTail(reqs, "POST", "/login");
  }

  lemma CallCountTail(reqs: seq<AccessLogEntry>, verb: string, path: string)
    requires reqs != []
    ensures CallCount(reqs[1..], verb, path) <= CallCount(reqs, verb, path)
    decreases |reqs|
  {
    var n := |reqs| - 1;
    if n == 0 {
      CallCountSnoc([], reqs[0], verb, path);
      assert reqs == [] + [reqs[0]];
    } else {
      var front := reqs[..n];
      assert reqs == front + [reqs[n]];
      assert reqs[1..] == front[1..] + [reqs[n]];
      CallCountTail(front, verb, path);
      CallCountSnoc(front, reqs[n], verb, path);
      CallCountSnoc(front[1..], reqs[n], verb, path);
    }
  }

  lemma SlideInRaisesByOne(reqs: seq<AccessLogEntry>, r: AccessLogEntry)
    ensures IdorCount(SlideIn(reqs, r)) <= IdorCount(reqs) + 1
    ensures CallCount(SlideIn(reqs, r), "POST", "/login") <= CallCount(reqs, "POST", "/login") + 1
  {
    CountersSnoc(reqs, r);
    DroppingHead(reqs + [r]);
  }

  lemma CalmAfterEvaluation(reqs: seq<AccessLogEntry>)
    requires |reqs| <= WINDOW
    ensures Calm(AfterEvaluation(reqs))
  {
    CountsBoundedByLength(AfterEvaluation(reqs));
    if Verdict(reqs).None? && |reqs| >= 3 {
      assert !Fires(Enumeration, reqs) && !Fires(LoginBruteForce, reqs) && !Fires(CatalogScraping, reqs)
          && !Fires(VoucherAbuse, reqs) && !Fires(AccountCreation, reqs);
    }
  }

  /** With an evaluation after every request the window is always calm. */
  lemma {:induction false} EagerWindowIsCalm(entries: seq<AccessLogEntry>)
    ensures Calm(EagerWindow(entries))
  {
    if entries == [] {
      CountsBoundedByLength([]);
    } else {
      var n := |entries| - 1;
      EagerWindowIsCalm(entries[..n]);
      CalmAfterEvaluation(SlideIn(EagerWindow(entries[..n]), entries[n]));
    }
  }

  /** Then the enumeration and login rules fire on the request that brings the count to exactly five. */
  lemma EagerVerdictsFireAtFive(entries: seq<AccessLogEntry>, r: AccessLogEntry)
    ensures
      var w := SlideIn(EagerWindow(entries), r);
      && (Verdict(w) == Some(Enumeration) <==> IdorCount(w) == 5)
      && (Verdict(w) == Some(LoginBruteForce) <==> CallCount(w, "POST", "/login") == 5 && IdorCount(w) < 5)
  {
    EagerWindowIsCalm(entries);
    SlideInRaisesByOne(EagerWindow(entries), r);
    var w := SlideIn(EagerWindow(entries), r);
    CountsBoundedByLength(w);
    assert Verdict(w) == Some(Enumeration) ==> Fires(Enumeration, w);
    assert Verdict(w) == Some(LoginBruteForce) ==> Fires(LoginBruteForce, w) && Rank(Enumeration) < Rank(LoginBruteForce);
  }

  // ---------------------------------------------------------------- how far one request raises the scraping count

  /** The head of a list of visits matters to its own count and to that of the next visit. */
  lemma {:induction false} FreshVisitCons(v: Visit, visits: seq<Visit>)
    ensures FreshVisitCount([v] + visits) + Bump(visits != [] && visits[0].get && visits[0].id == v.id) ==
            FreshVisitCount(visits) + Bump(v.get)
    decreases |visits|
  {
    hide FreshVisitCount;
    if visits == [] {
      FreshVisitCountSnoc([], v);
      assert [v] + visits == [] + [v];
    } else {
      var n := |visits| - 1;
      var front, last := visits[..n], visits[n];
      FreshVisitCons(v, front);
      FreshVisitCountSnoc([v] + front, last);
      FreshVisitCountSnoc(front, last);
      assert [v] + visits == ([v] + front) + [last] && visits == front + [last];
    }
  }

  /** The request is counted when it joins the window. */
  predicate Counts(reqs: seq<AccessLogEntry>, r: AccessLogEntry) {
    && IsProductHit(r) && r.verb == "GET"
    && (Visits(reqs) == [] || Visits(reqs)[|Visits(reqs)| - 1].id != MatchProduct(r.path).value)
  }

  /** Dropping the head uncovers the next visit: the head visited a product otherwise than by GET,
      and the next visit is a GET of the same product. */
  predicate Uncovers(reqs: seq<AccessLogEntry>) {
    && reqs != [] && IsProductHit(reqs[0]) && reqs[0].verb != "GET"
    && |Visits(reqs)| > 1 && Visits(reqs)[1].get && Visits(reqs)[1].id == MatchProduct(reqs[0].path).value
  }

  lemma DroppingHeadUncovers(reqs: seq<AccessLogEntry>)
    requires reqs != []
    ensures ScrapingCount(reqs[1..]) <= ScrapingCount(reqs) + Bump(Uncovers(reqs))
    ensures Uncovers(reqs) ==> ScrapingCount(reqs[1..]) == ScrapingCount(reqs) + 1
  {
    hide FreshVisitCount, MatchProduct, MatchResource, Visits, Hits;
    assert reqs == [reqs[0]] + reqs[1..];
    HitsOfCons(reqs[0], reqs[1..]);
    if IsProductHit(reqs[0]) {
      var v, rest := Visit(MatchProduct(reqs[0].path).value, reqs[0].verb == "GET"), Visits(reqs[1..]);
      FreshVisitCons(v, rest);
      assert Visits(reqs) == [v] + rest;
    } else {
      assert Visits(reqs) == Visits(reqs[1..]);
    }
  }

  /** One request raises the scraping count by at most two, and by two exactly when the window is
      full, the dropped head uncovers the next visit, and the request itself is counted. */
  lemma ScrapingRiseExact(reqs: seq<AccessLogEntry>, r: AccessLogEntry)
    requires |reqs| <= WINDOW
    ensures ScrapingCount(SlideIn(reqs, r)) <= ScrapingCount(reqs) + 2
    ensures ScrapingCount(SlideIn(reqs, r)) == ScrapingCount(reqs) + 2 <==> |reqs| == WINDOW && Uncovers(reqs) && Counts(reqs, r)
  {
    hide FreshVisitCount, MatchProduct, MatchResource, Visits, Hits;
    var more := reqs + [r];
    CountersSnoc(reqs, r);
    HitsSnoc(reqs, r);
    if |reqs| == WINDOW {
      DroppingHeadUncovers(more);
      assert more[0] == reqs[0];
      HitsOfCons(reqs[0], reqs[1..]);
      assert reqs == [reqs[0]] + reqs[1..];
      assert Counts(reqs, r) ==> (Uncovers(more) <==> Uncovers(reqs));
    }
  }

  /** A request outside every pattern. */
  const FILLER := AccessLogEntry("GET", "/", "c", "", 0, "200")

  function Fillers(n: nat): (f: seq<AccessLogEntry>)
    ensures |f| == n
  {
    if n == 0 then [] else Fillers(n - 1) + [FILLER]
  }

  lemma FillerIsNoVisit()
    ensures MatchProduct(FILLER.path) == None
  {
  }

  lemma {:induction false} FillersVisitNothing(reqs: seq<AccessLogEntry>, n: nat)
    ensures Visits(reqs + Fillers(n)) == Visits(reqs)
  {
    hide MatchResource, MatchProduct, Hits, Visits, FILLER;
    FillerIsNoVisit();
    if n == 0 {
      assert reqs + Fillers(n) == reqs;
    } else {
      FillersVisitNothing(reqs, n - 1);
      assert reqs + Fillers(n) == (reqs + Fillers(n - 1)) + [FILLER];
      HitsSnoc(reqs + Fillers(n - 1), FILLER);
    }
  }

  lemma VisitCounts()
    ensures FreshVisitCount([Visit("1", false), Visit("1", true)]) == 0
    ensures FreshVisitCount([Visit("1", true), Visit("2", true)]) == 2
  {
    var a, b, c := Visit("1", false), Visit("1", true), Visit("2", true);
    FreshVisitCountSnoc([], a);
    FreshVisitCountSnoc([a], b);
    FreshVisitCountSnoc([], b);
    FreshVisitCountSnoc([b], c);
    assert [] + [a] == [a] && [] + [b] == [b] && [a] + [b] == [a, b] && [b] + [c] == [b, c];
    assert "1" != "2";
  }

  lemma NoVisits()
    ensures Visits([]) == []
  {
  }

  lemma VisitsAround(first: seq<AccessLogEntry>, n: nat, last: seq<AccessLogEntry>)
    requires |last| <= 1
    ensures Visits(first + Fillers(n) + last) == Visits(first) + Visits(last)
  {
    hide MatchResource, MatchProduct, Fillers, Hits, Visits;
    NoVisits();
    FillersVisitNothing(first, n);
    if last == [] {
      assert first + Fillers(n) + last == first + Fillers(n);
    } else {
      HitsSnoc(first + Fillers(n), last[0]);
      HitsSnoc([], last[0]);
      assert last == [] + [last[0]];
      assert first + Fillers(n) + last == (first + Fillers(n)) + [last[0]];
    }
  }

  lemma OneVisit(r: AccessLogEntry, id: string)
    requires r.path == PRODUCT_SLASH + id && Digits(id)
    ensures Visits([r]) == [Visit(id, r.verb == "GET")]
  {
    MatchProductExact(r.path, id);
    HitsSnoc([], r);
    assert [] + [r] == [r];
  }

  lemma TwoVisits(a: AccessLogEntry, b: AccessLogEntry)
    ensures Visits([a, b]) == Visits([a]) + Visits([b])
  {
    HitsSnoc([a], b);
    HitsSnoc([], b);
    assert [a] + [b] == [a, b] && [] + [b] == [b];
  }

  /** The rise by two occurs: dropping a POST to a product uncovers a GET of the same product. */
  lemma ScrapingMayRiseByTwo()
    ensures exists reqs, r :: |reqs| == WINDOW && ScrapingCount(SlideIn(reqs, r)) == ScrapingCount(reqs) + 2
  {
    hide MatchResource, MatchProduct, Fillers, Hits, Visits, FreshVisitCount;
    NoVisits();
    var post := FILLER.(verb := "POST", path := PRODUCT_SLASH + "1");
    var get := FILLER.(path := PRODUCT_SLASH + "1");
    var next := FILLER.(path := PRODUCT_SLASH + "2");
    var reqs := [post, get] + Fillers(13);
    var slid := [get] + Fillers(13) + [next];
    assert SlideIn(reqs, next) == slid;
    OneVisit(post, "1");
    OneVisit(get, "1");
    OneVisit(next, "2");
    TwoVisits(post, get);
    VisitsAround([post, get], 13, []);
    VisitsAround([get], 13, [next]);
    assert reqs == [post, get] + Fillers(13) + [];
    VisitCounts();
    assert ScrapingCount(slid) == 2 && ScrapingCount(reqs) == 0 by {
      assert post.verb != "GET" by { assert "POST" != "GET"; }
      assert Visits(reqs) == [Visit("1", false), Visit("1", true)];
      assert Visits(slid) == [Visit("1", true), Visit("2", true)];
    }
  }

  // ---------------------------------------------------------------- clients do not interfere

  datatype ClientEvent = ClientEvent(ip: string, event: Event)

  function Tracker(run: seq<ClientEvent>): map<string, seq<AccessLogEntry>> {
    if run == [] then map[]
    else
      var n := |run| - 1;
      var before := Tracker(run[..n]);
      var ip := run[n].ip;
      var window := if ip in before then before[ip] else [];
      match run[n].event
      case Ingest(entry) => before[ip := SlideIn(window, entry)]
      case Evaluate => if ip in before then before[ip := AfterEvaluation(window)] else before
  }

  function Project(run: seq<ClientEvent>, ip: string): seq<Event> {
    if run == [] then []
    else
      var n := |run| - 1;
      Project(run[..n], ip) + if run[n].ip == ip then [run[n].event] else []
  }

  /** A client's window depends only on that client's own requests and evaluations. */
  lemma {:induction false} ClientsAreIsolated(run: seq<ClientEvent>, ip: string)
    ensures ip in Tracker(run) ==> Tracker(run)[ip] == Window(Project(run, ip))
    ensures ip !in Tracker(run) ==> Window(Project(run, ip)) == []
  {
    hide SlideIn, AfterEvaluation, Window;
    if run == [] {
      NothingIngested();
    } else {
      var n := |run| - 1;
      ClientsAreIsolated(run[..n], ip);
      if run[n].ip == ip {
        WindowSnoc(Project(run[..n], ip), run[n].event);
        assert Project(run, ip) == Project(run[..n], ip) + [run[n].event];
      } else {
        assert Project(run, ip) == Project(run[..n], ip);
      }
      if ip !in Tracker(run) {
        NothingChanges();
      }
    }
  }

  lemma NothingIngested()
    ensures Window([]) == []
  {
  }

  lemma NothingChanges()
    ensures AfterEvaluation([]) == []
  {
  }

  lemma WindowSnoc(run: seq<Event>, e: Event)
    ensures Window(run + [e]) == match e
                                 case Ingest(entry) => SlideIn(Window(run), entry)
                                 case Evaluate => AfterEvaluation(Window(run))
  {
    hide SlideIn, AfterEvaluation;
    assert (run + [e])[..|run|] == run;
  }
}
