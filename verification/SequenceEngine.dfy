/** Per-client request windows and the single-pass scan that judges them
    (management-plane/sequence_engine.go). */
module SequenceEngine {
  import opened Wrappers
  import opened Strings

  datatype AccessLogEntry = AccessLogEntry(verb: string, path: string, clientIP: string,
                                           token: string, timestamp: int, responseCode: string)

  /** What the enumeration pattern captures: the collection and the item number. */
  datatype Hit = Hit(prefix: string, id: string)

  /** What the scraping pattern captures, with whether the request was a GET. */
  datatype Visit = Visit(id: string, get: bool)

  datatype Violation =
    | Enumeration | LoginBruteForce | CheckoutBypass | CatalogScraping
    | VoucherAbuse | AccountCreation | LowBotScore

  const WINDOW := 15
  const API := "/api/"
  const PRODUCT := "/api/product"
  const PRODUCT_SLASH := "/api/product/"

  // ---------------------------------------------------------------- path patterns

  /** `^(/api/[^/]+)/(\d+)$` */
  function MatchResource(path: string): Option<Hit> {
    if HasPrefix(path, API) then
      var rest := path[|API|..];
      var j := IndexOf(rest, '/');
      if 0 < j < |rest| && Digits(rest[j + 1..]) then
        Some(Hit(path[..|API| + j], rest[j + 1..]))
      else None
    else None
  }

  /** `^/api/product/(\d+)$` */
  function MatchProduct(path: string): Option<string> {
    if HasPrefix(path, PRODUCT_SLASH) && Digits(path[|PRODUCT_SLASH|..]) then
      Some(path[|PRODUCT_SLASH|..])
    else None
  }

  /** The language of the first pattern, without a search. */
  predicate IsResource(path: string, h: Hit) {
    && HasPrefix(h.prefix, API)
    && h.prefix != API
    && '/' !in h.prefix[|API|..]
    && Digits(h.id)
    && path == h.prefix + "/" + h.id
  }

  lemma MatchResourceExact(path: string, h: Hit)
    ensures MatchResource(path) == Some(h) <==> IsResource(path, h)
  {
    if IsResource(path, h) {
      var seg := h.prefix[|API|..];
      var rest := path[|API|..];
      assert h.prefix == API + seg;
      assert rest == seg + ['/'] + h.id;
      IndexOfUnique(seg, '/', h.id);
      assert rest[|seg| + 1..] == h.id;
      assert path[..|API| + |seg|] == h.prefix;
    }
    if MatchResource(path) == Some(h) {
      var rest := path[|API|..];
      var j := IndexOf(rest, '/');
      assert h.prefix[..|API|] == API;
      assert h.prefix[|API|..] == rest[..j];
      assert path == path[..|API| + j] + [rest[j]] + rest[j + 1..];
    }
  }

  lemma MatchProductExact(path: string, id: string)
    ensures MatchProduct(path) == Some(id) <==> Digits(id) && path == PRODUCT_SLASH + id
  {
  }

  /** The two patterns agree: a product page is an item of the collection `/api/product`. */
  lemma ProductIsResource(path: string, id: string)
    ensures MatchProduct(path) == Some(id) <==> MatchResource(path) == Some(Hit(PRODUCT, id))
  {
    MatchProductExact(path, id);
    MatchResourceExact(path, Hit(PRODUCT, id));
    assert PRODUCT[..|API|] == API;
    assert PRODUCT[|API|..] == "product";
    assert PRODUCT + "/" == PRODUCT_SLASH;
    assert PRODUCT + "/" + id == PRODUCT_SLASH + id;
  }

  // ---------------------------------------------------------------- what is counted

  /** The requests that name an item, in order. */
  function Hits(reqs: seq<AccessLogEntry>): seq<Hit> {
    if reqs == [] then []
    else
      var n := |reqs| - 1;
      match MatchResource(reqs[n].path)
      case Some(h) => Hits(reqs[..n]) + [h]
      case None => Hits(reqs[..n])
  }

  /** The product pages visited, in order. */
  function Visits(reqs: seq<AccessLogEntry>): seq<Visit> {
    if reqs == [] then []
    else
      var n := |reqs| - 1;
      match MatchProduct(reqs[n].path)
      case Some(id) => Visits(reqs[..n]) + [Visit(id, reqs[n].verb == "GET")]
      case None => Visits(reqs[..n])
  }

  predicate IsSwitch(hits: seq<Hit>, i: int) {
    0 < i < |hits| && hits[i].prefix == hits[i - 1].prefix && hits[i].id != hits[i - 1].id
  }

  predicate IsFreshVisit(visits: seq<Visit>, i: int) {
    0 <= i < |visits| && visits[i].get && (i == 0 || visits[i].id != visits[i - 1].id)
  }

  function SwitchCount(hits: seq<Hit>): nat {
    |set i | 0 <= i < |hits| && IsSwitch(hits, i)|
  }

  function FreshVisitCount(visits: seq<Visit>): nat {
    |set i | 0 <= i < |visits| && IsFreshVisit(visits, i)|
  }

  /** Adjacent hits in the same collection with different item numbers. */
  function IdorCount(reqs: seq<AccessLogEntry>): nat {
    SwitchCount(Hits(reqs))
  }

  /** GET visits whose product differs from the previous visit's. */
  function ScrapingCount(reqs: seq<AccessLogEntry>): nat {
    FreshVisitCount(Visits(reqs))
  }

  predicate IsCall(r: AccessLogEntry, verb: string, path: string) {
    r.verb == verb && r.path == path
  }

  function CallCount(reqs: seq<AccessLogEntry>, verb: string, path: string): nat {
    |set i | 0 <= i < |reqs| && IsCall(reqs[i], verb, path)|
  }

  predicate Visited(reqs: seq<AccessLogEntry>, path: string) {
    exists i | 0 <= i < |reqs| :: reqs[i].path == path
  }

  // ---------------------------------------------------------------- one more request

  lemma HitsSnoc(reqs: seq<AccessLogEntry>, r: AccessLogEntry)
    ensures Hits(reqs + [r]) == Hits(reqs) + (match MatchResource(r.path) case Some(h) => [h] case None => [])
    ensures Visits(reqs + [r]) == Visits(reqs) + (match MatchProduct(r.path) case Some(id) => [Visit(id, r.verb == "GET")] case None => [])
  {
    assert (reqs + [r])[..|reqs|] == reqs;
  }

  lemma IsSwitchOfFront(hits: seq<Hit>, h: Hit, i: nat)
    requires i < |hits|
    ensures IsSwitch(hits + [h], i) <==> IsSwitch(hits, i)
  {
  }

  lemma SwitchCountSnoc(hits: seq<Hit>, h: Hit)
    ensures SwitchCount(hits + [h]) == SwitchCount(hits) + if IsSwitch(hits + [h], |hits|) then 1 else 0
  {
    hide IsSwitch;
    var more := hits + [h];
    var before := set i | 0 <= i < |hits| && IsSwitch(hits, i);
    var after := set i | 0 <= i < |more| && IsSwitch(more, i);
    forall i | 0 <= i < |hits| ensures IsSwitch(more, i) <==> IsSwitch(hits, i) {
      IsSwitchOfFront(hits, h, i);
    }
    assert after == before + (if IsSwitch(more, |hits|) then {|hits|} else {});
  }

  lemma IsFreshVisitOfFront(visits: seq<Visit>, v: Visit, i: nat)
    requires i < |visits|
    ensures IsFreshVisit(visits + [v], i) <==> IsFreshVisit(visits, i)
  {
  }

  lemma FreshVisitCountSnoc(visits: seq<Visit>, v: Visit)
    ensures FreshVisitCount(visits + [v]) == FreshVisitCount(visits) + if IsFreshVisit(visits + [v], |visits|) then 1 else 0
  {
    hide IsFreshVisit;
    var more := visits + [v];
    var before := set i | 0 <= i < |visits| && IsFreshVisit(visits, i);
    var after := set i | 0 <= i < |more| && IsFreshVisit(more, i);
    forall i | 0 <= i < |visits| ensures IsFreshVisit(more, i) <==> IsFreshVisit(visits, i) {
      IsFreshVisitOfFront(visits, v, i);
    }
    assert after == before + (if IsFreshVisit(more, |visits|) then {|visits|} else {});
  }

  lemma CallCountSnoc(reqs: seq<AccessLogEntry>, r: AccessLogEntry, verb: string, path: string)
    ensures CallCount(reqs + [r], verb, path) == CallCount(reqs, verb, path) + if IsCall(r, verb, path) then 1 else 0
  {
    var more := reqs + [r];
    var before := set i | 0 <= i < |reqs| && IsCall(reqs[i], verb, path);
    var after := set i | 0 <= i < |more| && IsCall(more[i], verb, path);
    assert after == before + (if IsCall(r, verb, path) then {|reqs|} else {});
  }

  // ---------------------------------------------------------------- verdicts

  /** The seven rules, each stated on its own. */
  predicate Fires(v: Violation, reqs: seq<AccessLogEntry>) {
    match v
    case Enumeration => IdorCount(reqs) >= 5
    case LoginBruteForce => CallCount(reqs, "POST", "/login") >= 5
    case CheckoutBypass => reqs != [] && IsCall(reqs[|reqs| - 1], "POST", "/checkout") && !Visited(reqs, "/cart")
    case CatalogScraping => ScrapingCount(reqs) >= 10
    case VoucherAbuse => CallCount(reqs, "POST", "/api/voucher/redeem") >= 3
    case AccountCreation => CallCount(reqs, "POST", "/api/register") >= 3
    case LowBotScore => |reqs| >= WINDOW && reqs[|reqs| - 1].timestamp - reqs[0].timestamp < 5
  }

  function Rank(v: Violation): nat {
    match v
    case Enumeration => 0
    case LoginBruteForce => 1
    case CheckoutBypass => 2
    case CatalogScraping => 3
    case VoucherAbuse => 4
    case AccountCreation => 5
    case LowBotScore => 6
  }

  function ActionOf(v: Violation): string {
    if v == LowBotScore then "CHALLENGE" else "BLOCK"
  }

  /** No verdict under three requests; otherwise the firing rule that no other firing rule precedes. */
  ghost predicate IsVerdict(reqs: seq<AccessLogEntry>, verdict: Option<Violation>) {
    match verdict
    case None => |reqs| < 3 || forall v: Violation :: !Fires(v, reqs)
    case Some(v) => |reqs| >= 3 && Fires(v, reqs) && forall u: Violation | Rank(u) < Rank(v) :: !Fires(u, reqs)
  }

  lemma VerdictUnique(reqs: seq<AccessLogEntry>, a: Option<Violation>, b: Option<Violation>)
    requires IsVerdict(reqs, a) && IsVerdict(reqs, b)
    ensures a == b
  {
    if a.Some? && b.Some? {
      assert !(Rank(a.value) < Rank(b.value)) && !(Rank(b.value) < Rank(a.value));
    }
  }

  function Verdict(reqs: seq<AccessLogEntry>): (verdict: Option<Violation>)
    ensures IsVerdict(reqs, verdict)
  {
    if |reqs| < 3 then None
    else if Fires(Enumeration, reqs) then Some(Enumeration)
    else if Fires(LoginBruteForce, reqs) then Some(LoginBruteForce)
    else if Fires(CheckoutBypass, reqs) then Some(CheckoutBypass)
    else if Fires(CatalogScraping, reqs) then Some(CatalogScraping)
    else if Fires(VoucherAbuse, reqs) then Some(VoucherAbuse)
    else if Fires(AccountCreation, reqs) then Some(AccountCreation)
    else if Fires(LowBotScore, reqs) then Some(LowBotScore)
    else None
  }

  /** What the loop leaves in its six counters. */
  datatype Counters = Counters(idor: nat, scraping: nat, voucher: nat, register: nat, login: nat, cart: bool)

  function CountersOf(reqs: seq<AccessLogEntry>): Counters {
    Counters(IdorCount(reqs), ScrapingCount(reqs), CallCount(reqs, "POST", "/api/voucher/redeem"),
             CallCount(reqs, "POST", "/api/register"), CallCount(reqs, "POST", "/login"), Visited(reqs, "/cart"))
  }

  function Bump(b: bool): nat {
    if b then 1 else 0
  }

  /** How one more request changes each counter. */
  lemma CountersSnoc(reqs: seq<AccessLogEntry>, r: AccessLogEntry)
    ensures
      var hits, visits, h, p := Hits(reqs), Visits(reqs), MatchResource(r.path), MatchProduct(r.path);
      var c, d := CountersOf(reqs), CountersOf(reqs + [r]);
      && d.idor == c.idor + Bump(h.Some? && hits != [] && hits[|hits| - 1].prefix == h.value.prefix && hits[|hits| - 1].id != h.value.id)
      && d.scraping == c.scraping + Bump(p.Some? && r.verb == "GET" && (visits == [] || visits[|visits| - 1].id != p.value))
      && d.voucher == c.voucher + Bump(IsCall(r, "POST", "/api/voucher/redeem"))
      && d.register == c.register + Bump(IsCall(r, "POST", "/api/register"))
      && d.login == c.login + Bump(IsCall(r, "POST", "/login"))
      && d.cart == (c.cart || r.path == "/cart")
  {
    HitsSnoc(reqs, r);
    if MatchResource(r.path).Some? {
      SwitchCountSnoc(Hits(reqs), MatchResource(r.path).value);
    }
    if MatchProduct(r.path).Some? {
      FreshVisitCountSnoc(Visits(reqs), Visit(MatchProduct(r.path).value, r.verb == "GET"));
    }
    CallCountSnoc(reqs, r, "POST", "/api/voucher/redeem");
    CallCountSnoc(reqs, r, "POST", "/api/register");
    CallCountSnoc(reqs, r, "POST", "/login");
    VisitedSnoc(reqs, r, "/cart");
  }

  lemma VisitedSnoc(reqs: seq<AccessLogEntry>, r: AccessLogEntry, path: string)
    ensures Visited(reqs + [r], path) <==> Visited(reqs, path) || r.path == path
  {
    var more := reqs + [r];
    assert more[|reqs|] == r;
    assert forall i | 0 <= i < |reqs| :: more[i] == reqs[i];
  }

  lemma NothingCounted()
    ensures CountersOf([]) == Counters(0, 0, 0, 0, 0, false) && Hits([]) == [] && Visits([]) == []
  {
  }

  /** The single pass: five counters and a flag, with the last prefix, item and product carried along. */
  method Scan(reqs: seq<AccessLogEntry>) returns (c: Counters)
    ensures c == CountersOf(reqs)
  {
    hide MatchResource, MatchProduct, CountersOf, Hits, Visits;
    NothingCounted();
    var idorCount, scrapingCount, voucherCount, registerCount, loginCount := 0, 0, 0, 0, 0;
    var lastPrefix, lastID, lastScrapeID := "", "", "";
    var hasCart := false;
    for k := 0 to |reqs|
      invariant Counters(idorCount, scrapingCount, voucherCount, registerCount, loginCount, hasCart) == CountersOf(reqs[..k])
      invariant CarriedHit(Hits(reqs[..k]), lastPrefix, lastID)
      invariant CarriedVisit(Visits(reqs[..k]), lastScrapeID)
    {
      var req := reqs[k];
      assert reqs[..k + 1] == reqs[..k] + [req];
      HitsSnoc(reqs[..k], req);
      CountersSnoc(reqs[..k], req);
      var matches := MatchResource(req.path);
      MatchedIsNonEmpty(req.path);
      if matches.Some? {
        var prefix, id := matches.value.prefix, matches.value.id;
        if prefix == lastPrefix && id != lastID {
          idorCount := idorCount + 1;
        }
        lastPrefix := prefix;
        lastID := id;
      }
      var scrapeMatches := MatchProduct(req.path);
      if scrapeMatches.Some? {
        var id := scrapeMatches.value;
        if req.verb == "GET" && id != lastScrapeID {
          scrapingCount := scrapingCount + 1;
        }
        lastScrapeID := id;
      }
      if req.path == "/api/voucher/redeem" && req.verb == "POST" {
        voucherCount := voucherCount + 1;
      }
      if req.path == "/api/register" && req.verb == "POST" {
        registerCount := registerCount + 1;
      }
      if req.path == "/login" && req.verb == "POST" {
        loginCount := loginCount + 1;
      }
      if req.path == "/cart" {
        hasCart := true;
      }
    }
    assert reqs[..|reqs|] == reqs;
    c := Counters(idorCount, scrapingCount, voucherCount, registerCount, loginCount, hasCart);
  }

  /** `lastPrefix` and `lastID` are those of the last hit; both are empty before the first one. */
  predicate CarriedHit(hits: seq<Hit>, lastPrefix: string, lastID: string) {
    if hits == [] then lastPrefix == "" && lastID == "" else hits[|hits| - 1] == Hit(lastPrefix, lastID)
  }

  predicate CarriedVisit(visits: seq<Visit>, lastScrapeID: string) {
    if visits == [] then lastScrapeID == "" else visits[|visits| - 1].id == lastScrapeID
  }

  lemma MatchedIsNonEmpty(path: string)
    ensures MatchResource(path).Some? ==> MatchResource(path).value.prefix != "" && MatchResource(path).value.id != ""
    ensures MatchProduct(path).Some? ==> MatchProduct(path).value != ""
  {
    if MatchResource(path).Some? {
      MatchResourceExact(path, MatchResource(path).value);
    }
  }

  /** Append, then drop the head once there are more than fifteen. */
  function SlideIn(reqs: seq<AccessLogEntry>, r: AccessLogEntry): seq<AccessLogEntry> {
    var more := reqs + [r];
    if |more| > WINDOW then more[1..] else more
  }

  /** A verdict empties the window. */
  function AfterEvaluation(reqs: seq<AccessLogEntry>): seq<AccessLogEntry> {
    if Verdict(reqs).Some? then [] else reqs
  }

  /** One client's window; every method runs with the window's mutex held. */
  class SequenceWindow {
    var requests: seq<AccessLogEntry>

    constructor ()
      ensures requests == []
    {
      requests := [];
    }

    method Append(payload: AccessLogEntry)
      modifies this
      ensures requests == SlideIn(old(requests), payload)
    {
      requests := requests + [payload];
      if |requests| > WINDOW {
        requests := requests[1..];
      }
    }

    method Evaluate() returns (verdict: Option<Violation>)
      modifies this
      ensures verdict == Verdict(old(requests))
      ensures requests == AfterEvaluation(old(requests))
    {
      hide IdorCount, ScrapingCount, CallCount, Visited;
      var reqs := requests;
      if |reqs| < 3 {
        return None;
      }
      var botScore := 100;
      if |reqs| >= WINDOW {
        var timeDiff := reqs[|reqs| - 1].timestamp - reqs[0].timestamp;
        if timeDiff < 5 {
          botScore := botScore - 60;
        } else if timeDiff < 10 {
          botScore := botScore - 30;
        }
      }
      var c := Scan(reqs);
      var lastReq := reqs[|reqs| - 1];
      if c.idor >= 5 {
        verdict := Some(Enumeration);
      } else if c.login >= 5 {
        verdict := Some(LoginBruteForce);
      } else if lastReq.path == "/checkout" && lastReq.verb == "POST" && !c.cart {
        verdict := Some(CheckoutBypass);
      } else if c.scraping >= 10 {
        verdict := Some(CatalogScraping);
      } else if c.voucher >= 3 {
        verdict := Some(VoucherAbuse);
      } else if c.register >= 3 {
        verdict := Some(AccountCreation);
      } else if botScore <= 40 {
        verdict := Some(LowBotScore);
      } else {
        return None;
      }
      requests := [];
    }
  }

  /** All windows, one per client address. */
  class SequenceTracker {
    var windows: map<string, SequenceWindow>

    /** No two clients share a window. */
    ghost predicate Valid()
      reads this
    {
      forall a, b | a in windows && b in windows && a != b :: windows[a] != windows[b]
    }

    ghost function Contents(): map<string, seq<AccessLogEntry>>
      reads this, windows.Values
    {
      map ip | ip in windows :: windows[ip].requests
    }

    constructor ()
      ensures Valid() && Contents() == map[]
    {
      windows := map[];
    }

    method GetSequenceWindow(ip: string) returns (window: SequenceWindow)
      requires Valid()
      modifies this
      ensures Valid() && ip in windows && windows[ip] == window
      ensures windows.Values - old(windows.Values) <= {window}
      ensures ip in old(windows) ==> windows == old(windows)
      ensures ip !in old(windows) ==> fresh(window) && window.requests == [] && windows == old(windows)[ip := window]
    {
      if ip in windows {
        return windows[ip];
      }
      window := new SequenceWindow();
      windows := windows[ip := window];
      assert windows[ip] == window && window in windows.Values;
    }

    /** A log entry without a client address is acknowledged and dropped; the others slide into
        their client's window and leave every other window alone. */
    method IngestAccessLog(payload: AccessLogEntry)
      requires Valid()
      modifies this, windows.Values
      ensures Valid()
      ensures Contents() ==
              if payload.clientIP == "" then old(Contents())
              else old(Contents())[payload.clientIP :=
                SlideIn(if payload.clientIP in old(Contents()) then old(Contents())[payload.clientIP] else [], payload)]
    {
      if payload.clientIP == "" {
        return;
      }
      var window := GetSequenceWindow(payload.clientIP);
      window.Append(payload);
    }

    method EvaluateClient(ip: string) returns (verdict: Option<Violation>)
      requires Valid() && ip in windows
      modifies windows.Values
      ensures Valid()
      ensures verdict == Verdict(old(Contents())[ip])
      ensures Contents() == old(Contents())[ip := AfterEvaluation(old(Contents())[ip])]
    {
      var window := windows[ip];
      verdict := window.Evaluate();
    }
  }
}
