/** Incident transitions, the campaign, anomaly and console actions, and the blocklist they write
    (management-plane/risk_posture_engine.go, attack_intelligence.go, policy_engine_v2.go, main.go). */
module Containment {
  import opened Wrappers
  import opened Strings
  import opened PolicyChain

  datatype Incident = Incident(code: string, attackerIP: string, status: string, resolvedAt: Option<int>)

  datatype Transition = Transition(incident: int, from: string, to: string, who: string, note: string)

  /** `score`: the anomaly score with two decimals. */
  datatype Signal = Signal(clientIP: string, status: string, action: string, score: string)

  datatype Campaign = Campaign(code: string, sourceIP: string, status: string)

  datatype State = State(blocklist: map<string, string>, incidents: map<int, Incident>, log: seq<Transition>,
                         signals: map<int, Signal>, campaigns: map<int, Campaign>, now: int)

  datatype Event =
    | Move(id: int, to: string, who: string, note: string)
    | Enforce(signal: int, action: string)
    | Contain(campaign: int)
    | Block(ip: string, reason: string)
    | Unblock(ip: string)
    | Wait(seconds: nat)

  const QUARANTINED := "Quarantined from Incident "
  const ENFORCED := "AI Anomaly Signal Enforced (Score: "
  const AUTO_CONTAINED := "Auto-Contained from Attack Campaign "
  const QUICK_BLOCK := "Quick block from SOC console"
  const TRANSITIONED := "Incident transitioned to "

  function Or(s: string, default: string): string {
    if s == "" then default else s
  }

  /** A transition to an empty status or of an unknown incident is refused. */
  function AfterMove(s: State, id: int, to: string, who: string, note: string): State {
    if to == "" || id !in s.incidents then s
    else
      var inc := s.incidents[id];
      s.(incidents := s.incidents[id := inc.(status := to, resolvedAt := if to == "RESOLVED" then Some(s.now) else inc.resolvedAt)],
         log := s.log + [Transition(id, inc.status, to, Or(who, "soc-engineer"), Or(note, TRANSITIONED + to))],
         blocklist := if to == "CONTAINED" then s.blocklist[inc.attackerIP := QUARANTINED + inc.code] else s.blocklist)
  }

  function AfterEnforce(s: State, signal: int, action: string): State {
    if signal !in s.signals then s
    else
      var applied := Or(action, "CHALLENGE");
      var sig := s.signals[signal];
      s.(signals := s.signals[signal := sig.(status := "ENFORCED", action := applied)],
         blocklist := if applied == "BLOCK" then s.blocklist[sig.clientIP := ENFORCED + sig.score + ")"] else s.blocklist)
  }

  function AfterContain(s: State, campaign: int): State {
    if campaign !in s.campaigns then s
    else
      var c := s.campaigns[campaign];
      s.(campaigns := s.campaigns[campaign := c.(status := "CONTAINED")],
         blocklist := s.blocklist[c.sourceIP := AUTO_CONTAINED + c.code])
  }

  function Next(s: State, e: Event): State {
    match e
    case Move(id, to, who, note) => AfterMove(s, id, to, who, note)
    case Enforce(signal, action) => AfterEnforce(s, signal, action)
    case Contain(campaign) => AfterContain(s, campaign)
    case Block(ip, reason) =>
      if TrimSpace(ip) == "" then s
      else s.(blocklist := s.blocklist[TrimSpace(ip) := Or(reason, QUICK_BLOCK)])
    case Unblock(ip) => if TrimSpace(ip) == "" then s else s.(blocklist := s.blocklist - {ip})
    case Wait(seconds) => s.(now := s.now + seconds)
  }

  function Exec(s: State, run: seq<Event>): State {
    if run == [] then s else Next(Exec(s, run[..|run| - 1]), run[|run| - 1])
  }

  // ---------------------------------------------------------------- the handlers

  class IncidentDesk {
    var blocklist: map<string, string>
    var incidents: map<int, Incident>
    var log: seq<Transition>
    var signals: map<int, Signal>
    var campaigns: map<int, Campaign>

    ghost function At(now: int): State
      reads this
    {
      State(blocklist, incidents, log, signals, campaigns, now)
    }

    constructor (incidents: map<int, Incident>, signals: map<int, Signal>, campaigns: map<int, Campaign>)
      ensures forall now :: At(now) == State(map[], incidents, [], signals, campaigns, now)
    {
      blocklist := map[];
      this.incidents := incidents;
      log := [];
      this.signals := signals;
      this.campaigns := campaigns;
    }

    method TransitionIncident(id: int, toStatus: string, changedBy: string, auditNote: string, now: int) returns (accepted: bool)
      modifies this
      ensures accepted == (toStatus != "" && id in old(incidents))
      ensures At(now) == AfterMove(old(At(now)), id, toStatus, changedBy, auditNote)
    {
      hide QUARANTINED, ENFORCED, AUTO_CONTAINED, QUICK_BLOCK, TRANSITIONED;
      if toStatus == "" {
        return false;
      }
      var who, note := changedBy, auditNote;
      if who == "" {
        who := "soc-engineer";
      }
      if note == "" {
        note := TRANSITIONED + toStatus;
      }
      if id !in incidents {
        return false;
      }
      var inc := incidents[id];
      var resolvedAt := inc.resolvedAt;
      if toStatus == "RESOLVED" {
        resolvedAt := Some(now);
      }
      incidents := incidents[id := inc.(status := toStatus, resolvedAt := resolvedAt)];
      log := log + [Transition(id, inc.status, toStatus, who, note)];
      if toStatus == "CONTAINED" {
        blocklist := blocklist[inc.attackerIP := QUARANTINED + inc.code];
      }
      accepted := true;
    }

    method ApplyAnomalyAction(signal: int, action: string, now: int) returns (found: bool)
      modifies this
      ensures found == (signal in old(signals))
      ensures At(now) == AfterEnforce(old(At(now)), signal, action)
    {
      var applied := action;
      if applied == "" {
        applied := "CHALLENGE";
      }
      if signal !in signals {
        return false;
      }
      var sig := signals[signal];
      signals := signals[signal := sig.(status := "ENFORCED", action := applied)];
      if applied == "BLOCK" {
        blocklist := blocklist[sig.clientIP := ENFORCED + sig.score + ")"];
      }
      found := true;
    }

    method ContainCampaign(campaign: int, now: int) returns (found: bool)
      modifies this
      ensures found == (campaign in old(campaigns))
      ensures At(now) == AfterContain(old(At(now)), campaign)
    {
      if campaign !in campaigns {
        return false;
      }
      var c := campaigns[campaign];
      campaigns := campaigns[campaign := c.(status := "CONTAINED")];
      blocklist := blocklist[c.sourceIP := AUTO_CONTAINED + c.code];
      found := true;
    }

    method AddBlockedIP(ip: string, reason: string, now: int) returns (accepted: bool)
      modifies this
      ensures accepted == (TrimSpace(ip) != "")
      ensures At(now) == Next(old(At(now)), Block(ip, reason))
    {
      hide QUARANTINED, ENFORCED, AUTO_CONTAINED, QUICK_BLOCK, TRANSITIONED, TrimSpace;
      if TrimSpace(ip) == "" {
        return false;
      }
      var why := reason;
      if why == "" {
        why := QUICK_BLOCK;
      }
      blocklist := blocklist[TrimSpace(ip) := why];
      accepted := true;
    }

    method DeleteBlockedIP(ip: string, now: int) returns (accepted: bool)
      modifies this
      ensures accepted == (TrimSpace(ip) != "")
      ensures At(now) == Next(old(At(now)), Unblock(ip))
    {
      hide QUARANTINED, ENFORCED, AUTO_CONTAINED, QUICK_BLOCK, TRANSITIONED, TrimSpace;
      if TrimSpace(ip) == "" {
        return false;
      }
      blocklist := blocklist - {ip};
      accepted := true;
    }
  }

  // ---------------------------------------------------------------- the blocklist over runs

  /** The event, in this state, puts the address on the list. */
  predicate Adds(s: State, e: Event, ip: string) {
    match e
    case Move(id, to, _, _) => to == "CONTAINED" && id in s.incidents && s.incidents[id].attackerIP == ip
    case Enforce(signal, action) => action == "BLOCK" && signal in s.signals && s.signals[signal].clientIP == ip
    case Contain(campaign) => campaign in s.campaigns && s.campaigns[campaign].sourceIP == ip
    case Block(address, _) => TrimSpace(address) != "" && TrimSpace(address) == ip
    case Unblock(_) => false
    case Wait(_) => false
  }

  predicate Deletes(e: Event, ip: string) {
    e == Unblock(ip) && TrimSpace(ip) != ""
  }

  lemma DefaultIsNotBlock()
    ensures forall a :: Or(a, "CHALLENGE") == "BLOCK" <==> a == "BLOCK"
  {
  }

  lemma NextBlocklist(s: State, e: Event, ip: string)
    ensures ip in Next(s, e).blocklist <==> Adds(s, e, ip) || (ip in s.blocklist && !Deletes(e, ip))
  {
    hide TrimSpace, Or, QUARANTINED, ENFORCED, AUTO_CONTAINED, QUICK_BLOCK, TRANSITIONED;
    match e
    case Move(_, _, _, _) =>
    case Enforce(_, action) =>
      assert Or(action, "CHALLENGE") == "BLOCK" <==> action == "BLOCK" by {
        DefaultIsNotBlock();
      }
    case Contain(_) =>
    case Block(_, _) =>
    case Unblock(_) =>
    case Wait(_) =>
  }

  predicate AddsAt(s: State, run: seq<Event>, i: nat, ip: string)
    requires i < |run|
  {
    Adds(Exec(s, run[..i]), run[i], ip)
  }

  predicate NoDeletionFrom(run: seq<Event>, i: nat, ip: string) {
    forall j | i <= j < |run| :: !Deletes(run[j], ip)
  }

  /** Added, or there from the start, and not deleted since. */
  ghost predicate AddedAndKept(s: State, run: seq<Event>, ip: string) {
    || (ip in s.blocklist && NoDeletionFrom(run, 0, ip))
    || (exists i | 0 <= i < |run| :: AddsAt(s, run, i, ip) && NoDeletionFrom(run, i + 1, ip))
  }

  lemma NoDeletionSnoc(run: seq<Event>, i: nat, ip: string)
    requires run != [] && i < |run|
    ensures NoDeletionFrom(run, i, ip) <==> NoDeletionFrom(run[..|run| - 1], i, ip) && !Deletes(run[|run| - 1], ip)
  {
    hide Deletes;
    var front := run[..|run| - 1];
    assert forall j | 0 <= j < |front| :: front[j] == run[j];
  }

  lemma AddedAndKeptSnoc(s: State, run: seq<Event>, ip: string)
    requires run != []
    ensures AddedAndKept(s, run, ip) <==>
            || AddsAt(s, run, |run| - 1, ip)
            || (AddedAndKept(s, run[..|run| - 1], ip) && !Deletes(run[|run| - 1], ip))
  {
    hide AddsAt, NoDeletionFrom, Deletes;
    var n := |run| - 1;
    var front := run[..n];
    NoDeletionSnoc(run, 0, ip);
    forall i | 0 <= i < n
      ensures AddsAt(s, run, i, ip) == AddsAt(s, front, i, ip)
      ensures NoDeletionFrom(run, i + 1, ip) <==> NoDeletionFrom(front, i + 1, ip) && !Deletes(run[n], ip)
    {
      AddsAtFront(s, run, i, ip);
      NoDeletionSnoc(run, i + 1, ip);
    }
    NothingToDelete(run, ip);
    if AddsAt(s, run, n, ip) {
      assert NoDeletionFrom(run, n + 1, ip);
    }
  }

  lemma NothingToDelete(run: seq<Event>, ip: string)
    ensures NoDeletionFrom(run, |run|, ip)
  {
  }

  lemma AddsAtFront(s: State, run: seq<Event>, i: nat, ip: string)
    requires i < |run| - 1
    ensures AddsAt(s, run, i, ip) == AddsAt(s, run[..|run| - 1], i, ip)
  {
    assert run[..i] == run[..|run| - 1][..i];
  }

  /** An address is on the blocklist exactly when it was added and kept. */
  lemma {:induction false} BlocklistIsWhatWasKept(s: State, run: seq<Event>, ip: string)
    ensures ip in Exec(s, run).blocklist <==> AddedAndKept(s, run, ip)
    decreases |run|
  {
    hide Adds, Next, Deletes, AddedAndKept;
    if run == [] {
      KeptFromTheStart(s, ip);
    } else {
      var n := |run| - 1;
      BlocklistIsWhatWasKept(s, run[..n], ip);
      NextBlocklist(Exec(s, run[..n]), run[n], ip);
      AddedAndKeptSnoc(s, run, ip);
    }
  }

  lemma KeptFromTheStart(s: State, ip: string)
    ensures AddedAndKept(s, [], ip) <==> ip in s.blocklist
  {
  }

  /** Containment holds over runs: once an incident is CONTAINED, every evaluation of a request from
      its attacker, at any later point before that address is deleted, is blocked at tier 3. */
  lemma ContainmentHolds(s: State, run: seq<Event>, i: nat, r: Response, req: EvaluationRequest, scoped: Option<string>, payload: string)
    requires i < |run| && run[i].Move? && run[i].to == "CONTAINED" && run[i].id in Exec(s, run[..i]).incidents
    requires req.clientIP == Exec(s, run[..i]).incidents[run[i].id].attackerIP
    requires forall j | i < j < |run| :: run[j] != Unblock(req.clientIP)
    requires WellFormed(r) && Decides(r, req, Exec(s, run).blocklist, scoped, payload)
    ensures r.blocked && r.tier == 3
  {
    hide TrimSpace, TierBlocks, Exec;
    assert AddsAt(s, run, i, req.clientIP) && NoDeletionFrom(run, i + 1, req.clientIP);
    BlocklistIsWhatWasKept(s, run, req.clientIP);
    ListedIffTierThree(r, req, Exec(s, run).blocklist, scoped, payload);
  }

  /** And it ends with the deletion: a request from an address deleted last and not added again is
      not blocked at tier 3. */
  lemma DeletionEndsContainment(s: State, run: seq<Event>, i: nat, r: Response, req: EvaluationRequest, scoped: Option<string>, payload: string)
    requires i < |run| && Deletes(run[i], req.clientIP)
    requires forall j | i < j < |run| :: !AddsAt(s, run, j, req.clientIP)
    requires WellFormed(r) && Decides(r, req, Exec(s, run).blocklist, scoped, payload)
    ensures r.tier != 3
  {
    hide TrimSpace, TierBlocks, Exec, Adds, Deletes, AddsAt;
    BlocklistIsWhatWasKept(s, run, req.clientIP);
    ListedIffTierThree(r, req, Exec(s, run).blocklist, scoped, payload);
    DeleteAddsNothing(s, run, i, req.clientIP);
    assert forall k: nat | k <= i :: !NoDeletionFrom(run, k, req.clientIP);
  }

  lemma DeleteAddsNothing(s: State, run: seq<Event>, i: nat, ip: string)
    requires i < |run| && Deletes(run[i], ip)
    ensures !AddsAt(s, run, i, ip)
  {
  }

  // ---------------------------------------------------------------- the transition log over runs

  function EntriesOf(log: seq<Transition>, id: int): seq<Transition> {
    if log == [] then []
    else
      var n := |log| - 1;
      EntriesOf(log[..n], id) + if log[n].incident == id then [log[n]] else []
  }

  /** Each entry starts where the previous one ended. */
  predicate Unbroken(entries: seq<Transition>, first: string, last: string) {
    if entries == [] then first == last
    else
      && entries[0].from == first
      && entries[|entries| - 1].to == last
      && forall i | 0 < i < |entries| :: entries[i].from == entries[i - 1].to
  }

  lemma EntriesSnoc(log: seq<Transition>, t: Transition, id: int)
    ensures EntriesOf(log + [t], id) == EntriesOf(log, id) + if t.incident == id then [t] else []
  {
    assert (log + [t])[..|log|] == log;
  }

  predicate EverResolved(entries: seq<Transition>) {
    exists i | 0 <= i < |entries| :: entries[i].to == "RESOLVED"
  }

  lemma ResolvedSnoc(entries: seq<Transition>, t: Transition)
    ensures EverResolved(entries + [t]) <==> EverResolved(entries) || t.to == "RESOLVED"
  {
    var more := entries + [t];
    assert more[|entries|] == t;
    assert forall i | 0 <= i < |entries| :: more[i] == entries[i];
  }

  lemma UnbrokenSnoc(entries: seq<Transition>, t: Transition, first: string, last: string)
    requires Unbroken(entries, first, last) && t.from == last
    ensures Unbroken(entries + [t], first, t.to)
  {
  }

  /** What a run keeps about one incident. */
  ghost predicate Consistent(s: State, s': State, id: int) {
    && id in s.incidents && id in s'.incidents
    && s'.incidents[id].attackerIP == s.incidents[id].attackerIP
    && Unbroken(EntriesOf(s'.log, id), s.incidents[id].status, s'.incidents[id].status)
    && (s'.incidents[id].resolvedAt.Some? <==> s.incidents[id].resolvedAt.Some? || EverResolved(EntriesOf(s'.log, id)))
  }

  lemma MoveKeepsConsistent(s: State, s': State, id: int, e: Event)
    requires Consistent(s, s', id) && e.Move?
    ensures Consistent(s, Next(s', e), id)
  {
    hide EntriesOf, Unbroken, EverResolved;
    if e.to != "" && e.id in s'.incidents {
      var t := Transition(e.id, s'.incidents[e.id].status, e.to, Or(e.who, "soc-engineer"),
                          Or(e.note, TRANSITIONED + e.to));
      EntriesSnoc(s'.log, t, id);
      if e.id == id {
        ResolvedSnoc(EntriesOf(s'.log, id), t);
        UnbrokenSnoc(EntriesOf(s'.log, id), t, s.incidents[id].status, s'.incidents[id].status);
      } else {
        assert EntriesOf(s'.log, id) + [] == EntriesOf(s'.log, id);
      }
    }
  }

  lemma OthersKeepConsistent(s: State, s': State, id: int, e: Event)
    requires Consistent(s, s', id) && !e.Move?
    ensures Consistent(s, Next(s', e), id)
  {
    hide EntriesOf, Unbroken, EverResolved, TrimSpace;
  }

  lemma EmptyLog(s: State, id: int)
    requires s.log == [] && id in s.incidents
    ensures Consistent(s, s, id)
  {
  }

  /** For each incident the log is an unbroken chain from its first status to its present one; it
      has a resolve time exactly when it was ever resolved, reopened or not. */
  lemma {:induction false} LogIsUnbroken(s: State, run: seq<Event>, id: int)
    requires s.log == [] && id in s.incidents
    ensures Consistent(s, Exec(s, run), id)
    decreases |run|
  {
    hide TrimSpace, Consistent, AfterMove;
    if run == [] {
      EmptyLog(s, id);
    } else {
      var n := |run| - 1;
      LogIsUnbroken(s, run[..n], id);
      if run[n].Move? {
        MoveKeepsConsistent(s, Exec(s, run[..n]), id, run[n]);
      } else {
        OthersKeepConsistent(s, Exec(s, run[..n]), id, run[n]);
      }
    }
  }

  // ---------------------------------------------------------------- what each handler records

  /** Which addresses each event lists and strikes. */
  lemma ListedBy(s: State, e: Event)
    ensures Next(s, e).blocklist.Keys ==
            match e
            case Move(id, to, _, _) =>
              s.blocklist.Keys + if to == "CONTAINED" && id in s.incidents then {s.incidents[id].attackerIP} else {}
            case Enforce(signal, action) =>
              s.blocklist.Keys + if action == "BLOCK" && signal in s.signals then {s.signals[signal].clientIP} else {}
            case Contain(c) => s.blocklist.Keys + if c in s.campaigns then {s.campaigns[c].sourceIP} else {}
            case Block(ip, _) => s.blocklist.Keys + if TrimSpace(ip) != "" then {TrimSpace(ip)} else {}
            case Unblock(ip) => s.blocklist.Keys - if TrimSpace(ip) != "" then {ip} else {}
            case Wait(_) => s.blocklist.Keys
  {
    hide TrimSpace, QUARANTINED, ENFORCED, AUTO_CONTAINED, QUICK_BLOCK, TRANSITIONED;
    forall ip ensures ip in Next(s, e).blocklist <==> Adds(s, e, ip) || (ip in s.blocklist && !Deletes(e, ip)) {
      NextBlocklist(s, e, ip);
    }
  }

  /** The reason a listed address carries. */
  lemma ReasonExactly(s: State, e: Event, ip: string)
    ensures Adds(s, e, ip) ==>
              ip in Next(s, e).blocklist && Next(s, e).blocklist[ip] ==
              match e
              case Move(id, _, _, _) => if id in s.incidents then "Quarantined from Incident " + s.incidents[id].code else ""
              case Enforce(signal, _) => if signal in s.signals then "AI Anomaly Signal Enforced (Score: " + s.signals[signal].score + ")" else ""
              case Contain(c) => if c in s.campaigns then "Auto-Contained from Attack Campaign " + s.campaigns[c].code else ""
              case Block(_, reason) => if reason == "" then "Quick block from SOC console" else reason
              case _ => ""
    ensures !Adds(s, e, ip) && ip in Next(s, e).blocklist ==> ip in s.blocklist && Next(s, e).blocklist[ip] == s.blocklist[ip]
  {
    hide TrimSpace, QUARANTINED, ENFORCED, AUTO_CONTAINED, QUICK_BLOCK, TRANSITIONED;
    Reasons();
  }

  lemma Reasons()
    ensures QUARANTINED == "Quarantined from Incident " && ENFORCED == "AI Anomaly Signal Enforced (Score: "
    ensures AUTO_CONTAINED == "Auto-Contained from Attack Campaign " && QUICK_BLOCK == "Quick block from SOC console"
    ensures TRANSITIONED == "Incident transitioned to "
  {
  }

  /** An accepted transition is logged last, by its author or the engineer on duty, with its note or the
      standard one; a refused one changes nothing. */
  lemma TransitionLogged(s: State, id: int, to: string, who: string, note: string)
    ensures var s' := Next(s, Move(id, to, who, note));
            if to == "" || id !in s.incidents then s' == s
            else
              && s'.incidents[id].status == to && s'.incidents[id].code == s.incidents[id].code
              && s'.log == s.log + [Transition(id, s.incidents[id].status, to, if who == "" then "soc-engineer" else who,
                                               if note == "" then "Incident transitioned to " + to else note)]
              && s'.signals == s.signals && s'.campaigns == s.campaigns
              && forall other | other in s.incidents && other != id :: other in s'.incidents && s'.incidents[other] == s.incidents[other]
  {
    hide QUARANTINED, ENFORCED, AUTO_CONTAINED, QUICK_BLOCK, TRANSITIONED;
    Reasons();
  }

  /** An enforced signal holds the action that was asked for, or a challenge; a contained campaign says
      so; and neither touches an incident or the log. */
  lemma EnforcementRecorded(s: State, signal: int, action: string, campaign: int)
    ensures var s' := Next(s, Enforce(signal, action));
            && s'.incidents == s.incidents && s'.log == s.log && s'.campaigns == s.campaigns
            && if signal !in s.signals then s' == s
               else s'.signals == s.signals[signal := Signal(s.signals[signal].clientIP, "ENFORCED",
                                                             if action == "" then "CHALLENGE" else action, s.signals[signal].score)]
    ensures var s' := Next(s, Contain(campaign));
            && s'.incidents == s.incidents && s'.log == s.log && s'.signals == s.signals
            && if campaign !in s.campaigns then s' == s
               else s'.campaigns == s.campaigns[campaign := Campaign(s.campaigns[campaign].code, s.campaigns[campaign].sourceIP, "CONTAINED")]
  {
    hide QUARANTINED, ENFORCED, AUTO_CONTAINED, QUICK_BLOCK, TRANSITIONED;
  }

  /** When a run last resolved the incident. */
  function LastResolve(s: State, run: seq<Event>, id: int): Option<int> {
    if run == [] then None
    else
      var n := |run| - 1;
      if run[n].Move? && run[n].id == id && run[n].to == "RESOLVED" then Some(Exec(s, run[..n]).now) else LastResolve(s, run[..n], id)
  }

  lemma ResolveTimeOfStep(s: State, e: Event, id: int)
    requires id in s.incidents
    ensures id in Next(s, e).incidents
    ensures Next(s, e).incidents[id].resolvedAt ==
            if e.Move? && e.id == id && e.to == "RESOLVED" then Some(s.now) else s.incidents[id].resolvedAt
  {
    hide TrimSpace, QUARANTINED, ENFORCED, AUTO_CONTAINED, QUICK_BLOCK, TRANSITIONED;
  }

  /** An incident's resolve time is that of its last resolution, whatever happened to it since. */
  lemma {:induction false} ResolveTimeIsLast(s: State, run: seq<Event>, id: int)
    requires id in s.incidents
    ensures id in Exec(s, run).incidents
    ensures Exec(s, run).incidents[id].resolvedAt ==
            if LastResolve(s, run, id).Some? then LastResolve(s, run, id) else s.incidents[id].resolvedAt
    decreases |run|
  {
    hide Next;
    if run == [] {
    } else {
      ResolveTimeIsLast(s, run[..|run| - 1], id);
      ResolveTimeOfStep(Exec(s, run[..|run| - 1]), run[|run| - 1], id);
    }
  }
}
