/** Pushed configurations, their snapshots and rollbacks (management-plane/main.go and xds.go).
    Saves are serialised: each push that is recorded is recorded before the next push. */
module ConfigHistory {
  import opened Wrappers

  datatype Snapshot = Snapshot(id: nat, version: nat, content: string)

  const KEPT := 50

  datatype State = State(snapshots: seq<Snapshot>, nextID: nat, xdsVersion: nat, served: string)

  function MaxVersion(snapshots: seq<Snapshot>): nat {
    if snapshots == [] then 0
    else
      var n := |snapshots| - 1;
      var m := MaxVersion(snapshots[..n]);
      if snapshots[n].version > m then snapshots[n].version else m
  }

  /** The rows with the highest ids; rows are listed by ascending id. */
  function Newest(snapshots: seq<Snapshot>): seq<Snapshot> {
    if |snapshots| <= KEPT then snapshots else snapshots[|snapshots| - KEPT..]
  }

  function Find(snapshots: seq<Snapshot>, id: nat): Option<string> {
    if snapshots == [] then None
    else if snapshots[0].id == id then Some(snapshots[0].content)
    else Find(snapshots[1..], id)
  }

  function Save(s: State, content: string): State {
    s.(snapshots := Newest(s.snapshots + [Snapshot(s.nextID, MaxVersion(s.snapshots) + 1, content)]), nextID := s.nextID + 1)
  }

  function Push(s: State, text: string): State {
    s.(xdsVersion := s.xdsVersion + 1, served := text)
  }

  // ---------------------------------------------------------------- the store

  class ConfigStore {
    var snapshots: seq<Snapshot>
    var nextID: nat
    var xdsVersion: nat
    var served: string

    ghost function Now(): State
      reads this
    {
      State(snapshots, nextID, xdsVersion, served)
    }

    /** The server starts by pushing the default rules. */
    constructor (defaultRules: string)
      ensures Now() == State([], 1, 1, defaultRules)
    {
      snapshots := [];
      nextID := 1;
      xdsVersion := 1;
      served := defaultRules;
    }

    method UpdateWAFConfig(text: string)
      modifies this
      ensures Now() == Push(old(Now()), text)
    {
      xdsVersion := xdsVersion + 1;
      served := text;
    }

    method SaveConfigSnapshot(content: string)
      modifies this
      ensures Now() == Save(old(Now()), content)
    {
      var maxVer := 0;
      for i := 0 to |snapshots|
        invariant maxVer == MaxVersion(snapshots[..i]) && Now() == old(Now())
      {
        assert snapshots[..i + 1][..i] == snapshots[..i];
        if snapshots[i].version > maxVer {
          maxVer := snapshots[i].version;
        }
      }
      assert snapshots[..|snapshots|] == snapshots;
      snapshots := snapshots + [Snapshot(nextID, maxVer + 1, content)];
      nextID := nextID + 1;
      if |snapshots| > KEPT {
        snapshots := snapshots[|snapshots| - KEPT..];
      }
    }

    method SyncRules(compiled: string)
      modifies this
      ensures Now() == Next(old(Now()), Sync(compiled))
    {
      UpdateWAFConfig(compiled);
      SaveConfigSnapshot(compiled);
    }

    method Rollback(id: nat) returns (found: bool)
      modifies this
      ensures found == Find(old(snapshots), id).Some?
      ensures Now() == Next(old(Now()), RollBack(id))
    {
      var content: Option<string> := None;
      var i := 0;
      while i < |snapshots| && content.None?
        invariant i <= |snapshots| && Now() == old(Now())
        invariant content.None? ==> Find(snapshots[i..], id) == Find(snapshots, id)
        invariant content.Some? ==> content == Find(snapshots, id)
        decreases |snapshots| - i, content.None?
      {
        assert snapshots[i..][1..] == snapshots[i + 1..];
        if snapshots[i].id == id {
          content := Some(snapshots[i].content);
        } else {
          i := i + 1;
        }
      }
      if content.None? {
        assert snapshots[i..] == [];
        return false;
      }
      UpdateWAFConfig(content.value);
      SaveConfigSnapshot(content.value);
      found := true;
    }

    /** The settings handler pushes the stored base rules as they are and records no snapshot. */
    method UpdateBaseRules(baseRules: string)
      modifies this
      ensures Now() == Next(old(Now()), PushBase(baseRules))
    {
      UpdateWAFConfig(baseRules);
    }
  }

  // ---------------------------------------------------------------- runs

  datatype Event = Sync(compiled: string) | RollBack(id: nat) | PushBase(base: string)

  function Next(s: State, e: Event): State {
    match e
    case Sync(compiled) => Save(Push(s, compiled), compiled)
    case RollBack(id) =>
      (match Find(s.snapshots, id)
       case None => s
       case Some(content) => Save(Push(s, content), content))
    case PushBase(base) => Push(s, base)
  }

  function Exec(s: State, run: seq<Event>): State {
    if run == [] then s else Next(Exec(s, run[..|run| - 1]), run[|run| - 1])
  }

  /** The texts recorded by a run, in order, told without the table: a rollback records again the
      text it names if that is one of the last fifty. */
  function Recorded(run: seq<Event>): seq<string> {
    if run == [] then []
    else
      var all := Recorded(run[..|run| - 1]);
      match run[|run| - 1]
      case Sync(compiled) => all + [compiled]
      case RollBack(id) => if Retained(all, id) then all + [all[id - 1]] else all
      case PushBase(_) => all
  }

  predicate Retained(all: seq<string>, id: nat) {
    1 <= id <= |all| && id > |all| - KEPT
  }

  /** The table is the last fifty recorded texts, with ids and versions counting all of them. */
  ghost predicate HoldsLast(snapshots: seq<Snapshot>, all: seq<string>) {
    var dropped := if |all| <= KEPT then 0 else |all| - KEPT;
    && |snapshots| == |all| - dropped
    && forall i | 0 <= i < |snapshots| :: snapshots[i] == Snapshot(dropped + i + 1, dropped + i + 1, all[dropped + i])
  }

  ghost predicate Initial(s: State) {
    s.snapshots == [] && s.nextID == 1
  }

  lemma {:induction false} MaxVersionOfAscending(snapshots: seq<Snapshot>, first: nat)
    requires forall i | 0 <= i < |snapshots| :: snapshots[i].version == first + i + 1
    ensures MaxVersion(snapshots) == if snapshots == [] then 0 else first + |snapshots|
    decreases |snapshots|
  {
    if snapshots == [] {
    } else {
      MaxVersionOfAscending(snapshots[..|snapshots| - 1], first);
    }
  }

  lemma {:induction false} FindAscending(snapshots: seq<Snapshot>, first: nat, id: nat)
    requires forall i | 0 <= i < |snapshots| :: snapshots[i].id == first + i + 1
    ensures Find(snapshots, id) == if first < id <= first + |snapshots| then Some(snapshots[id - first - 1].content) else None
    decreases |snapshots|
  {
    if snapshots == [] {
    } else {
      FindAscending(snapshots[1..], first + 1, id);
    }
  }

  lemma SaveHoldsLast(s: State, content: string, all: seq<string>)
    requires HoldsLast(s.snapshots, all) && s.nextID == |all| + 1
    ensures HoldsLast(Save(s, content).snapshots, all + [content]) && Save(s, content).nextID == |all + [content]| + 1
    ensures MaxVersion(s.snapshots) == |all|
  {
    var dropped := if |all| <= KEPT then 0 else |all| - KEPT;
    MaxVersionOfAscending(s.snapshots, dropped);
  }

  /** What a run leaves in the table, given the texts it recorded. */
  ghost predicate IsHistory(s: State, all: seq<string>) {
    HoldsLast(s.snapshots, all) && s.nextID == |all| + 1 && MaxVersion(s.snapshots) == |all|
  }

  lemma RecordingKeepsHistory(s: State, content: string, all: seq<string>)
    requires IsHistory(s, all)
    ensures IsHistory(Save(Push(s, content), content), all + [content])
  {
    hide Save, HoldsLast;
    SaveHoldsLast(Push(s, content), content, all);
    SaveHoldsLast(Save(Push(s, content), content), "", all + [content]);
  }

  lemma FindRetained(s: State, all: seq<string>, id: nat)
    requires IsHistory(s, all)
    ensures Find(s.snapshots, id) == if Retained(all, id) then Some(all[id - 1]) else None
  {
    hide Find, MaxVersion;
    FindAscending(s.snapshots, if |all| <= KEPT then 0 else |all| - KEPT, id);
  }

  /** After any run the table holds exactly the last min(n, 50) of the n recorded texts, with
      consecutive versions ending at n; the next version is n + 1, so none is ever used twice. */
  lemma {:induction false} TableIsRecentHistory(s: State, run: seq<Event>)
    requires Initial(s)
    ensures IsHistory(Exec(s, run), Recorded(run))
    decreases |run|
  {
    hide Save, IsHistory, Retained, Push;
    if run == [] {
      NothingRecorded(s);
    } else {
      var front, e := run[..|run| - 1], run[|run| - 1];
      TableIsRecentHistory(s, front);
      var before := Exec(s, front);
      var all := Recorded(front);
      match e
      case Sync(compiled) => RecordingKeepsHistory(before, compiled, all);
      case RollBack(id) =>
        FindRetained(before, all, id);
        if Retained(all, id) {
          assert 1 <= id <= |all| by {
            RetainedIsIndex(all, id);
          }
          RecordingKeepsHistory(before, all[id - 1], all);
        }
      case PushBase(base) => PushKeepsHistory(before, base, all);
    }
  }

  lemma NothingRecorded(s: State)
    requires Initial(s)
    ensures IsHistory(s, [])
  {
  }

  lemma RetainedIsIndex(all: seq<string>, id: nat)
    requires Retained(all, id)
    ensures 1 <= id <= |all|
  {
  }

  lemma PushKeepsHistory(s: State, text: string, all: seq<string>)
    requires IsHistory(s, all)
    ensures IsHistory(Push(s, text), all)
  {
  }

  /** A rollback to a retained snapshot makes the served text, the newest snapshot and the chosen
      snapshot equal, under a version number never used before, and the xDS version still grows;
      any other id changes nothing. */
  lemma RollbackRestores(s: State, run: seq<Event>, id: nat)
    requires Initial(s)
    ensures
      var before, all := Exec(s, run), Recorded(run);
      var after := Next(before, RollBack(id));
      if Retained(all, id) then
        && after.served == all[id - 1]
        && |after.snapshots| > 0
        && after.snapshots[|after.snapshots| - 1] == Snapshot(|all| + 1, |all| + 1, all[id - 1])
        && after.xdsVersion == before.xdsVersion + 1
        && forall x | x in before.snapshots :: x.version < |all| + 1
      else after == before
  {
    hide Save, Recorded, Find, MaxVersion;
    TableIsRecentHistory(s, run);
    var before, all := Exec(s, run), Recorded(run);
    FindRetained(before, all, id);
    if Retained(all, id) {
      RecordingKeepsHistory(before, all[id - 1], all);
      SaveKeepsServed(Push(before, all[id - 1]), all[id - 1]);
    }
  }

  lemma SaveKeepsServed(s: State, content: string)
    ensures Save(s, content).served == s.served && Save(s, content).xdsVersion == s.xdsVersion
  {
  }

  /** The text of the latest push, and whether it was recorded. */
  function LatestPush(run: seq<Event>): Option<(string, bool)> {
    if run == [] then None
    else
      var front := run[..|run| - 1];
      match run[|run| - 1]
      case Sync(compiled) => Some((compiled, true))
      case RollBack(id) => if Retained(Recorded(front), id) then Some((Recorded(front)[id - 1], true)) else LatestPush(front)
      case PushBase(base) => Some((base, false))
  }

  /** What the proxies are served is the text of the latest push. After a recorded push it is the
      newest snapshot; after a push of the base rules it differs from the newest snapshot exactly when
      the base text is not the last recorded one. */
  lemma {:induction false} ServedIsLatestPush(s: State, run: seq<Event>)
    requires Initial(s) && LatestPush(run).Some?
    ensures
      var s', all, (text, recorded) := Exec(s, run), Recorded(run), LatestPush(run).value;
      && s'.served == text
      && (recorded ==> |s'.snapshots| > 0 && s'.snapshots[|s'.snapshots| - 1].content == s'.served)
      && (!recorded && all != [] ==>
            |s'.snapshots| > 0 && (s'.snapshots[|s'.snapshots| - 1].content != s'.served <==> text != all[|all| - 1]))
    decreases |run|
  {
    TableIsRecentHistory(s, run);
    LatestServed(s, run);
    LatestRecorded(run);
  }

  lemma {:induction false} LatestServed(s: State, run: seq<Event>)
    requires Initial(s)
    ensures LatestPush(run).Some? ==> Exec(s, run).served == LatestPush(run).value.0
    decreases |run|
  {
    if run == [] {
    } else {
      var front := run[..|run| - 1];
      LatestServed(s, front);
      if run[|run| - 1].RollBack? {
        RollbackRestores(s, front, run[|run| - 1].id);
      }
    }
  }

  lemma {:induction false} LatestRecorded(run: seq<Event>)
    ensures LatestPush(run).Some? && LatestPush(run).value.1 ==>
              Recorded(run) != [] && LatestPush(run).value.0 == Recorded(run)[|Recorded(run)| - 1]
    decreases |run|
  {
    if run == [] {
    } else {
      LatestRecorded(run[..|run| - 1]);
    }
  }

  // ---------------------------------------------------------------- versions and sizes

  /** Every synchronisation, every settings change and every rollback that finds its snapshot pushes. */
  function PushCount(run: seq<Event>): nat {
    if run == [] then 0
    else
      var front := run[..|run| - 1];
      PushCount(front) + match run[|run| - 1]
                         case RollBack(id) => if Retained(Recorded(front), id) then 1 else 0
                         case _ => 1
  }

  /** The xDS version counts the pushes. */
  lemma {:induction false} VersionCountsPushes(s: State, run: seq<Event>)
    requires Initial(s)
    ensures Exec(s, run).xdsVersion == s.xdsVersion + PushCount(run)
    decreases |run|
  {
    hide Save, Retained;
    if run == [] {
    } else {
      var front, e := run[..|run| - 1], run[|run| - 1];
      VersionCountsPushes(s, front);
      var before := Exec(s, front);
      match e
      case Sync(compiled) => SaveKeepsServed(Push(before, compiled), compiled);
      case RollBack(id) =>
        TableIsRecentHistory(s, front);
        FindRetained(before, Recorded(front), id);
        if Find(before.snapshots, id).Some? {
          var content := Find(before.snapshots, id).value;
          SaveKeepsServed(Push(before, content), content);
        }
      case PushBase(_) =>
    }
  }

  /** Fifty snapshots are kept, or all of them while there are fewer; the newest carries the number of
      all texts recorded so far. */
  lemma FiftyAreKept(s: State, run: seq<Event>)
    requires Initial(s)
    ensures var kept, all := Exec(s, run).snapshots, Recorded(run);
            && |kept| == (if |all| < 50 then |all| else 50)
            && (all != [] ==> kept != [] && kept[|kept| - 1] == Snapshot(|all|, |all|, all[|all| - 1]))
  {
    hide Exec, Recorded;
    TableIsRecentHistory(s, run);
  }
}
