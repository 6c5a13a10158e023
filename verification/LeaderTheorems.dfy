/** Safety, stabilisation and failover of the leader lease protocol. */
module LeaderTheorems {
  import opened Wrappers
  import opened LeaderLease

  // ---------------------------------------------------------------- any interleaving of statements

  /** The leader flag implies ACTIVE, and no leader's lease reaches further than twelve seconds. */
  predicate Sane(t: Table, now: int) {
    forall id | id in t && t[id].isLeader :: t[id].status == ACTIVE && t[id].lease.Some? && t[id].lease.value <= now + LEASE_SECONDS
  }

  lemma StatementKeepsSane(t: Table, s: Statement, now: int)
    requires Sane(t, now)
    ensures Sane(Apply(t, s, now), now)
  {
    if s.PromoteStandbys? {
      assert forall id | id in t :: t[id].isLeader ==> t[id].status == ACTIVE;
    }
  }

  /** A statement executed after the clock has advanced by `delay`. */
  datatype Timed = Timed(delay: nat, statement: Statement)

  function ExecStatements(t: Table, now: int, run: seq<Timed>): (Table, int)
    decreases |run|
  {
    if run == [] then (t, now)
    else
      var later := now + run[0].delay;
      ExecStatements(Apply(t, run[0].statement, later), later, run[1..])
  }

  /** However the statements of all instances and handlers interleave. */
  lemma {:induction false} SaneAtStatementLevel(t: Table, now: int, run: seq<Timed>)
    requires Sane(t, now)
    ensures var (t', now') := ExecStatements(t, now, run); Sane(t', now')
    decreases |run|
  {
    if run == [] {
    } else {
      var later := now + run[0].delay;
      assert Sane(t, later);
      StatementKeepsSane(t, run[0].statement, later);
      SaneAtStatementLevel(Apply(t, run[0].statement, later), later, run[1..]);
    }
  }

  predicate AtMostOneLive(t: Table, now: int) {
    forall a, b | a in t && b in t && LiveRow(t[a], now) && LiveRow(t[b], now) :: a == b
  }

  /** Between the SELECT and the acquiring UPDATE another instance may have acquired the lease:
      the UPDATE keeps the leader unique exactly when nobody else is live at that moment. */
  lemma AcquireKeepsUniqueIff(t: Table, id: string, now: int)
    requires AtMostOneLive(t, now)
    ensures AtMostOneLive(Apply(t, Acquire(id), now), now) <==>
            !(id in t && t[id].status == ACTIVE) || forall other | other in t && other != id :: !LiveRow(t[other], now)
  {
    var after := Apply(t, Acquire(id), now);
    if id in t && t[id].status == ACTIVE {
      assert LiveRow(after[id], now);
      forall other | other in t && other != id ensures after[other] == t[other] {
      }
      if other :| other in t && other != id && LiveRow(t[other], now) {
        assert LiveRow(after[other], now);
      }
    }
  }

  /** So two instances that both saw no leader both become one. */
  lemma RacingAcquires(t: Table, a: string, b: string, now: int)
    requires a in t && b in t && a != b && t[a].status == ACTIVE && t[b].status == ACTIVE
    ensures !AtMostOneLive(Apply(Apply(t, Acquire(a), now), Acquire(b), now), now)
  {
    var after := Apply(Apply(t, Acquire(a), now), Acquire(b), now);
    assert LiveRow(after[a], now) && LiveRow(after[b], now);
  }

  /** A step-down promotes every active standby: it leaves at most one live leader exactly when at
      most one instance other than the former leader is ACTIVE. */
  lemma StepDownUniqueIff(t: Table, former: string, now: int)
    requires Sane(t, now)
    ensures AtMostOneLive(StepDownTable(t, former, now), now) <==>
            forall a, b | a in t && b in t && a != former && b != former && t[a].status == ACTIVE && t[b].status == ACTIVE :: a == b
  {
    var after := StepDownTable(t, former, now);
    forall id | id in t
      ensures LiveRow(after[id], now) <==> id != former && t[id].status == ACTIVE
    {
    }
  }

  // ---------------------------------------------------------------- runs of atomic steps

  datatype State = State(table: Table, now: int)

  datatype Step =
    | Advance(seconds: nat)
    | Join(id: string)
    | Tick(id: string, seen: Option<string>)
    | Leave(id: string)
    | StepDown(former: string)

  /** Whether the SELECT inside the step may return what the step says it returned. */
  ghost predicate Enabled(s: State, step: Step) {
    match step
    case Tick(id, seen) => SelectResult(AfterSweep(s.table, id, s.now), s.now, seen)
    case StepDown(former) => FormerLeader(s.table, former)
    case _ => true
  }

  function Next(s: State, step: Step): State {
    match step
    case Advance(seconds) => s.(now := s.now + seconds)
    case Join(id) => s.(table := Apply(s.table, Register(id), s.now))
    case Tick(id, seen) => s.(table := TickTable(s.table, id, s.now, seen))
    case Leave(id) => s.(table := Apply(s.table, Drain(id), s.now))
    case StepDown(former) => s.(table := StepDownTable(s.table, former, s.now))
  }

  ghost predicate Valid(s: State, run: seq<Step>)
    decreases |run|
  {
    run == [] || (Enabled(s, run[0]) && Valid(Next(s, run[0]), run[1..]))
  }

  function Exec(s: State, run: seq<Step>): State
    decreases |run|
  {
    if run == [] then s else Exec(Next(s, run[0]), run[1..])
  }

  predicate NoStepDown(run: seq<Step>) {
    forall i | 0 <= i < |run| :: !run[i].StepDown?
  }

  lemma StepKeepsSane(s: State, step: Step)
    requires Sane(s.table, s.now)
    ensures var s' := Next(s, step); Sane(s'.table, s'.now)
  {
    match step
    case Tick(id, seen) =>
      StatementKeepsSane(s.table, Heartbeat(id), s.now);
      StatementKeepsSane(Apply(s.table, Heartbeat(id), s.now), Sweep, s.now);
      var t := AfterSweep(s.table, id, s.now);
      StatementKeepsSane(t, Acquire(id), s.now);
      StatementKeepsSane(t, Renew(id), s.now);
    case Join(id) => StatementKeepsSane(s.table, Register(id), s.now);
    case Leave(id) => StatementKeepsSane(s.table, Drain(id), s.now);
    case StepDown(former) =>
      StatementKeepsSane(s.table, ResetLeaders, s.now);
      StatementKeepsSane(Apply(s.table, ResetLeaders, s.now), PromoteStandbys(former), s.now);
    case Advance(_) =>
  }

  /** A row is live after a step without step-down only if it was live before, or it is the one the
      tick elected when nobody was; and only the elected row's lease can grow. */
  lemma LiveAfter(s: State, step: Step, x: string)
    requires Sane(s.table, s.now) && Enabled(s, step) && !step.StepDown?
    requires var s' := Next(s, step); Live(s'.table, x, s'.now)
    ensures
      var s' := Next(s, step);
      if Live(s.table, x, s.now) && s'.table[x].lease == s.table[x].lease then true
      else
        && step.Tick? && step.id == x
        && (if step.seen.None? then forall y | y in s'.table && LiveRow(s'.table[y], s'.now) :: y == x
            else step.seen == Some(x) && Live(s.table, x, s.now))
  {
  }

  lemma StepKeepsUnique(s: State, step: Step)
    requires Sane(s.table, s.now) && Enabled(s, step) && !step.StepDown?
    requires AtMostOneLive(s.table, s.now)
    ensures var s' := Next(s, step); AtMostOneLive(s'.table, s'.now)
  {
    var s' := Next(s, step);
    forall a, b | a in s'.table && b in s'.table && LiveRow(s'.table[a], s'.now) && LiveRow(s'.table[b], s'.now)
      ensures a == b
    {
      LiveAfter(s, step, a);
      LiveAfter(s, step, b);
    }
  }

  /** With atomic ticks and no step-down there is never a second live leader, whatever the
      instances, their registrations, drains and clocks do. */
  lemma {:induction false} UniqueLeader(s: State, run: seq<Step>)
    requires Sane(s.table, s.now) && AtMostOneLive(s.table, s.now)
    requires Valid(s, run) && NoStepDown(run)
    ensures var s' := Exec(s, run); Sane(s'.table, s'.now) && AtMostOneLive(s'.table, s'.now)
    decreases |run|
  {
    if run == [] {
    } else {
      StepKeepsSane(s, run[0]);
      StepKeepsUnique(s, run[0]);
      UniqueLeader(Next(s, run[0]), run[1..]);
    }
  }

  // ---------------------------------------------------------------- stabilisation

  /** The SELECT picks the lowest-ranked live row. */
  ghost predicate PicksLowest(s: State, step: Step, rank: string -> int) {
    step.Tick? && step.seen.Some? ==>
      var t := AfterSweep(s.table, step.id, s.now);
      forall y | y in t && LiveRow(t[y], s.now) :: rank(step.seen.value) <= rank(y)
  }

  ghost predicate AlwaysPicksLowest(s: State, run: seq<Step>, rank: string -> int)
    decreases |run|
  {
    run == [] || (PicksLowest(s, run[0], rank) && AlwaysPicksLowest(Next(s, run[0]), run[1..], rank))
  }

  /** Every live row above another live row runs out at the deadline. */
  ghost predicate SurplusExpires(s: State, rank: string -> int, deadline: int) {
    forall a, b | a in s.table && b in s.table && LiveRow(s.table[a], s.now) && LiveRow(s.table[b], s.now) && rank(a) < rank(b) ::
      s.table[b].lease.value <= deadline
  }

  lemma StepKeepsSurplus(s: State, step: Step, rank: string -> int, deadline: int)
    requires Sane(s.table, s.now) && Enabled(s, step) && !step.StepDown?
    requires PicksLowest(s, step, rank) && SurplusExpires(s, rank, deadline)
    ensures SurplusExpires(Next(s, step), rank, deadline)
  {
    var s' := Next(s, step);
    forall a, b | a in s'.table && b in s'.table && LiveRow(s'.table[a], s'.now) && LiveRow(s'.table[b], s'.now) && rank(a) < rank(b)
      ensures s'.table[b].lease.value <= deadline
    {
      LiveAfter(s, step, a);
      LiveAfter(s, step, b);
      if step.Tick? && step.seen.Some? {
        var t := AfterSweep(s.table, step.id, s.now);
        assert step.seen.value != a ==> t[a] == s'.table[a];
        assert rank(step.seen.value) <= rank(a);
      }
    }
  }

  /** From any sane state, however many leaders a step-down or a race left, twelve seconds without a
      further step-down suffice, provided the SELECT reads live rows in one fixed order. */
  lemma Stabilises(s: State, run: seq<Step>, rank: string -> int)
    requires Sane(s.table, s.now)
    requires forall a, b :: rank(a) == rank(b) ==> a == b
    requires Valid(s, run) && NoStepDown(run) && AlwaysPicksLowest(s, run, rank)
    requires Exec(s, run).now >= s.now + LEASE_SECONDS
    ensures var s' := Exec(s, run); AtMostOneLive(s'.table, s'.now)
  {
    SurplusToTheEnd(s, run, rank, s.now + LEASE_SECONDS);
    var s' := Exec(s, run);
    forall a, b | a in s'.table && b in s'.table && LiveRow(s'.table[a], s'.now) && LiveRow(s'.table[b], s'.now)
      ensures a == b
    {
      assert !(rank(a) < rank(b)) && !(rank(b) < rank(a));
    }
  }

  lemma {:induction false} SurplusToTheEnd(s: State, run: seq<Step>, rank: string -> int, deadline: int)
    requires Sane(s.table, s.now) && SurplusExpires(s, rank, deadline)
    requires Valid(s, run) && NoStepDown(run) && AlwaysPicksLowest(s, run, rank)
    ensures SurplusExpires(Exec(s, run), rank, deadline)
    decreases |run|
  {
    if run == [] {
    } else {
      StepKeepsSane(s, run[0]);
      StepKeepsSurplus(s, run[0], rank, deadline);
      SurplusToTheEnd(Next(s, run[0]), run[1..], rank, deadline);
    }
  }

  /** The step makes `x` the leader or renews its lease. */
  predicate Elects(step: Step, x: string) {
    step.Tick? && step.id == x && (step.seen.None? || step.seen == Some(x))
  }

  predicate NeverLeaves(run: seq<Step>, x: string) {
    forall i | 0 <= i < |run| :: run[i] != Leave(x)
  }

  /** Step `k` elects `x`, which is ACTIVE then; nobody drains `x` afterwards, and the run ends less
      than twelve seconds later. */
  predicate HeldFrom(s: State, run: seq<Step>, x: string, k: nat) {
    && k < |run| && Elects(run[k], x) && NeverLeaves(run[k + 1..], x)
    && x in Exec(s, run[..k]).table && Exec(s, run[..k]).table[x].status == ACTIVE
    && Exec(s, run[..k]).now + LEASE_SECONDS > Exec(s, run).now
  }

  /** A live row's lease is either the one it had at the start or that of the step that last elected it. */
  lemma {:induction false} LeaseOrigin(s: State, run: seq<Step>, x: string) returns (k: nat)
    requires Sane(s.table, s.now) && Valid(s, run) && NoStepDown(run)
    requires Live(Exec(s, run).table, x, Exec(s, run).now)
    ensures k <= |run|
    ensures k == |run| ==> Live(s.table, x, s.now) && Exec(s, run).table[x].lease == s.table[x].lease && NeverLeaves(run, x)
    ensures k < |run| ==>
              var before := Exec(s, run[..k]);
              && Elects(run[k], x) && x in before.table && before.table[x].status == ACTIVE
              && Exec(s, run).table[x].lease == Some(before.now + LEASE_SECONDS) && NeverLeaves(run[k + 1..], x)
    decreases |run|
  {
    if run == [] {
      k := 0;
    } else {
      var s', rest := Next(s, run[0]), run[1..];
      StepKeepsSane(s, run[0]);
      var j := LeaseOrigin(s', rest, x);
      if j < |rest| {
        k := j + 1;
        assert run[..k][1..] == rest[..j] && run[k + 1..] == rest[j + 1..];
      } else {
        LiveAfter(s, run[0], x);
        assert run[0] != Leave(x);
        if Live(s.table, x, s.now) && s'.table[x].lease == s.table[x].lease {
          k := |run|;
        } else {
          k := 0;
          assert run[..0] == [];
          ElectedIsActive(s, run[0], x);
        }
      }
    }
  }

  lemma ElectedIsActive(s: State, step: Step, x: string)
    requires Elects(step, x)
    requires var s' := Next(s, step); Live(s'.table, x, s'.now)
    ensures x in s.table && s.table[x].status == ACTIVE
  {
  }

  /** `x` holds a lease of twelve seconds taken at `taken` or later. */
  predicate Holding(s: State, x: string, taken: int) {
    && x in s.table && s.table[x].isLeader && s.table[x].status == ACTIVE
    && s.table[x].lease.Some? && s.table[x].lease.value >= taken + LEASE_SECONDS
    && s.table[x].heartbeat >= taken
  }

  lemma ElectedHolds(s: State, step: Step, x: string)
    requires Enabled(s, step) && Elects(step, x)
    requires x in s.table && s.table[x].status == ACTIVE
    ensures Holding(Next(s, step), x, s.now)
  {
  }

  lemma StatementKeepsHolding(t: Table, statement: Statement, now: int, x: string, taken: int)
    requires Holding(State(t, now), x, taken) && taken <= now <= taken + STALE_SECONDS
    requires statement != Drain(x) && !statement.ResetLeaders? && !statement.PromoteStandbys?
    ensures Holding(State(Apply(t, statement, now), now), x, taken)
  {
  }

  lemma StepKeepsHolding(s: State, step: Step, x: string, taken: int)
    requires Holding(s, x, taken) && taken <= s.now <= taken + STALE_SECONDS
    requires !step.StepDown? && step != Leave(x)
    ensures Holding(Next(s, step), x, taken)
  {
    match step
    case Tick(id, seen) =>
      hide Apply, Holding;
      StatementKeepsHolding(s.table, Heartbeat(id), s.now, x, taken);
      StatementKeepsHolding(Apply(s.table, Heartbeat(id), s.now), Sweep, s.now, x, taken);
      var t := AfterSweep(s.table, id, s.now);
      StatementKeepsHolding(t, Acquire(id), s.now, x, taken);
      StatementKeepsHolding(t, Renew(id), s.now, x, taken);
    case Join(id) => StatementKeepsHolding(s.table, Register(id), s.now, x, taken);
    case Leave(id) => StatementKeepsHolding(s.table, Drain(id), s.now, x, taken);
    case Advance(_) =>
  }

  lemma {:induction false} TimeAdvances(s: State, run: seq<Step>)
    ensures Exec(s, run).now >= s.now
    decreases |run|
  {
    hide Apply;
    if run == [] {
    } else {
      TimeAdvances(Next(s, run[0]), run[1..]);
    }
  }

  lemma {:induction false} HoldingLasts(s: State, run: seq<Step>, x: string, taken: int)
    requires Holding(s, x, taken) && taken <= s.now && NoStepDown(run) && NeverLeaves(run, x)
    requires Exec(s, run).now < taken + LEASE_SECONDS
    ensures Live(Exec(s, run).table, x, Exec(s, run).now)
    decreases |run|
  {
    if run == [] {
    } else {
      TimeAdvances(s, run);
      StepKeepsHolding(s, run[0], x, taken);
      StepAdvances(s, run[0]);
      HoldingLasts(Next(s, run[0]), run[1..], x, taken);
    }
  }

  lemma StepAdvances(s: State, step: Step)
    ensures Next(s, step).now >= s.now
  {
    hide Apply;
  }

  lemma {:induction false} ExecSplit(s: State, run: seq<Step>, k: nat)
    requires k <= |run|
    ensures Exec(s, run) == Exec(Exec(s, run[..k]), run[k..])
    ensures Valid(s, run) ==> Valid(Exec(s, run[..k]), run[k..])
    decreases k
  {
    hide Next, Enabled;
    if k == 0 {
      assert run[..0] == [] && run[0..] == run;
    } else {
      ExecSplit(Next(s, run[0]), run[1..], k - 1);
      assert run[..k][1..] == run[1..][..k - 1] && run[1..][k - 1..] == run[k..];
    }
  }

  /** Who is live, told from the steps of the run alone: twelve seconds after any sane state, without
      a step-down, exactly the instances that some step holds live to the end. */
  lemma LiveIffHeld(s: State, run: seq<Step>, x: string)
    requires Sane(s.table, s.now) && Valid(s, run) && NoStepDown(run)
    requires Exec(s, run).now >= s.now + LEASE_SECONDS
    ensures Live(Exec(s, run).table, x, Exec(s, run).now) <==> exists k: nat :: HeldFrom(s, run, x, k)
  {
    hide Next, Enabled, Live, Sane;
    if Live(Exec(s, run).table, x, Exec(s, run).now) {
      var k := LeaseOrigin(s, run, x);
      LeaseIsOver(s, run, x);
      assert HeldFrom(s, run, x, k);
    }
    if k: nat :| HeldFrom(s, run, x, k) {
      HeldIsLive(s, run, x, k);
    }
  }

  lemma LeaseIsOver(s: State, run: seq<Step>, x: string)
    requires Sane(s.table, s.now) && Exec(s, run).now >= s.now + LEASE_SECONDS
    requires Live(Exec(s, run).table, x, Exec(s, run).now)
    ensures Exec(s, run).table[x].lease.Some? && Exec(s, run).table[x].lease.value > Exec(s, run).now
    ensures Live(s.table, x, s.now) ==> Exec(s, run).table[x].lease != s.table[x].lease
  {
    hide Exec;
  }

  lemma HeldIsLive(s: State, run: seq<Step>, x: string, k: nat)
    requires Valid(s, run) && NoStepDown(run) && HeldFrom(s, run, x, k)
    ensures Live(Exec(s, run).table, x, Exec(s, run).now)
  {
    hide Next, Enabled, Live, Holding;
    var before, rest := Exec(s, run[..k]), run[k..];
    ExecSplit(s, run, k);
    assert rest[0] == run[k] && rest[1..] == run[k + 1..];
    assert !run[k].StepDown?;
    ElectedHolds(before, run[k], x);
    StepAdvances(before, run[k]);
    HoldingLasts(Next(before, run[k]), rest[1..], x, before.now);
  }

  /** Without any assumption on the reading order: twelve seconds after any sane state, without a
      step-down, at most one row is live exactly when the steps of the run hold at most one instance. */
  lemma StabilisedIff(s: State, run: seq<Step>)
    requires Sane(s.table, s.now) && Valid(s, run) && NoStepDown(run)
    requires Exec(s, run).now >= s.now + LEASE_SECONDS
    ensures AtMostOneLive(Exec(s, run).table, Exec(s, run).now) <==>
            forall x, y, j: nat, k: nat | HeldFrom(s, run, x, j) && HeldFrom(s, run, y, k) :: x == y
  {
    hide Valid, NoStepDown, Exec, Sane, HeldFrom;
    var s' := Exec(s, run);
    forall x ensures Live(s'.table, x, s'.now) <==> exists k: nat :: HeldFrom(s, run, x, k) {
      LiveIffHeld(s, run, x);
    }
    if AtMostOneLive(s'.table, s'.now) {
      forall x, y, j: nat, k: nat | HeldFrom(s, run, x, j) && HeldFrom(s, run, y, k) ensures x == y {
        assert Live(s'.table, x, s'.now) && Live(s'.table, y, s'.now);
      }
    }
    if forall x, y, j: nat, k: nat | HeldFrom(s, run, x, j) && HeldFrom(s, run, y, k) :: x == y {
      forall a, b | a in s'.table && b in s'.table && LiveRow(s'.table[a], s'.now) && LiveRow(s'.table[b], s'.now)
        ensures a == b
      {
        assert Live(s'.table, a, s'.now) && Live(s'.table, b, s'.now);
      }
    }
  }

  /** The fixed order is needed: when the SELECT alternates between two live rows, as an unordered
      read may, both leases are renewed for ever. */
  function BothRenew(a: string, b: string, k: nat): seq<Step> {
    if k == 0 then [] else [Advance(4), Tick(a, Some(a)), Tick(b, Some(b))] + BothRenew(a, b, k - 1)
  }

  predicate TwoLeaders(s: State, a: string, b: string) {
    && a != b && s.table.Keys == {a, b}
    && s.table[a] == s.table[b] == Instance(true, Some(s.now + LEASE_SECONDS), ACTIVE, s.now)
  }

  lemma ExecThree(s: State, x: Step, y: Step, z: Step, rest: seq<Step>)
    ensures Exec(s, [x, y, z] + rest) == Exec(Next(Next(Next(s, x), y), z), rest)
    ensures Valid(s, [x, y, z] + rest) <==>
            Enabled(s, x) && Enabled(Next(s, x), y) && Enabled(Next(Next(s, x), y), z) && Valid(Next(Next(Next(s, x), y), z), rest)
  {
    var run := [x, y, z] + rest;
    assert run[1..] == [y, z] + rest;
    assert run[1..][1..] == [z] + rest;
    assert run[1..][1..][1..] == rest;
    var s1 := Next(s, x);
    var s2 := Next(s1, y);
    assert Exec(s2, [z] + rest) == Exec(Next(s2, z), rest);
    assert Valid(s2, [z] + rest) <==> Enabled(s2, z) && Valid(Next(s2, z), rest);
    assert Valid(s1, [y, z] + rest) <==> Enabled(s1, y) && Valid(s2, [z] + rest);
  }

  /** Two registrations and a step-down reach such a state. */
  lemma TwoLeadersReachable(a: string, b: string)
    requires a != b && "" !in {a, b}
    ensures
      var run := [Join(a), Join(b), StepDown("")];
      Valid(State(map[], 0), run) && TwoLeaders(Exec(State(map[], 0), run), a, b)
  {
    var s0 := State(map[], 0);
    var s3 := Next(Next(Next(s0, Join(a)), Join(b)), StepDown(""));
    ExecThree(s0, Join(a), Join(b), StepDown(""), []);
    assert [Join(a), Join(b), StepDown("")] + [] == [Join(a), Join(b), StepDown("")];
    assert s3.table.Keys == {a, b};
  }

  lemma BothRenewOnce(s: State, a: string, b: string)
    requires TwoLeaders(s, a, b)
    ensures var s1 := Next(s, Advance(4));
            var s2 := Next(s1, Tick(a, Some(a)));
            var s3 := Next(s2, Tick(b, Some(b)));
            && Enabled(s1, Tick(a, Some(a))) && Enabled(s2, Tick(b, Some(b)))
            && TwoLeaders(s3, a, b) && s3.now == s.now + 4
  {
  }

  lemma NoStepDownInThree(a: string, b: string, rest: seq<Step>)
    requires NoStepDown(rest)
    ensures NoStepDown([Advance(4), Tick(a, Some(a)), Tick(b, Some(b))] + rest)
  {
  }

  lemma NothingRun(s: State)
    ensures Exec(s, []) == s && Valid(s, [])
  {
  }

  lemma {:induction false} AlternatingPicksNeverHeal(s: State, a: string, b: string, k: nat)
    requires TwoLeaders(s, a, b)
    ensures Valid(s, BothRenew(a, b, k)) && NoStepDown(BothRenew(a, b, k))
    ensures var s' := Exec(s, BothRenew(a, b, k)); s'.now == s.now + 4 * k && !AtMostOneLive(s'.table, s'.now)
    decreases k
  {
    if k == 0 {
      NothingRun(s);
      assert LiveRow(s.table[a], s.now) && LiveRow(s.table[b], s.now);
    } else {
      hide Next, TwoLeaders, Enabled, AtMostOneLive, NoStepDown, Exec, Valid;
      BothRenewOnce(s, a, b);
      var s3 := Next(Next(Next(s, Advance(4)), Tick(a, Some(a))), Tick(b, Some(b)));
      AlternatingPicksNeverHeal(s3, a, b, k - 1);
      NoStepDownInThree(a, b, BothRenew(a, b, k - 1));
      ExecThree(s, Advance(4), Tick(a, Some(a)), Tick(b, Some(b)), BothRenew(a, b, k - 1));
    }
  }

  // ---------------------------------------------------------------- availability and failover

  ghost predicate HasLiveLeader(s: State) {
    exists id :: Live(s.table, id, s.now)
  }

  /** After a tick somebody leads exactly when the SELECT saw a leader or the ticking instance is
      ACTIVE once the stale instances are swept. */
  lemma TickLeavesLeader(s: State, id: string, seen: Option<string>)
    requires Enabled(s, Tick(id, seen))
    ensures HasLiveLeader(Next(s, Tick(id, seen))) <==>
            seen.Some? || (id in s.table && AfterSweep(s.table, id, s.now)[id].status == ACTIVE)
    ensures id in s.table ==> (AfterSweep(s.table, id, s.now)[id].status == ACTIVE <==> s.table[id].status == ACTIVE)
  {
    var s' := Next(s, Tick(id, seen));
    if seen.Some? {
      assert Live(s'.table, seen.value, s'.now);
    } else if id in s.table && s.table[id].status == ACTIVE {
      assert Live(s'.table, id, s'.now);
    }
  }

  predicate NobodyActive(t: Table) {
    forall id | id in t :: t[id].status != ACTIVE
  }

  lemma StatementActivatesNobody(t: Table, statement: Statement, now: int)
    requires NobodyActive(t) && !statement.Register?
    ensures NobodyActive(Apply(t, statement, now))
  {
  }

  lemma StepKeepsNobodyActive(s: State, step: Step)
    requires NobodyActive(s.table) && !step.Join?
    ensures NobodyActive(Next(s, step).table)
  {
    hide NobodyActive, Apply;
    match step
    case Tick(id, seen) =>
      StatementActivatesNobody(s.table, Heartbeat(id), s.now);
      StatementActivatesNobody(Apply(s.table, Heartbeat(id), s.now), Sweep, s.now);
      var t := AfterSweep(s.table, id, s.now);
      StatementActivatesNobody(t, Acquire(id), s.now);
      StatementActivatesNobody(t, Renew(id), s.now);
    case Leave(id) => StatementActivatesNobody(s.table, Drain(id), s.now);
    case StepDown(former) =>
      StatementActivatesNobody(s.table, ResetLeaders, s.now);
      StatementActivatesNobody(Apply(s.table, ResetLeaders, s.now), PromoteStandbys(former), s.now);
    case Advance(_) =>
  }

  /** Heartbeats alone never bring an instance back: once every instance is OFFLINE or DRAINING,
      nobody leads until one registers again, step-downs included. */
  lemma {:induction false} OnlyRegistrationRecovers(s: State, run: seq<Step>)
    requires NobodyActive(s.table)
    requires forall i | 0 <= i < |run| :: !run[i].Join?
    ensures !HasLiveLeader(Exec(s, run))
    decreases |run|
  {
    if run == [] {
    } else {
      assert !run[0].Join?;
      StepKeepsNobodyActive(s, run[0]);
      OnlyRegistrationRecovers(Next(s, run[0]), run[1..]);
    }
  }

  // ---------------------------------------------------------------- draining, sweeping and registering

  /** `x` is DRAINING and does not lead; its last heartbeat and its lease are those of `was`. */
  predicate Draining(t: Table, x: string, was: Instance) {
    x in t && t[x] == Instance(false, was.lease, DRAINING, was.heartbeat)
  }

  lemma StatementKeepsDraining(t: Table, statement: Statement, now: int, x: string, was: Instance)
    requires Draining(t, x, was) && statement != Register(x)
    ensures Draining(Apply(t, statement, now), x, was)
  {
  }

  lemma StepKeepsDraining(s: State, step: Step, x: string, was: Instance)
    requires Draining(s.table, x, was) && step != Join(x)
    ensures Draining(Next(s, step).table, x, was)
  {
    hide Apply, Draining;
    match step
    case Tick(id, seen) =>
      StatementKeepsDraining(s.table, Heartbeat(id), s.now, x, was);
      StatementKeepsDraining(Apply(s.table, Heartbeat(id), s.now), Sweep, s.now, x, was);
      var t := AfterSweep(s.table, id, s.now);
      StatementKeepsDraining(t, Acquire(id), s.now, x, was);
      StatementKeepsDraining(t, Renew(id), s.now, x, was);
    case StepDown(former) =>
      StatementKeepsDraining(s.table, ResetLeaders, s.now, x, was);
      StatementKeepsDraining(Apply(s.table, ResetLeaders, s.now), PromoteStandbys(former), s.now, x, was);
    case Join(id) => StatementKeepsDraining(s.table, Register(id), s.now, x, was);
    case Leave(id) => StatementKeepsDraining(s.table, Drain(id), s.now, x, was);
    case Advance(_) =>
  }

  lemma {:induction false} DrainingLasts(s: State, run: seq<Step>, x: string, was: Instance)
    requires Draining(s.table, x, was) && forall i | 0 <= i < |run| :: run[i] != Join(x)
    ensures Draining(Exec(s, run).table, x, was)
    decreases |run|
  {
    hide Next, Draining;
    if run == [] {
    } else {
      StepKeepsDraining(s, run[0], x, was);
      DrainingLasts(Next(s, run[0]), run[1..], x, was);
    }
  }

  /** Once drained, a known instance is DRAINING, does not lead and keeps the heartbeat and the lease it had, through
      any ticks (its own included), step-downs, drains and time, until it registers again. */
  lemma DrainLasts(s: State, run: seq<Step>, x: string)
    requires x in s.table && run != [] && run[0] == Leave(x)
    requires forall i | 0 < i < |run| :: run[i] != Join(x)
    ensures var t := Exec(s, run).table;
            x in t && t[x] == Instance(false, s.table[x].lease, DRAINING, s.table[x].heartbeat)
  {
    DrainingLasts(Next(s, run[0]), run[1..], x, s.table[x]);
  }

  /** A sweep takes an ACTIVE instance OFFLINE exactly when its last heartbeat is more than twenty
      seconds old, and no other; the instance whose tick it is has just sent one. */
  lemma SweptIff(s: State, id: string, seen: Option<string>, x: string)
    requires x in s.table && x != id && s.table[x].status == ACTIVE
    ensures var row := Next(s, Tick(id, seen)).table[x];
            if s.now - s.table[x].heartbeat > 20 then row == s.table[x].(status := OFFLINE, isLeader := false)
            else row == s.table[x]
  {
  }

  /** An ACTIVE instance that sees another leader only sends its heartbeat. */
  lemma FollowerOnlyBeats(s: State, x: string, leader: string)
    requires x in s.table && s.table[x].status == ACTIVE && leader != x
    ensures Next(s, Tick(x, Some(leader))).table[x] == s.table[x].(heartbeat := s.now)
  {
  }

  /** An OFFLINE instance goes on sending heartbeats and stays OFFLINE. */
  lemma OfflineKeepsBeating(s: State, x: string, seen: Option<string>)
    requires Sane(s.table, s.now) && x in s.table && s.table[x].status == OFFLINE
    ensures Next(s, Tick(x, seen)).table[x] == s.table[x].(heartbeat := s.now)
  {
  }

  /** Registration makes an instance ACTIVE with a fresh heartbeat, keeps the leader flag and the lease
      of one that was known, and gives a new one neither. */
  lemma RegistrationActivates(s: State, x: string)
    ensures var row := Next(s, Join(x)).table[x];
            && row.status == ACTIVE && row.heartbeat == s.now
            && (x in s.table ==> row.isLeader == s.table[x].isLeader && row.lease == s.table[x].lease)
            && (x !in s.table ==> !row.isLeader && row.lease == None)
    ensures forall y | y in s.table && y != x :: Next(s, Join(x)).table[y] == s.table[y]
  {
  }

  /** An acquired or renewed lease runs for twelve seconds from the tick. */
  lemma ElectedForTwelve(s: State, step: Step, x: string)
    requires Enabled(s, step) && Elects(step, x) && x in s.table && s.table[x].status == ACTIVE
    ensures var row := Next(s, step).table[x];
            row.isLeader && row.lease == Some(s.now + 12) && row.heartbeat == s.now
  {
  }

  /** A step-down leaves the former leader without the flag and with a lease that ends at once, and
      every other ACTIVE instance a leader for twelve seconds. */
  lemma StepDownHandsOver(s: State, former: string, x: string)
    requires Sane(s.table, s.now) && x in s.table
    ensures var row := Next(s, StepDown(former)).table[x];
            if x != former && s.table[x].status == ACTIVE then row == s.table[x].(isLeader := true, lease := Some(s.now + 12))
            else if s.table[x].isLeader then row == s.table[x].(isLeader := false, lease := Some(s.now))
            else row == s.table[x]
  {
  }

  /** `x` ticks whenever `gap` seconds have passed since it last did, and is never drained. */
  predicate Punctual(run: seq<Step>, x: string, since: nat, gap: nat)
    decreases |run|
  {
    since <= gap &&
    (run == [] ||
      match run[0]
      case Advance(seconds) => Punctual(run[1..], x, since + seconds, gap)
      case Tick(id, _) => Punctual(run[1..], x, if id == x then 0 else since, gap)
      case Leave(id) => id != x && Punctual(run[1..], x, since, gap)
      case _ => Punctual(run[1..], x, since, gap))
  }

  /** How long since `x` last ticked, after one more step. */
  function Since(step: Step, x: string, since: nat): nat {
    match step
    case Advance(seconds) => since + seconds
    case Tick(id, _) => if id == x then 0 else since
    case _ => since
  }

  predicate Beating(s: State, x: string, since: nat) {
    x in s.table && s.table[x].status == ACTIVE && s.table[x].heartbeat >= s.now - since
  }

  lemma StatementKeepsBeating(t: Table, statement: Statement, now: int, x: string, since: nat)
    requires Beating(State(t, now), x, since) && since <= STALE_SECONDS && statement != Drain(x)
    ensures Beating(State(Apply(t, statement, now), now), x, if statement == Heartbeat(x) then 0 else since)
  {
  }

  lemma StepKeepsBeating(s: State, step: Step, x: string, since: nat)
    requires Beating(s, x, since) && since <= STALE_SECONDS && step != Leave(x)
    ensures Beating(Next(s, step), x, Since(step, x, since))
  {
    match step
    case Tick(id, seen) =>
      hide Apply, Beating;
      var after := if id == x then 0 else since;
      StatementKeepsBeating(s.table, Heartbeat(id), s.now, x, since);
      StatementKeepsBeating(Apply(s.table, Heartbeat(id), s.now), Sweep, s.now, x, after);
      var t := AfterSweep(s.table, id, s.now);
      StatementKeepsBeating(t, Acquire(id), s.now, x, after);
      StatementKeepsBeating(t, Renew(id), s.now, x, after);
    case StepDown(former) =>
      hide Apply, Beating;
      StatementKeepsBeating(s.table, ResetLeaders, s.now, x, since);
      StatementKeepsBeating(Apply(s.table, ResetLeaders, s.now), PromoteStandbys(former), s.now, x, since);
    case Join(id) => StatementKeepsBeating(s.table, Register(id), s.now, x, since);
    case Leave(id) => StatementKeepsBeating(s.table, Drain(id), s.now, x, since);
    case Advance(_) =>
  }

  /** An instance that ticks at least every twenty seconds stays ACTIVE until drained, step-downs
      included. */
  lemma {:induction false} NeverSwept(s: State, run: seq<Step>, x: string, since: nat)
    requires Beating(s, x, since) && Punctual(run, x, since, STALE_SECONDS)
    ensures Exec(s, run).table.Keys >= {x} && Exec(s, run).table[x].status == ACTIVE
    decreases |run|
  {
    if run == [] {
    } else {
      StepKeepsBeating(s, run[0], x, since);
      NeverSwept(Next(s, run[0]), run[1..], x, Since(run[0], x, since));
    }
  }

  lemma {:induction false} PunctualLoosens(run: seq<Step>, x: string, since: nat, gap: nat, wider: nat)
    requires Punctual(run, x, since, gap) && gap <= wider
    ensures Punctual(run, x, since, wider)
    decreases |run|
  {
    if run == [] {
    } else {
      PunctualLoosens(run[1..], x, Since(run[0], x, since), gap, wider);
    }
  }

  lemma LeaderKeepsLeaseOnce(s: State, step: Step, x: string, since: nat)
    requires AtMostOneLive(s.table, s.now) && Enabled(s, step) && !step.StepDown? && step != Leave(x)
    requires Beating(s, x, since) && since < LEASE_SECONDS && Since(step, x, since) < LEASE_SECONDS
    requires Live(s.table, x, s.now) && s.table[x].lease.value >= s.now - since + LEASE_SECONDS
    ensures
      var s' := Next(s, step);
      Live(s'.table, x, s'.now) && s'.table[x].lease.value >= s'.now - Since(step, x, since) + LEASE_SECONDS
  {
    if step.Tick? {
      assert Live(AfterSweep(s.table, step.id, s.now), x, s.now);
      assert step.seen == Some(x);
    }
  }

  /** A leader that ticks with gaps under twelve seconds keeps its lease until it is drained. */
  lemma {:induction false} LeaderKeepsLease(s: State, run: seq<Step>, x: string, since: nat)
    requires Sane(s.table, s.now) && AtMostOneLive(s.table, s.now)
    requires Valid(s, run) && NoStepDown(run)
    requires Beating(s, x, since) && Punctual(run, x, since, LEASE_SECONDS - 1)
    requires Live(s.table, x, s.now) && s.table[x].lease.value >= s.now - since + LEASE_SECONDS
    ensures var s' := Exec(s, run); Live(s'.table, x, s'.now)
    decreases |run|
  {
    if run == [] {
    } else {
      hide Next, Beating, AtMostOneLive, Sane, Enabled;
      var step := run[0];
      var s' := Next(s, step);
      StepKeepsSane(s, step);
      StepKeepsUnique(s, step);
      StepKeepsBeating(s, step, x, since);
      assert Punctual(run[1..], x, Since(step, x, since), LEASE_SECONDS - 1);
      LeaderKeepsLeaseOnce(s, step, x, since);
      LeaderKeepsLease(s', run[1..], x, Since(step, x, since));
    }
  }

  /** The crashed instance never ticks again and cannot lead past `deadline`. */
  predicate Crashed(s: State, run: seq<Step>, dead: string, deadline: int) {
    && (forall i | 0 <= i < |run| :: !(run[i].Tick? && run[i].id == dead))
    && (dead in s.table && s.table[dead].isLeader ==> s.table[dead].lease.Some? && s.table[dead].lease.value <= deadline)
  }

  lemma StepKeepsCrashed(s: State, run: seq<Step>, dead: string, deadline: int)
    requires run != [] && NoStepDown(run) && Crashed(s, run, dead, deadline)
    ensures Crashed(Next(s, run[0]), run[1..], dead, deadline)
  {
    assert !(run[0].Tick? && run[0].id == dead) && !run[0].StepDown?;
    forall i | 0 <= i < |run[1..]| ensures !(run[1..][i].Tick? && run[1..][i].id == dead) {
      assert run[1..][i] == run[i + 1];
    }
  }

  /** Takeover: the leader crashes at `crash`; one other ACTIVE instance keeps ticking every four
      seconds. Sixteen seconds later at the latest somebody else holds a live lease. */
  lemma {:induction false} FailoverWithinSixteen(s: State, run: seq<Step>, dead: string, x: string, since: nat, crash: int)
      returns (k: nat)
    requires Sane(s.table, s.now) && Valid(s, run) && NoStepDown(run)
    requires dead != x && Crashed(s, run, dead, crash + LEASE_SECONDS)
    requires Beating(s, x, since) && Punctual(run, x, since, 4)
    requires crash <= s.now && s.now - since < crash + LEASE_SECONDS
    requires Exec(s, run).now >= crash + 16
    ensures k <= |run|
    ensures
      var s' := Exec(s, run[..k]);
      s'.now <= crash + 16 && exists id :: id != dead && Live(s'.table, id, s'.now)
    decreases |run|
  {
    if run == [] {
      assert false;
    }
    var step := run[0];
    var s' := Next(s, step);
    StepKeepsSane(s, step);
    StepKeepsCrashed(s, run, dead, crash + LEASE_SECONDS);
    StepKeepsBeating(s, step, x, since);
    if step.Tick? && step.id == x && s.now >= crash + LEASE_SECONDS {
      k := 1;
      assert run[..1][1..] == [];
      TickLeavesLeader(s, x, step.seen);
      var id :| Live(s'.table, id, s'.now);
      assert id != dead;
    } else {
      var j := FailoverWithinSixteen(s', run[1..], dead, x, Since(step, x, since), crash);
      k := j + 1;
      assert run[..k][1..] == run[1..][..j];
    }
  }
}
