/**
 The leader lease as a timed machine: any number of replicas with distinct holder ids, one row, one
 clock. A replica believes it leads from the moment a claim reports success until a claim fails, is
 refused, or its context ends. Claims may commit in the database while the client sees an error.

 Assumptions built into the machine: one clock rate; a claim has no effect after its query timeout;
 a replica that believes (or is waiting for a claim) acts at most `slack` after it is due.
 */
module Lease {
  import opened Wrappers

  datatype Params = Params(interval: int, queryTimeout: int, ttl: int, slack: int)

  predicate Sane(p: Params) {
    0 <= p.interval && 0 <= p.queryTimeout && 0 <= p.ttl && 0 <= p.slack
  }

  datatype Row = Row(holder: string, expiresAt: int)

  /** Claim's UPDATE at database time `at`; the row count says whether it applied. */
  function ClaimRow(row: Row, me: string, at: int, ttl: int): (Row, bool) {
    if row.holder == me || row.expiresAt < at then (Row(me, at + ttl), true) else (row, false)
  }

  datatype Outcome = Answered(ok: bool) | Failed

  /** One attempt of Run: the new value of wasLeader, and the report it makes, if any. */
  function AfterAttempt(wasLeader: bool, outcome: Outcome): (bool, Option<bool>) {
    match outcome
    case Failed => (false, if wasLeader then Some(false) else None)
    case Answered(ok) => (ok, if ok != wasLeader then Some(ok) else None)
  }

  datatype Phase =
    | Down                                                      // not inside Run
    | Waiting(idleSince: int, nextTick: int)                    // in the select
    | Claiming(start: int, nextTick: int, done: Option<bool>)   // inside Claim; done once the statement committed

  datatype Replica = Replica(id: string, phase: Phase, leads: bool, renewed: int)

  datatype State = State(now: int, row: Row, replicas: seq<Replica>)

  datatype Action =
    | Tick(now: int)
    | Begin(r: nat, nextTick: int)
    | Execute(r: nat, at: int)
    | Reply(r: nat, failed: bool)
    | Wake(r: nat, nextTick: int)
    | Stop(r: nat)

  function Max(a: int, b: int): int {
    if a < b then b else a
  }

  /** The latest time at which this replica acts next, as far as the lease depends on it. */
  predicate Punctual(p: Params, r: Replica, now: int) {
    match r.phase
    case Down => true
    case Waiting(idle, tick) => r.leads ==> now <= Max(idle, tick) + p.slack
    case Claiming(start, _, _) => now <= start + p.queryTimeout + p.slack
  }

  predicate Enabled(p: Params, s: State, act: Action) {
    match act
    case Tick(t) => s.now <= t && forall r | 0 <= r < |s.replicas| :: Punctual(p, s.replicas[r], t)
    case Begin(r, tick) => r < |s.replicas| && s.replicas[r].phase.Down? && tick <= s.now + p.interval
    case Execute(r, at) =>
      && r < |s.replicas| && s.replicas[r].phase.Claiming? && s.replicas[r].phase.done.None?
      && s.replicas[r].phase.start <= at <= s.now <= s.replicas[r].phase.start + p.queryTimeout
    case Reply(r, failed) =>
      r < |s.replicas| && s.replicas[r].phase.Claiming? && (failed || s.replicas[r].phase.done.Some?)
    case Wake(r, tick) =>
      && r < |s.replicas| && s.replicas[r].phase.Waiting?
      && s.replicas[r].phase.nextTick <= s.now && tick <= s.now + p.interval
    case Stop(r) => r < |s.replicas|
  }

  function Put(s: State, r: nat, replica: Replica): State
    requires r < |s.replicas|
  {
    s.(replicas := s.replicas[r := replica])
  }

  function Apply(p: Params, s: State, act: Action): State
    requires Enabled(p, s, act)
  {
    match act
    case Tick(t) => s.(now := t)
    case Begin(r, tick) => Put(s, r, s.replicas[r].(phase := Claiming(s.now, tick, None), leads := false))
    case Execute(r, at) =>
      var x := s.replicas[r];
      var (row, ok) := ClaimRow(s.row, x.id, at, p.ttl);
      Put(s.(row := row), r, x.(phase := x.phase.(done := Some(ok))))
    case Reply(r, failed) =>
      var x := s.replicas[r];
      var outcome := if failed then Failed else Answered(x.phase.done.value);
      var leads := AfterAttempt(x.leads, outcome).0;
      Put(s, r, x.(phase := if failed then Down else Waiting(s.now, x.phase.nextTick),
                   leads := leads,
                   renewed := if leads then x.phase.start else x.renewed))
    case Wake(r, tick) => Put(s, r, s.replicas[r].(phase := Claiming(s.now, tick, None)))
    case Stop(r) => Put(s, r, s.replicas[r].(phase := Down, leads := false))
  }

  predicate CanRun(p: Params, s: State, acts: seq<Action>)
    decreases |acts|
  {
    acts == [] || (Enabled(p, s, acts[0]) && CanRun(p, Apply(p, s, acts[0]), acts[1..]))
  }

  function Run(p: Params, s: State, acts: seq<Action>): State
    requires CanRun(p, s, acts)
    decreases |acts|
  {
    if acts == [] then s else Run(p, Apply(p, s, acts[0]), acts[1..])
  }

  ghost predicate DistinctIds(s: State) {
    forall i, j | 0 <= i < |s.replicas| && 0 <= j < |s.replicas| && i != j :: s.replicas[i].id != s.replicas[j].id
  }

  /** The seeded row is long expired and no replica has started. */
  ghost predicate Initial(s: State) {
    && s.row.expiresAt < s.now
    && DistinctIds(s)
    && forall r | 0 <= r < |s.replicas| :: s.replicas[r].phase.Down? && !s.replicas[r].leads
  }

  /** No two replicas have a live leadership context. */
  ghost predicate AtMostOneLeader(s: State) {
    forall i, j | 0 <= i < |s.replicas| && 0 <= j < |s.replicas| && s.replicas[i].leads && s.replicas[j].leads :: i == j
  }

  /**
   A belief that rests on a claim started at time c dies by
   c + max(interval, queryTimeout + slack) + slack + queryTimeout + slack.
   */
  predicate Safe(p: Params) {
    Max(p.interval, p.queryTimeout + p.slack) + p.slack + p.queryTimeout + p.slack <= p.ttl
  }

  // ---------------------------------------------------------------- sufficiency

  /** Why replica `x` cannot be overtaken at time `s.now`. */
  ghost predicate Covered(p: Params, s: State, x: Replica) {
    && Punctual(p, x, s.now)
    && (x.phase.Claiming? ==> x.phase.start <= s.now && x.phase.nextTick <= x.phase.start + p.interval)
    && (x.phase.Claiming? && x.phase.done == Some(true) ==> s.row.holder == x.id && x.phase.start + p.ttl <= s.row.expiresAt)
    && (x.leads ==>
          && s.row.holder == x.id
          && x.renewed <= s.now
          && x.renewed + p.ttl <= s.row.expiresAt
          && match x.phase
             case Down => false
             case Waiting(idle, tick) => idle <= x.renewed + p.queryTimeout + p.slack && tick <= x.renewed + p.interval
             case Claiming(start, _, _) =>
               x.renewed <= start <= x.renewed + Max(p.interval, p.queryTimeout + p.slack) + p.slack)
  }

  ghost predicate Inv(p: Params, s: State) {
    DistinctIds(s) && forall r | 0 <= r < |s.replicas| :: Covered(p, s, s.replicas[r])
  }

  lemma StepKeepsInv(p: Params, s: State, act: Action)
    requires Sane(p) && Safe(p) && Inv(p, s) && Enabled(p, s, act)
    ensures Inv(p, Apply(p, s, act))
  {
    var t := Apply(p, s, act);
    forall r | 0 <= r < |t.replicas| ensures Covered(p, t, t.replicas[r]) {
      assert Covered(p, s, s.replicas[r]);
      if act.Execute? {
        assert Covered(p, s, s.replicas[act.r]);
        assert r != act.r ==> s.replicas[r].id != s.replicas[act.r].id;
      }
    }
  }

  lemma {:induction false} RunKeepsInv(p: Params, s: State, acts: seq<Action>)
    requires Sane(p) && Safe(p) && Inv(p, s) && CanRun(p, s, acts)
    ensures Inv(p, Run(p, s, acts))
    decreases |acts|
  {
    if acts != [] {
      StepKeepsInv(p, s, acts[0]);
      RunKeepsInv(p, Apply(p, s, acts[0]), acts[1..]);
    }
  }

  lemma SingleLiveLeader(p: Params, s: State, acts: seq<Action>)
    requires Sane(p) && Safe(p) && Initial(s) && CanRun(p, s, acts)
    ensures AtMostOneLeader(Run(p, s, acts))
  {
    RunKeepsInv(p, s, acts);
    var t := Run(p, s, acts);
    assert forall r | 0 <= r < |t.replicas| :: Covered(p, t, t.replicas[r]);
  }

  // ---------------------------------------------------------------- what a claim does

  /**
   A claim that reaches the row succeeds exactly if its replica holds the row or the row has expired. Success gives the
   replica a whole TTL; a refusal leaves the row alone.
   */
  lemma ClaimIsExact(p: Params, s: State, r: nat, at: int)
    requires Enabled(p, s, Execute(r, at))
    ensures
      var (x, t) := (s.replicas[r], Apply(p, s, Execute(r, at)));
      var free := s.row.holder == x.id || s.row.expiresAt < at;
      && t == s.(row := t.row, replicas := s.replicas[r := x.(phase := x.phase.(done := Some(free)))])
      && t.row == if free then Row(x.id, at + p.ttl) else s.row
  {
  }

  /** In every run a leader's renewal finds its own row, alive or not, and extends it. */
  lemma LeaderRenews(p: Params, s: State, acts: seq<Action>, r: nat, at: int)
    requires Sane(p) && Safe(p) && Initial(s) && CanRun(p, s, acts)
    requires Enabled(p, Run(p, s, acts), Execute(r, at)) && Run(p, s, acts).replicas[r].leads
    ensures
      var t := Apply(p, Run(p, s, acts), Execute(r, at));
      && t.replicas[r].leads && t.replicas[r].phase.done == Some(true)
      && t.row == Row(t.replicas[r].id, at + p.ttl)
  {
    RunKeepsInv(p, s, acts);
    var t := Run(p, s, acts);
    assert Covered(p, t, t.replicas[r]);
    ClaimIsExact(p, t, r, at);
  }

  /** Replica `r` believes it leads, and no claim of it was refused. */
  ghost predicate Unrefused(s: State, r: nat) {
    r < |s.replicas| && s.replicas[r].leads && (s.replicas[r].phase.Claiming? ==> s.replicas[r].phase.done != Some(false))
  }

  /** Nobody stops replica `r`, and all its claims are answered. */
  ghost predicate Undisturbed(acts: seq<Action>, r: nat) {
    forall i | 0 <= i < |acts| :: acts[i] != Stop(r) && acts[i] != Reply(r, true)
  }

  lemma StepKeepsUnrefused(p: Params, s: State, act: Action, r: nat)
    requires Inv(p, s) && Enabled(p, s, act) && Unrefused(s, r) && act != Stop(r) && act != Reply(r, true)
    ensures Unrefused(Apply(p, s, act), r)
  {
    assert Covered(p, s, s.replicas[r]);
  }

  lemma {:induction false} RunKeepsUnrefused(p: Params, s: State, acts: seq<Action>, r: nat)
    requires Sane(p) && Safe(p) && Inv(p, s) && CanRun(p, s, acts) && Unrefused(s, r) && Undisturbed(acts, r)
    ensures Unrefused(Run(p, s, acts), r)
    decreases |acts|
  {
    if acts != [] {
      StepKeepsInv(p, s, acts[0]);
      StepKeepsUnrefused(p, s, acts[0], r);
      assert forall i | 0 <= i < |acts[1..]| :: acts[1..][i] == acts[i + 1];
      RunKeepsUnrefused(p, Apply(p, s, acts[0]), acts[1..], r);
    }
  }

  /** No replica that leads was ever refused its latest claim. */
  ghost predicate LeadersUnrefused(s: State) {
    forall r: nat | r < |s.replicas| && s.replicas[r].leads :: Unrefused(s, r)
  }

  lemma {:induction false} RunKeepsLeadersUnrefused(p: Params, s: State, acts: seq<Action>)
    requires Sane(p) && Safe(p) && Inv(p, s) && CanRun(p, s, acts) && LeadersUnrefused(s)
    ensures LeadersUnrefused(Run(p, s, acts))
    decreases |acts|
  {
    if acts != [] {
      var t := Apply(p, s, acts[0]);
      StepKeepsInv(p, s, acts[0]);
      forall r: nat | r < |t.replicas| && t.replicas[r].leads ensures Unrefused(t, r) {
        if s.replicas[r].leads && acts[0] != Stop(r) && acts[0] != Reply(r, true) { StepKeepsUnrefused(p, s, acts[0], r); }
      }
      RunKeepsLeadersUnrefused(p, t, acts[1..]);
    }
  }

  /** Leadership is stable: in a safe configuration a leader that nobody stops and whose claims are answered stays leader. */
  lemma AnsweredLeaderKeepsLeading(p: Params, s: State, before: seq<Action>, acts: seq<Action>, r: nat)
    requires Sane(p) && Safe(p) && Initial(s) && CanRun(p, s, before)
    requires r < |Run(p, s, before).replicas| && Run(p, s, before).replicas[r].leads
    requires CanRun(p, Run(p, s, before), acts) && Undisturbed(acts, r)
    ensures r < |Run(p, Run(p, s, before), acts).replicas| && Run(p, Run(p, s, before), acts).replicas[r].leads
  {
    RunKeepsInv(p, s, before);
    RunKeepsLeadersUnrefused(p, s, before);
    RunKeepsUnrefused(p, Run(p, s, before), acts, r);
  }

  // ---------------------------------------------------------------- necessity

  /** The overtaking run: the first replica is as late as it may be, the second claims just then. */
  function Overtaking(p: Params, t0: int): seq<Action> {
    var t1 := t0 + p.queryTimeout + p.slack;
    var t2 := Max(t1, t0 + p.interval) + p.slack;
    var t3 := t2 + p.queryTimeout + p.slack;
    [Begin(0, t0 + p.interval), Execute(0, t0), Tick(t1), Reply(0, false), Tick(t2), Wake(0, t2 + p.interval), Tick(t3),
     Begin(1, t3 + p.interval), Execute(1, t3), Reply(1, false)]
  }

  lemma RunSnoc(p: Params, s: State, acts: seq<Action>, act: Action)
    requires CanRun(p, s, acts) && Enabled(p, Run(p, s, acts), act)
    ensures CanRun(p, s, acts + [act]) && Run(p, s, acts + [act]) == Apply(p, Run(p, s, acts), act)
    decreases |acts|
  {
    if acts == [] {
      assert [act][1..] == [] && acts + [act] == [act] && CanRun(p, Apply(p, s, act), []);
    } else {
      RunSnoc(p, Apply(p, s, acts[0]), acts[1..], act);
      assert (acts + [act])[1..] == acts[1..] + [act];
    }
  }

  /** All but the first two replicas are as in `s`. */
  ghost predicate OthersRest(s: State, t: State) {
    |t.replicas| == |s.replicas| && forall r | 2 <= r < |s.replicas| :: t.replicas[r] == s.replicas[r]
  }

  /** Where the run stands after `i` actions, up to the moment where the first replica hangs in its second claim. */
  ghost predicate HangingAt(p: Params, s: State, t: State, i: nat)
    requires |s.replicas| >= 2
  {
    && OthersRest(s, t) && t.replicas[1] == s.replicas[1] && t.replicas[0].id == s.replicas[0].id
    && var x := t.replicas[0];
    && var t1 := s.now + p.queryTimeout + p.slack;
    && t.now == (if i <= 2 then s.now else if i <= 4 then t1 else Max(t1, s.now + p.interval) + p.slack)
    && t.row == (if i <= 1 then s.row else Row(x.id, s.now + p.ttl))
    && x.leads == (4 <= i)
    && (i == 0 ==> x.phase.Down?)
    && (i == 1 ==> x.phase == Claiming(s.now, s.now + p.interval, None))
    && (2 <= i <= 3 ==> x.phase == Claiming(s.now, s.now + p.interval, Some(true)))
    && (4 <= i <= 5 ==> x.phase == Waiting(t1, s.now + p.interval))
    && (i == 6 ==> x.phase.Claiming? && x.phase.start == t.now)
  }

  lemma HangingStep(p: Params, s: State, t: State, i: nat)
    requires Sane(p) && Initial(s) && |s.replicas| >= 2 && i < 6 && HangingAt(p, s, t, i)
    ensures var act := Overtaking(p, s.now)[i]; Enabled(p, t, act) && HangingAt(p, s, Apply(p, t, act), i + 1)
  {
  }

  lemma FirstReplicaHangs(p: Params, s: State)
    requires Sane(p) && Initial(s) && |s.replicas| >= 2
    ensures var acts := Overtaking(p, s.now)[..6]; CanRun(p, s, acts) && HangingAt(p, s, Run(p, s, acts), 6)
  {
    var all := Overtaking(p, s.now);
    for i := 0 to 6
      invariant CanRun(p, s, all[..i]) && HangingAt(p, s, Run(p, s, all[..i]), i)
    {
      HangingStep(p, s, Run(p, s, all[..i]), i);
      RunSnoc(p, s, all[..i], all[i]);
      assert all[..i + 1] == all[..i] + [all[i]];
    }
  }

  /** Where the run stands after `i` of its ten actions, from the hanging claim on. */
  ghost predicate OvertakenAt(p: Params, s: State, t: State, i: nat)
    requires |s.replicas| >= 2
  {
    && OthersRest(s, t) && t.replicas[0].leads && t.replicas[1].id == s.replicas[1].id
    && var t2 := Max(s.now + p.queryTimeout + p.slack, s.now + p.interval) + p.slack;
    && var x := t.replicas[1];
    && (if i == 6 then t.replicas[0].phase.Claiming? && t.now == t.replicas[0].phase.start == t2
        else t.now == t2 + p.queryTimeout + p.slack)
    && (i <= 8 ==> t.row == Row(s.replicas[0].id, s.now + p.ttl))
    && (i <= 7 ==> x.phase.Down?)
    && (i == 8 ==> x.phase == Claiming(t.now, t.now + p.interval, None))
    && (i == 9 ==> x.phase == Claiming(t.now, t.now + p.interval, Some(true)))
    && (i == 10 ==> x.leads)
  }

  lemma OvertakenStep(p: Params, s: State, t: State, i: nat)
    requires Sane(p) && !Safe(p) && Initial(s) && |s.replicas| >= 2 && 6 <= i < 10 && OvertakenAt(p, s, t, i)
    ensures var act := Overtaking(p, s.now)[i]; Enabled(p, t, act) && OvertakenAt(p, s, Apply(p, t, act), i + 1)
  {
  }

  lemma UnsafeParamsAllowTwoLeaders(p: Params, s: State)
    requires Sane(p) && !Safe(p) && Initial(s) && |s.replicas| >= 2
    ensures CanRun(p, s, Overtaking(p, s.now)) && !AtMostOneLeader(Run(p, s, Overtaking(p, s.now)))
  {
    FirstReplicaHangs(p, s);
    var all := Overtaking(p, s.now);
    for i := 6 to 10
      invariant CanRun(p, s, all[..i]) && OvertakenAt(p, s, Run(p, s, all[..i]), i)
    {
      OvertakenStep(p, s, Run(p, s, all[..i]), i);
      RunSnoc(p, s, all[..i], all[i]);
      assert all[..i + 1] == all[..i] + [all[i]];
    }
    assert all[..10] == all;
  }

  lemma {:induction false} RunKeepsReplicas(p: Params, s: State, acts: seq<Action>)
    requires CanRun(p, s, acts)
    ensures |Run(p, s, acts).replicas| == |s.replicas|
    decreases |acts|
  {
    if acts != [] { RunKeepsReplicas(p, Apply(p, s, acts[0]), acts[1..]); }
  }

  /** The exact condition under which the lease keeps its promise, for any number of replicas racing from a fresh row. */
  lemma SingleLeaderIffSafe(p: Params, s: State)
    requires Sane(p) && Initial(s)
    ensures Safe(p) || |s.replicas| < 2 <==> forall acts | CanRun(p, s, acts) :: AtMostOneLeader(Run(p, s, acts))
  {
    if Safe(p) {
      forall acts | CanRun(p, s, acts) ensures AtMostOneLeader(Run(p, s, acts)) {
        SingleLiveLeader(p, s, acts);
      }
    } else if |s.replicas| >= 2 {
      UnsafeParamsAllowTwoLeaders(p, s);
    } else {
      forall acts | CanRun(p, s, acts) ensures AtMostOneLeader(Run(p, s, acts)) {
        RunKeepsReplicas(p, s, acts);
      }
    }
  }

  // ---------------------------------------------------------------- the deployed constants

  const SECOND := 1_000_000_000

  function Deployed(slack: int): Params {
    Params(10 * SECOND, 5 * SECOND, 30 * SECOND, slack)
  }

  /** Renewing every 10s with a 5s query timeout under a 30s TTL tolerates delays up to 6.67s. */
  lemma DeployedSlack(slack: int)
    requires 0 <= slack
    ensures Safe(Deployed(slack)) <==> slack <= 6_666_666_666
  {
  }

  /** "Interval plus timeout within the TTL" is the right rule only while a claim fits inside an interval. */
  lemma IntervalPlusTimeoutRule(p: Params)
    requires Sane(p) && p.queryTimeout + p.slack <= p.interval
    ensures Safe(p) <==> p.interval + p.queryTimeout + 2 * p.slack <= p.ttl
  {
  }

  lemma IntervalPlusTimeoutIsNotEnough(s: State)
    requires Initial(s) && |s.replicas| >= 2
    ensures var p := Params(1, 5, 6, 0);
            p.interval + p.queryTimeout <= p.ttl && exists acts | CanRun(p, s, acts) :: !AtMostOneLeader(Run(p, s, acts))
  {
    UnsafeParamsAllowTwoLeaders(Params(1, 5, 6, 0), s);
  }
}
