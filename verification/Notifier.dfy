/**
 The evaluator's methods over the shared debounce table, step by step, with every other attempt interleaved. As for the
 reconciler, `others` scripts stand for the rest of the fleet and the clock, and statements meet a chosen fate.
 */
module Notifier {
  import opened Wrappers
  import N = NotifyProtocol
  import opened NotifyRules

  // ---------------------------------------------------------------- the shared table

  ghost predicate Leads(c: N.Config, s: N.State, t: N.State) {
    exists acts :: LeadsBy(c, s, t, acts)
  }

  ghost predicate LeadsBy(c: N.Config, s: N.State, t: N.State, acts: seq<N.Action>) {
    N.CanRun(c, s, acts) && N.Run(c, s, acts) == t
  }

  lemma LeadsNowhere(c: N.Config, s: N.State)
    ensures Leads(c, s, s)
  {
    assert LeadsBy(c, s, s, []);
  }

  lemma LeadsStep(c: N.Config, s: N.State, t: N.State, act: N.Action)
    requires Leads(c, s, t) && N.Enabled(c, t, act)
    ensures Leads(c, s, N.Apply(c, t, act))
  {
    var acts :| LeadsBy(c, s, t, acts);
    var u := N.Apply(c, t, act);
    assert [act][1..] == [] && N.CanRun(c, u, []) && N.CanRun(c, t, [act]) && N.Run(c, t, [act]) == u;
    N.RunConcat(c, s, acts, [act]);
    assert LeadsBy(c, s, u, acts + [act]);
  }

  /** Whatever follows a reachable state is reachable, so every result about runs applies to it. */
  lemma LeadsKeepsReachable(c: N.Config, s: N.State, t: N.State)
    requires N.Reachable(c, s) && Leads(c, s, t)
    ensures N.Reachable(c, t)
  {
    var acts :| LeadsBy(c, s, t, acts);
    N.ReachableStep(c, s, acts);
  }

  function Who(act: N.Action): Option<nat> {
    match act
    case Tick(_) => None
    case Start(_, _) => None
    case ClaimMarker(id, _) => Some(id)
    case Claim(id, _) => Some(id)
    case Send(id, _) => Some(id)
    case Confirm(id, _) => Some(id)
    case Revert(id, _) => Some(id)
    case ClearMarker(id, _) => Some(id)
    case FreeMarker(id, _) => Some(id)
    case Crash(id) => Some(id)
  }

  /** The first `n` attempts, which others have no part in, are as they were. */
  ghost predicate Kept(s: N.State, t: N.State, mine: set<nat>) {
    s.now <= t.now && |s.attempts| <= |t.attempts| && forall i | i in mine && i < |s.attempts| :: t.attempts[i] == s.attempts[i]
  }

  lemma StepKeepsOthers(c: N.Config, s: N.State, act: N.Action, mine: set<nat>)
    requires N.Enabled(c, s, act) && (Who(act).Some? ==> Who(act).value !in mine)
    ensures Kept(s, N.Apply(c, s, act), mine)
  {
  }

  class Table {
    const config: N.Config
    var now: int
    var rows: map<N.Key, N.Row>
    var attempts: seq<N.Attempt>
    var log: seq<N.Entry>

    function View(): N.State
      reads this
    {
      N.State(now, rows, attempts, log)
    }

    constructor (config: N.Config, now: int)
      ensures this.config == config && View() == N.State(now, map[], [], [])
    {
      this.config, this.now := config, now;
      rows, attempts, log := map[], [], [];
    }

    method Step(act: N.Action, ghost start: N.State)
      requires N.Enabled(config, View(), act) && Leads(config, start, View())
      modifies this
      ensures View() == N.Apply(config, old(View()), act)
      ensures Leads(config, start, View())
    {
      LeadsStep(config, start, View(), act);
      var t := N.Apply(config, View(), act);
      now, rows, attempts, log := t.now, t.rows, t.attempts, t.log;
    }

    /** The rest of the fleet acts; nothing in the script belongs to an attempt in `mine`. */
    method Interfere(script: seq<N.Action>, mine: set<nat>, ghost start: N.State)
      requires Leads(config, start, View()) && forall i | i in mine :: i < |attempts|
      modifies this
      ensures Leads(config, start, View())
      ensures Kept(old(View()), View(), mine)
    {
      for n := 0 to |script|
        invariant Leads(config, start, View())
        invariant Kept(old(View()), View(), mine)
      {
        var who := Who(script[n]);
        if N.Enabled(config, View(), script[n]) && (who.None? || who.value !in mine) {
          StepKeepsOthers(config, View(), script[n], mine);
          Step(script[n], start);
        }
      }
    }

    method Begin(marker: Option<N.Key>, row: N.Key, others: seq<N.Action>, mine: set<nat>, ghost start: N.State) returns (id: nat)
      requires Leads(config, start, View()) && forall i | i in mine :: i < |attempts|
      requires (row in config.markers ==> marker.None?) && (marker.Some? ==> marker.value in config.markers)
      modifies this
      ensures Leads(config, start, View())
      ensures Kept(old(View()), View(), mine) && |old(attempts)| <= id < |attempts|
      ensures attempts[id].marker == marker && attempts[id].row == row && Untouched(attempts[id])
      ensures attempts[id].pc == if marker.None? then N.Claiming else N.ClaimingMarker
    {
      Interfere(others, mine, start);
      id := |attempts|;
      Step(N.Start(marker, row), start);
    }
  }

  // ---------------------------------------------------------------- the evaluator

  /** What the outside decides about one attempt. */
  datatype Script = Script(
    markerClaim: N.Fate,
    claim: N.Fate,
    sends: bool,
    confirm: N.Fate,
    revert: N.Fate,
    markerEnd: N.Fate,
    others: nat -> seq<N.Action>)

  /** The attempt is the same one, further on, and the rest of `mine` has not moved. */
  ghost predicate Onward(s: N.State, t: N.State, id: nat, mine: set<nat>) {
    && s.now <= t.now && id < |s.attempts| <= |t.attempts|
    && t.attempts[id].marker == s.attempts[id].marker && t.attempts[id].row == s.attempts[id].row
    && forall i | i in mine && i != id && i < |s.attempts| :: t.attempts[i] == s.attempts[i]
  }

  ghost predicate Untouched(a: N.Attempt) { !a.confirmed && !a.sent }

  /** Either nothing reached the sink, or what did is confirmed. */
  ghost predicate Settled(a: N.Attempt) { a.confirmed || !a.sent }

  ghost predicate HeldUntil(rows: map<N.Key, N.Row>, k: N.Key, until: Option<int>) { k in rows && rows[k].claim == until }

  /** Every statement of the attempt commits and is acknowledged, and the sink accepts the message. */
  ghost predicate Willing(io: Script) {
    io.markerClaim.Applied? && io.claim.Applied? && io.sends && io.confirm.Applied? && io.markerEnd.Applied?
  }

  /** A claim of the attempt has run out: the one it made on its row, or one it still has on its marker. */
  ghost predicate Expired(c: N.Config, s: N.State, id: nat)
    requires id < |s.attempts|
  {
    var a := s.attempts[id];
    s.now > a.claimedAt + c.ttl || (a.markerUntil.Some? && s.now > a.markerUntil.value)
  }

  ghost predicate AllWilling(io: nat -> Script) { forall n: nat :: Willing(io(n)) }

  /** Whatever failed did so because a claim ran out. */
  ghost predicate Excused(c: N.Config, s: N.State, mine: seq<nat>, failed: set<nat>) {
    forall k | k in failed :: k < |mine| && mine[k] < |s.attempts| && Expired(c, s, mine[k])
  }

  ghost predicate Own(s: N.State, id: nat, mine: set<nat>) {
    id in mine && forall i | i in mine :: i < |s.attempts|
  }

  class Evaluator {
    const table: Table

    constructor (table: Table)
      ensures this.table == table
    {
      this.table := table;
    }

    /** Sends once the row is claimed; confirms, or reverts at once after a failed send. */
    method SendClaimed(id: nat, io: Script, mine: set<nat>, ghost start: N.State) returns (sent: bool)
      requires Leads(table.config, start, table.View()) && Own(table.View(), id, mine)
      requires table.attempts[id].pc.Sending? && Untouched(table.attempts[id])
      modifies table
      ensures Leads(table.config, start, table.View())
      ensures Onward(old(table.View()), table.View(), id, mine)
      ensures table.attempts[id].pc == N.AfterDelivery(table.attempts[id]) && sent == table.attempts[id].confirmed
      ensures table.attempts[id].sent == io.sends
      ensures table.attempts[id].claimedAt == old(table.attempts[id].claimedAt) && table.attempts[id].markerUntil == old(table.attempts[id].markerUntil)
      ensures sent <==> io.sends && io.confirm.Applied? && N.Within(old(table.attempts[id].rowUntil), table.now)
    {
      table.Interfere(io.others(1), mine, start);
      table.Step(N.Send(id, io.sends), start);
      table.Interfere(io.others(2), mine, start);
      var inTime := N.Within(table.attempts[id].rowUntil, table.now);
      if !io.sends {
        table.Step(N.Revert(id, if inTime then io.revert else N.Rejected), start);
        return false;
      }
      table.Step(N.Confirm(id, if inTime then io.confirm else N.Rejected), start);
      sent := table.attempts[id].confirmed;
    }

    /**
     Claim, send, confirm: sent if every one of them succeeds in time, an error if one does not. Neither means that the
     row was debounced, or claimed elsewhere.
     */
    method MaybeNotify(id: nat, io: Script, mine: set<nat>, ghost start: N.State) returns (sent: bool, err: bool)
      requires Leads(table.config, start, table.View()) && Own(table.View(), id, mine)
      requires table.attempts[id].pc.Claiming? && Untouched(table.attempts[id])
      modifies table
      ensures Leads(table.config, start, table.View())
      ensures Onward(old(table.View()), table.View(), id, mine)
      ensures table.attempts[id].pc == N.AfterDelivery(table.attempts[id]) && sent == table.attempts[id].confirmed
      ensures sent ==> !err
      ensures !err ==> Settled(table.attempts[id])
      ensures table.attempts[id].markerUntil == old(table.attempts[id].markerUntil)
      ensures
        var inTime := table.now <= table.attempts[id].claimedAt + table.config.ttl;
        if sent then io.claim.Applied? && io.sends && io.confirm.Applied? && inTime
        else if err then !io.claim.Applied? || !io.sends || !io.confirm.Applied? || !inTime
        else io.claim.Applied? && !N.MayClaim(table.config, table.rows, table.attempts[id].row, table.now)
    {
      table.Interfere(io.others(0), mine, start);
      table.Step(N.Claim(id, io.claim), start);
      if !table.attempts[id].pc.Sending? {
        return false, !io.claim.Applied?;
      }
      sent := SendClaimed(id, io, mine, start);
      err := !sent;
    }

    /** claimRecoveryClear. */
    method ClaimRecoveryClear(id: nat, io: Script, mine: set<nat>, ghost start: N.State) returns (claimed: bool, err: bool)
      requires Leads(table.config, start, table.View()) && Own(table.View(), id, mine)
      requires table.attempts[id].pc.ClaimingMarker? && Untouched(table.attempts[id])
      modifies table
      ensures Leads(table.config, start, table.View())
      ensures Onward(old(table.View()), table.View(), id, mine)
      ensures table.attempts[id].pc == (if claimed then N.Claiming else N.Done) && Untouched(table.attempts[id])
      ensures table.attempts[id].claimedAt == old(table.attempts[id].claimedAt)
      ensures err <==> !io.markerClaim.Applied?
      ensures err ==> !claimed
      ensures !err ==>
        var a := table.attempts[id];
        if claimed then a.markerUntil == Some(table.now + table.config.ttl) && a.marker.Some? && HeldUntil(table.rows, a.marker.value, a.markerUntil)
        else a.marker.Some? ==> !N.MayClaimMarker(table.rows, a.marker.value, table.now)
    {
      table.Interfere(io.others(3), mine, start);
      table.Step(N.ClaimMarker(id, io.markerClaim), start);
      claimed := table.attempts[id].pc.Claiming?;
      err := !claimed && !io.markerClaim.Applied?;
    }

    /** Resets the marker. */
    method ConfirmRecoveryClear(id: nat, io: Script, mine: set<nat>, ghost start: N.State) returns (err: bool)
      requires Leads(table.config, start, table.View()) && Own(table.View(), id, mine)
      requires table.attempts[id].pc.ClearingMarker?
      modifies table
      ensures Leads(table.config, start, table.View())
      ensures Onward(old(table.View()), table.View(), id, mine)
      ensures table.attempts[id].pc.Done? && (Settled(old(table.attempts[id])) ==> Settled(table.attempts[id]))
      ensures table.attempts[id].claimedAt == old(table.attempts[id].claimedAt)
      ensures err <==> !(io.markerEnd.Applied? && N.Within(old(table.attempts[id].markerUntil), table.now))
      ensures err ==> !io.markerEnd.Applied? || table.attempts[id].markerUntil == old(table.attempts[id].markerUntil)
    {
      table.Interfere(io.others(4), mine, start);
      var fate := if N.Within(table.attempts[id].markerUntil, table.now) then io.markerEnd else N.Rejected;
      table.Step(N.ClearMarker(id, fate), start);
      err := !fate.Applied?;
    }

    /** Drops the claim on the marker and leaves the marker alone. */
    method ReleaseRecoveryClaim(id: nat, io: Script, mine: set<nat>, ghost start: N.State)
      requires Leads(table.config, start, table.View()) && Own(table.View(), id, mine)
      requires table.attempts[id].pc.FreeingMarker?
      modifies table
      ensures Leads(table.config, start, table.View())
      ensures Onward(old(table.View()), table.View(), id, mine)
      ensures table.attempts[id].pc.Done? && (Settled(old(table.attempts[id])) ==> Settled(table.attempts[id]))
      ensures table.attempts[id].claimedAt == old(table.attempts[id].claimedAt)
    {
      table.Interfere(io.others(4), mine, start);
      var fate := if N.Within(table.attempts[id].markerUntil, table.now) then io.markerEnd else N.Rejected;
      table.Step(N.FreeMarker(id, fate), start);
    }

    /** One sibling of a recovery rule: the marker is cleared only if the recovery message was sent and confirmed. */
    method Recover(marker: N.Key, row: N.Key, io: Script, mine: set<nat>, ghost start: N.State) returns (id: nat, err: bool)
      requires Leads(table.config, start, table.View()) && forall i | i in mine :: i < |table.attempts|
      requires marker in table.config.markers && row !in table.config.markers
      modifies table
      ensures Leads(table.config, start, table.View())
      ensures Kept(old(table.View()), table.View(), mine) && |old(table.attempts)| <= id < |table.attempts|
      ensures Finished(table.View(), id, Job(Some(marker), row)) && (!err ==> Settled(table.attempts[id]))
      ensures err ==> !Willing(io) || Expired(table.config, table.View(), id)
    {
      id := table.Begin(Some(marker), row, io.others(5), mine, start);
      var all := mine + {id};
      var claimed;
      claimed, err := ClaimRecoveryClear(id, io, all, start);
      if err || !claimed { return; }
      var sent;
      sent, err := MaybeNotify(id, io, all, start);
      if !sent {
        ReleaseRecoveryClaim(id, io, all, start);
        return;
      }
      err := ConfirmRecoveryClear(id, io, all, start);
    }

    /** A plain delivery on `row`. */
    method Notify(row: N.Key, io: Script, mine: set<nat>, ghost start: N.State) returns (id: nat, err: bool)
      requires Leads(table.config, start, table.View()) && forall i | i in mine :: i < |table.attempts|
      modifies table
      ensures Leads(table.config, start, table.View())
      ensures Kept(old(table.View()), table.View(), mine) && |old(table.attempts)| <= id < |table.attempts|
      ensures Finished(table.View(), id, Job(None, row)) && (!err ==> Settled(table.attempts[id]))
      ensures err ==> !Willing(io) || Expired(table.config, table.View(), id)
    {
      id := table.Begin(None, row, io.others(5), mine, start);
      var sent;
      sent, err := MaybeNotify(id, io, mine + {id}, start);
    }

    /** Runs one more attempt and notes whether it failed. */
    method RunJob(job: Job, io: Script, mine0: seq<nat>, failed0: set<nat>, ghost done: seq<Job>, ghost start: N.State)
      returns (mine: seq<nat>, failed: set<nat>)
      requires Leads(table.config, start, table.View()) && Ran(table.View(), mine0, done, failed0)
      requires job.marker.Some? ==> job.marker.value in table.config.markers && job.row !in table.config.markers
      modifies table
      ensures Leads(table.config, start, table.View())
      ensures Ran(table.View(), mine, done + [job], failed)
      ensures Willing(io) && Excused(table.config, old(table.View()), mine0, failed0) ==> Excused(table.config, table.View(), mine, failed)
    {
      ghost var before := table.View();
      assert forall k | 0 <= k < |mine0| :: Finished(before, mine0[k], done[k]);
      var id, err;
      if job.marker.Some? {
        id, err := Recover(job.marker.value, job.row, io, Ids(mine0), start);
      } else {
        id, err := Notify(job.row, io, Ids(mine0), start);
      }
      RanOneMore(table.config, before, table.View(), mine0, done, failed0, id, job, err);
      mine := mine0 + [id];
      failed := if err then failed0 + {|mine0|} else failed0;
    }

    /** The recovery rule `rule`: one recovery for each selected healthDegraded sibling. Errors are collected, never fatal. */
    method EvalHealthRecovered(rules: seq<Rule>, allowed: Option<seq<string>>, res: Report, rule: Rule, io: nat -> Script,
                               mine0: seq<nat>, failed0: set<nat>, ghost jobs: seq<Job>, ghost start: N.State)
      returns (mine: seq<nat>, failed: set<nat>)
      requires Leads(table.config, start, table.View()) && MarkersMatch(table.config, rules, res)
      requires rule in rules && rule.on == "healthRecovered"
      requires Ran(table.View(), mine0, jobs, failed0)
      modifies table
      ensures Leads(table.config, start, table.View())
      ensures Ran(table.View(), mine, jobs + Recoveries(rules, allowed, res, rule), failed)
      ensures AllWilling(io) && Excused(table.config, old(table.View()), mine0, failed0) ==> Excused(table.config, table.View(), mine, failed)
    {
      mine, failed := mine0, failed0;
      assert jobs + Recoveries(rules[..0], allowed, res, rule) == jobs;
      for n := 0 to |rules|
        invariant Leads(table.config, start, table.View())
        invariant Ran(table.View(), mine, jobs + Recoveries(rules[..n], allowed, res, rule), failed)
        invariant AllWilling(io) && Excused(table.config, old(table.View()), mine0, failed0) ==> Excused(table.config, table.View(), mine, failed)
      {
        var sibling := rules[n];
        RecoveriesOneMore(jobs, rules, n, allowed, res, rule);
        if sibling.on != "healthDegraded" { continue; }
        if sibling.name == "" && sibling.forMinutes.None? { continue; }
        if !Selected(allowed, sibling) { continue; }
        ghost var done := jobs + Recoveries(rules[..n], allowed, res, rule);
        mine, failed := RunJob(RecoveryOf(res, sibling, rule), io(n), mine, failed, done, start);
      }
      assert rules[..|rules|] == rules;
    }

    /** One rule: the attempts that its condition calls for. */
    method EvalRule(rules: seq<Rule>, allowed: Option<seq<string>>, res: Report, rule: Rule, now: int, io: nat -> Script,
                    mine0: seq<nat>, failed0: set<nat>, ghost done: seq<Job>, ghost start: N.State)
      returns (mine: seq<nat>, failed: set<nat>)
      requires Leads(table.config, start, table.View()) && MarkersMatch(table.config, rules, res) && rule in rules
      requires Ran(table.View(), mine0, done, failed0)
      modifies table
      ensures Leads(table.config, start, table.View())
      ensures Ran(table.View(), mine, done + JobsOf(rules, allowed, res, rule, now), failed)
      ensures AllWilling(io) && Excused(table.config, old(table.View()), mine0, failed0) ==> Excused(table.config, table.View(), mine, failed)
    {
      mine, failed := mine0, failed0;
      assert done + [] == done;
      if !Selected(allowed, rule) { return; }
      if rule.on == "healthRecovered" {
        if res.health != "Degraded" {
          mine, failed := EvalHealthRecovered(rules, allowed, res, rule, io, mine, failed, done, start);
        }
      } else if Fires(rule, res, now) {
        mine, failed := RunJob(Job(None, RowOf(res, rule)), io(0), mine, failed, done, start);
      }
    }

    /**
     All rules in order; `clock(n)` is the time read for rule `n`. Picks the environment's sink and rules, then runs exactly
     the planned attempts, each to its end.
     */
    method Evaluate(rules: seq<Rule>, environments: map<string, Override>, sinks: set<string>, res: Report, clock: nat -> int, io: nat -> nat -> Script)
      returns (sink: string, mine: seq<nat>, failed: set<nat>)
      requires MarkersMatch(table.config, rules, res)
      modifies table
      ensures Leads(table.config, old(table.View()), table.View())
      ensures sink == SinkFor(environments, sinks, res.env)
      ensures sink == (if res.env in environments && environments[res.env].slack != "" && environments[res.env].slack in sinks
                       then environments[res.env].slack else "default")
      ensures Ran(table.View(), mine, Plan(rules, |rules|, AllowedIn(environments, res.env), res, clock), failed)
      ensures (forall n: nat :: AllWilling(io(n))) ==> Excused(table.config, table.View(), mine, failed)
    {
      sink, mine, failed := DEFAULT_SINK, [], {};
      var allowed := None;
      if res.env in environments {
        var override := environments[res.env];
        if override.slack != "" && override.slack in sinks { sink := override.slack; }
        allowed := override.rules;
      }
      ghost var start := table.View();
      LeadsNowhere(table.config, start);
      for n := 0 to |rules|
        invariant Leads(table.config, start, table.View())
        invariant Ran(table.View(), mine, Plan(rules, n, allowed, res, clock), failed)
        invariant (forall m: nat :: AllWilling(io(m))) ==> Excused(table.config, table.View(), mine, failed)
      {
        mine, failed := EvalRule(rules, allowed, res, rules[n], clock(n), io(n), mine, failed, Plan(rules, n, allowed, res, clock), start);
      }
    }
  }

  // ---------------------------------------------------------------- what an evaluation should run

  const MINUTE: int := 60_000_000_000
  const HOUR: int := 60 * MINUTE

  /** The part of a reconcile result that the rules look at. */
  datatype Report = Report(
    app: string,
    project: string,
    env: string,
    deployFailed: bool,
    status: string,
    statusSince: Option<int>,
    health: string,
    healthSince: Option<int>,
    autoSync: bool)

  /** One attempt: a delivery on `row`, guarded by a recovery of `marker` if there is one. */
  datatype Job = Job(marker: Option<N.Key>, row: N.Key)

  predicate HasKey(r: Rule) {
    r.name == "" ==> (r.on == "healthDegraded" ==> r.forMinutes.Some?) && (r.on == "outOfSyncGated" ==> r.forHours.Some?)
  }

  function RowOf(res: Report, r: Rule): N.Key
    requires HasKey(r)
  {
    N.Key(res.app, res.project, RuleKey(r))
  }

  /** The unit's markers are the rows of its healthDegraded rules, and of no other rule. */
  ghost predicate MarkersMatch(c: N.Config, rules: seq<Rule>, res: Report) {
    forall r | r in rules && HasKey(r) :: RowOf(res, r) in c.markers <==> r.on == "healthDegraded"
  }

  function SinkFor(environments: map<string, Override>, sinks: set<string>, env: string): string {
    if env in environments && environments[env].slack in sinks - {""} then environments[env].slack else DEFAULT_SINK
  }

  function AllowedIn(environments: map<string, Override>, env: string): Option<seq<string>> {
    if env in environments then environments[env].rules else None
  }

  /**
   With a validated notify section the sink exists and is the one asked for, and each rule that the environment names
   selects exactly one rule.
   */
  lemma ValidOverrideIsHonoured(n: Notify, urlOk: string -> bool, environments: map<string, Override>, env: string)
    requires NotifyValid(n, urlOk) && n.rules != [] && env in environments && OverrideValid(environments[env], n)
    ensures
      var (o, sink, allowed) := (environments[env], SinkFor(environments, n.slack.Keys, env), AllowedIn(environments, env));
      && sink in n.slack && n.slack[sink] != "" && (o.slack != "" ==> sink == o.slack)
      && (allowed.Some? ==> forall id | id in allowed.value :: exists i :: OnlyRule(n.rules, i, id) && Selected(allowed, n.rules[i]))
  {
    var allowed := AllowedIn(environments, env);
    if allowed.Some? {
      forall id | id in allowed.value
        ensures exists i :: OnlyRule(n.rules, i, id) && Selected(allowed, n.rules[i])
      {
        var i :| OnlyRule(n.rules, i, id);
      }
    }
  }

  /** `None` means that the environment selects every rule. */
  predicate Selected(allowed: Option<seq<string>>, r: Rule) { allowed.None? || RuleID(r) in allowed.value }

  predicate Lasted(since: Option<int>, atLeast: int, now: int) { since.Some? && now - since.value >= atLeast }

  predicate Fires(r: Rule, res: Report, now: int) {
    || (r.on == "syncFailed" && res.deployFailed)
    || (r.on == "healthDegraded" && res.health == "Degraded" && r.forMinutes.Some? && Lasted(res.healthSince, r.forMinutes.value * MINUTE, now))
    || (r.on == "outOfSyncGated" && res.status == "OutOfSync" && !res.autoSync && r.forHours.Some? && Lasted(res.statusSince, r.forHours.value * HOUR, now))
  }

  function RecoveryOf(res: Report, sibling: Rule, rule: Rule): Job
    requires HasKey(sibling) && HasKey(rule)
  {
    Job(Some(RowOf(res, sibling)), RowOf(res, rule))
  }

  /** The values of `f` on `s`, in order, where it has one. */
  function Collect<T, U>(f: T -> Option<U>, s: seq<T>): seq<U> {
    if s == [] then [] else
      var last := f(s[|s| - 1]);
      Collect(f, s[..|s| - 1]) + if last.Some? then [last.value] else []
  }

  lemma CollectOneMore<T, U>(f: T -> Option<U>, s: seq<T>, n: nat)
    requires n < |s|
    ensures Collect(f, s[..n + 1]) == Collect(f, s[..n]) + if f(s[n]).Some? then [f(s[n]).value] else []
  {
    assert s[..n + 1][..n] == s[..n];
  }

  lemma {:induction false} CollectContents<T, U>(f: T -> Option<U>, s: seq<T>, u: U)
    ensures u in Collect(f, s) <==> exists x | x in s :: f(x) == Some(u)
  {
    if s != [] {
      CollectContents(f, s[..|s| - 1], u);
      assert s == s[..|s| - 1] + [s[|s| - 1]];
    }
  }

  /** The recovery that a rule calls for of a selected healthDegraded sibling. */
  function Recovers(allowed: Option<seq<string>>, res: Report, rule: Rule): Rule -> Option<Job>
    requires HasKey(rule)
  {
    (sibling: Rule) =>
      if sibling.on == "healthDegraded" && HasKey(sibling) && Selected(allowed, sibling) then Some(RecoveryOf(res, sibling, rule)) else None
  }

  function Recoveries(rules: seq<Rule>, allowed: Option<seq<string>>, res: Report, rule: Rule): seq<Job>
    requires HasKey(rule)
  {
    Collect(Recovers(allowed, res, rule), rules)
  }

  lemma RecoveriesOneMore(jobs: seq<Job>, rules: seq<Rule>, n: nat, allowed: Option<seq<string>>, res: Report, rule: Rule)
    requires n < |rules| && HasKey(rule)
    ensures
      var (before, after) := (jobs + Recoveries(rules[..n], allowed, res, rule), jobs + Recoveries(rules[..n + 1], allowed, res, rule));
      after == if rules[n].on == "healthDegraded" && HasKey(rules[n]) && Selected(allowed, rules[n]) then before + [RecoveryOf(res, rules[n], rule)] else before
  {
    CollectOneMore(Recovers(allowed, res, rule), rules, n);
  }

  function JobsOf(rules: seq<Rule>, allowed: Option<seq<string>>, res: Report, r: Rule, now: int): seq<Job> {
    if !Selected(allowed, r) then []
    else if r.on == "healthRecovered" then if res.health == "Degraded" then [] else Recoveries(rules, allowed, res, r)
    else if Fires(r, res, now) then [Job(None, RowOf(res, r))] else []
  }

  function Concat<T>(part: nat -> seq<T>, n: nat): seq<T> {
    if n == 0 then [] else Concat(part, n - 1) + part(n - 1)
  }

  function JobsAt(rules: seq<Rule>, allowed: Option<seq<string>>, res: Report, clock: nat -> int): nat -> seq<Job> {
    (n: nat) => if n < |rules| then JobsOf(rules, allowed, res, rules[n], clock(n)) else []
  }

  /** The attempts of the first `n` rules, in order. */
  function Plan(rules: seq<Rule>, n: nat, allowed: Option<seq<string>>, res: Report, clock: nat -> int): seq<Job> {
    Concat(JobsAt(rules, allowed, res, clock), n)
  }

  function Ids(mine: seq<nat>): set<nat> { set i | i in mine }

  /** The attempts `mine` carried out `jobs`, in order and to the end; those not in `failed` left no unconfirmed message. */
  ghost predicate Ran(s: N.State, mine: seq<nat>, jobs: seq<Job>, failed: set<nat>) {
    && |mine| == |jobs|
    && (forall k | 0 <= k < |mine| :: Finished(s, mine[k], jobs[k]) && (k in failed || Settled(s.attempts[mine[k]])))
    && (forall j, k | 0 <= j < k < |mine| :: mine[j] < mine[k])
  }

  lemma RanOneMore(c: N.Config, s: N.State, t: N.State, mine: seq<nat>, jobs: seq<Job>, failed: set<nat>, id: nat, job: Job, err: bool)
    requires Ran(s, mine, jobs, failed) && Kept(s, t, Ids(mine))
    requires |s.attempts| <= id && Finished(t, id, job) && (err || Settled(t.attempts[id]))
    ensures Ran(t, mine + [id], jobs + [job], if err then failed + {|mine|} else failed)
    ensures Excused(c, s, mine, failed) && (err ==> Expired(c, t, id)) ==> Excused(c, t, mine + [id], if err then failed + {|mine|} else failed)
  {
    forall k | 0 <= k < |mine| ensures t.attempts[mine[k]] == s.attempts[mine[k]] {
      assert Finished(s, mine[k], jobs[k]) && mine[k] in Ids(mine);
    }
  }

  /** Attempt `id` carried out `job` and has come to its end. */
  ghost predicate Finished(s: N.State, id: nat, job: Job) {
    id < |s.attempts| && s.attempts[id].pc.Done? && s.attempts[id].marker == job.marker && s.attempts[id].row == job.row
  }

  /** The environment names the rule, by its name or else by its kind, or names no rules at all. */
  ghost predicate Asked(allowed: Option<seq<string>>, r: Rule) {
    allowed.Some? ==> exists id | id in allowed.value :: id == if r.name == "" then r.on else r.name
  }

  /** The unit's debounce row for a rule: the rule's name, or its kind and threshold. */
  ghost predicate KeyedBy(res: Report, r: Rule, key: N.Key) {
    && key.app == res.app && key.project == res.project
    && if r.name != "" then key.rule == r.name
       else if r.on == "healthDegraded" then r.forMinutes.Some? && key.rule == "healthDegraded" + ":" + Number(r.forMinutes.value)
       else if r.on == "outOfSyncGated" then r.forHours.Some? && key.rule == "outOfSyncGated" + ":" + Number(r.forHours.value)
       else key.rule == r.on
  }

  /** Rule `r` calls for `job` at time `now`, kind by kind; thresholds are minutes and hours in nanoseconds. */
  ghost predicate CallsFor(rules: seq<Rule>, allowed: Option<seq<string>>, res: Report, r: Rule, now: int, job: Job) {
    && Asked(allowed, r) && KeyedBy(res, r, job.row)
    && match r.on
       case "syncFailed" => job.marker.None? && res.deployFailed
       case "healthDegraded" =>
         && job.marker.None? && res.health == "Degraded" && res.healthSince.Some? && r.forMinutes.Some?
         && res.healthSince.value + 60_000_000_000 * r.forMinutes.value <= now
       case "outOfSyncGated" =>
         && job.marker.None? && res.status == "OutOfSync" && !res.autoSync && res.statusSince.Some? && r.forHours.Some?
         && res.statusSince.value + 3_600_000_000_000 * r.forHours.value <= now
       case "healthRecovered" =>
         && res.health != "Degraded"
         && exists q | q in rules :: q.on == "healthDegraded" && Asked(allowed, q) && job.marker.Some? && KeyedBy(res, q, job.marker.value)
       case _ => false
  }

  lemma RowIsKeyed(allowed: Option<seq<string>>, res: Report, r: Rule)
    ensures Asked(allowed, r) <==> Selected(allowed, r)
    ensures forall key :: KeyedBy(res, r, key) <==> HasKey(r) && key == RowOf(res, r)
  {
  }

  lemma RecoveriesExact(rules: seq<Rule>, allowed: Option<seq<string>>, res: Report, rule: Rule, job: Job)
    requires HasKey(rule)
    ensures job in Recoveries(rules, allowed, res, rule) <==>
      exists q | q in rules :: q.on == "healthDegraded" && HasKey(q) && Selected(allowed, q) && job == RecoveryOf(res, q, rule)
  {
    CollectContents(Recovers(allowed, res, rule), rules, job);
  }

  lemma JobsExact(rules: seq<Rule>, allowed: Option<seq<string>>, res: Report, r: Rule, now: int, job: Job)
    ensures job in JobsOf(rules, allowed, res, r, now) <==> CallsFor(rules, allowed, res, r, now, job)
  {
    forall q ensures Asked(allowed, q) <==> Selected(allowed, q) { RowIsKeyed(allowed, res, q); }
    forall q, key ensures KeyedBy(res, q, key) <==> HasKey(q) && key == RowOf(res, q) { RowIsKeyed(allowed, res, q); }
    if r.on == "healthRecovered" { RecoveriesExact(rules, allowed, res, r, job); }
  }

  lemma {:induction false} ConcatContents<T>(part: nat -> seq<T>, n: nat, x: T)
    ensures x in Concat(part, n) <==> exists k: nat :: k < n && x in part(k)
  {
    if n > 0 {
      ConcatContents(part, n - 1, x);
    }
  }

  /** The plan for the first `n` rules holds exactly what those rules call for, and is the beginning of the whole. */
  lemma PlanExact(rules: seq<Rule>, n: nat, allowed: Option<seq<string>>, res: Report, clock: nat -> int, job: Job)
    requires n <= |rules|
    ensures job in Plan(rules, n, allowed, res, clock) <==> exists k: nat :: k < n && CallsFor(rules, allowed, res, rules[k], clock(k), job)
    ensures Plan(rules, n, allowed, res, clock) <= Plan(rules, |rules|, allowed, res, clock)
  {
    var part := JobsAt(rules, allowed, res, clock);
    ConcatContents(part, n, job);
    ConcatGrows(part, n, |rules|);
    forall k: nat | k < n ensures job in part(k) <==> CallsFor(rules, allowed, res, rules[k], clock(k), job) {
      JobsExact(rules, allowed, res, rules[k], clock(k), job);
    }
  }

  lemma {:induction false} ConcatGrows<T>(part: nat -> seq<T>, m: nat, n: nat)
    requires m <= n
    ensures Concat(part, m) <= Concat(part, n)
  {
    if m < n { ConcatGrows(part, m, n - 1); }
  }

  lemma {:induction false} CollectIsShort<T, U>(f: T -> Option<U>, s: seq<T>)
    ensures |Collect(f, s)| <= |s|
  {
    if s != [] { CollectIsShort(f, s[..|s| - 1]); }
  }

  /** A rule is planned at most once, a recovery rule at most once for each rule. */
  lemma PlannedOnce(rules: seq<Rule>, n: nat, allowed: Option<seq<string>>, res: Report, clock: nat -> int)
    requires n < |rules|
    ensures |Plan(rules, n + 1, allowed, res, clock)| <= |Plan(rules, n, allowed, res, clock)| + if rules[n].on == "healthRecovered" then |rules| else 1
  {
    var jobs := JobsOf(rules, allowed, res, rules[n], clock(n));
    assert Plan(rules, n + 1, allowed, res, clock) == Plan(rules, n, allowed, res, clock) + jobs;
    if rules[n].on == "healthRecovered" { CollectIsShort(Recovers(allowed, res, rules[n]), rules); }
  }

  /** Rules with pairwise distinct keys keep markers and deliveries on separate rows. */
  lemma DistinctKeysSeparateMarkers(c: N.Config, rules: seq<Rule>, res: Report)
    requires forall q, r | q in rules && r in rules && q != r && HasKey(q) && HasKey(r) :: RuleKey(q) != RuleKey(r)
    requires c.markers == set r | r in rules && HasKey(r) && r.on == "healthDegraded" :: RowOf(res, r)
    ensures MarkersMatch(c, rules, res)
  {
  }

  /**
   Why keys must differ: a recovery whose own row is also the marker finds that row claimed by itself, so its delivery
   is refused while the claim lasts, no message is sent, and the marker stays as it was. `N.Start` refuses such an attempt,
   so this is about what the statements do in whatever state one is, and not about the machine's runs.
   */
  lemma SharedRowBlocksRecovery(c: N.Config, s: N.State, id: nat, later: N.State, fate: N.Fate)
    requires N.Sane(c) && N.At(s, id, N.ClaimingMarker) && s.attempts[id].marker == Some(s.attempts[id].row) && Untouched(s.attempts[id])
    requires
      var claimed := N.Apply(c, s, N.ClaimMarker(id, N.Applied));
      && claimed.attempts[id].pc.Claiming?
      && id < |later.attempts| && later.attempts[id] == claimed.attempts[id]
      && s.now <= later.now <= s.now + c.ttl
      && s.attempts[id].row in later.rows && later.rows[s.attempts[id].row] == claimed.rows[s.attempts[id].row]
    ensures N.Enabled(c, later, N.Claim(id, fate))
    ensures
      var t := N.Apply(c, later, N.Claim(id, fate));
      && t.attempts[id].pc.FreeingMarker? && Untouched(t.attempts[id])
      && t.rows == later.rows && t.log == later.log
  {
  }

  /** And configuration can bring that about: the rules accepted with one key give the recovery its own marker as row. */
  lemma AcceptedRulesCanShareRow(res: Report) returns (degraded: Rule, recovered: Rule, job: Job)
    ensures Valid(degraded) && Valid(recovered)
    ensures HasKey(recovered) && job in Recoveries([degraded, recovered], None, res, recovered) && job.marker == Some(job.row)
  {
    degraded, recovered := ValidRulesMayShareRow();
    job := RecoveryOf(res, degraded, recovered);
    assert degraded in [degraded, recovered];
    RecoveriesExact([degraded, recovered], None, res, recovered, job);
  }
}
