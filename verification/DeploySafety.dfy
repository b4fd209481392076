/** What the deploy protocol guarantees in every run, and what it does not. */
module DeploySafety {
  import opened Wrappers
  import opened DeployProtocol
  import Applications

  /** A deploy request that may still take effect, of an attempt that has not dropped its lock. */
  predicate InsideDeploy(s: State, id: nat) {
    id < |s.attempts| && s.attempts[id].calling && s.now <= s.attempts[id].deadline && DroppedLock !in s.attempts[id].stamps
  }

  /** Being in the call, or having crashed in it, before the deadline, is being inside the deploy. */
  lemma CallingIsInside(s: State, id: nat)
    requires Reachable(s) && id < |s.attempts| && s.now <= s.attempts[id].deadline
    requires s.attempts[id].pc.Deploying? || (s.attempts[id].pc.Crashed? && s.attempts[id].calling && s.attempts[id].returned.None?)
    ensures InsideDeploy(s, id)
  {
    ReachableInv(s);
    assert Local(s.attempts[id]);
  }

  /** At most one attempt per unit is inside its deploy call, in every interleaving. */
  lemma DeployMutualExclusion(s: State, a: nat, b: nat)
    requires Reachable(s) && InsideDeploy(s, a) && InsideDeploy(s, b)
    requires s.attempts[a].unit == s.attempts[b].unit
    ensures a == b
  {
    ReachableInv(s);
    AtMostOneHolder(s, a, b);
  }

  /** The whole section from lock to release is exclusive while the attempt's context is alive. */
  lemma AtMostOneHolder(s: State, a: nat, b: nat)
    requires Inv(s) && a < |s.attempts| && b < |s.attempts| && s.attempts[a].unit == s.attempts[b].unit
    requires Holding(s, s.attempts[a]) && Holding(s, s.attempts[b])
    ensures a == b
  {
    var x, y := s.attempts[a], s.attempts[b];
    assert Local(x) && Local(y);
    assert a != b ==> Ids(s, a, b) && Ids(s, b, a);
    assert a != b && x.stamps[TookLock] < y.stamps[TookLock] ==> Superseded(s, x, y);
    assert a != b && y.stamps[TookLock] < x.stamps[TookLock] ==> Superseded(s, y, x);
    assert s.log[x.stamps[TookLock]] == LogEntry(a, TookLock) && s.log[y.stamps[TookLock]] == LogEntry(b, TookLock);
  }

  /** A release, however late, never removes the row of an attempt that is still inside. */
  lemma LateReleaseIsHarmless(s: State, late: nat, holder: nat, fate: Fate)
    requires Reachable(s) && Enabled(s, Release(late, fate)) && holder < |s.attempts| && late != holder
    requires Holding(s, s.attempts[holder]) && s.attempts[late].unit == s.attempts[holder].unit
    ensures Apply(s, Release(late, fate)).locks == s.locks
    ensures var u := s.attempts[holder].unit; u in s.locks && s.locks[u].holder == s.attempts[holder].token
  {
    ReachableInv(s);
    assert Ids(s, holder, late);
  }

  /**
   Every deploy call has exactly one audit row; it was inserted first, after the applications row
   existed, and carries the digest that the call deploys.
   */
  lemma EveryCallIsAudited(s: State, id: nat) returns (e: nat)
    requires Reachable(s) && id < |s.attempts| && CalledDeploy in s.attempts[id].stamps
    ensures e < |s.events| && s.events[e].owner == id && forall f | 0 <= f < |s.events| && s.events[f].owner == id :: f == e
    ensures s.events[e].unit == s.attempts[id].unit && s.events[e].toImage == s.attempts[id].digest
    ensures var st := s.attempts[id].stamps;
            WroteRow in st && WroteEvent in st && st[WroteRow] < st[WroteEvent] < st[CalledDeploy] < |s.log|
    ensures s.attempts[id].unit in s.apps
    ensures forall p | 0 <= p < |s.log| && s.log[p] == LogEntry(id, CalledDeploy) :: p == s.attempts[id].stamps[CalledDeploy]
  {
    ReachableInv(s);
    assert Local(s.attempts[id]);
    e := s.attempts[id].event.value;
    assert EventOf(s, e);
    forall f | 0 <= f < |s.events| && s.events[f].owner == id ensures f == e {
      assert EventOf(s, f);
    }
  }

  /** A closed row tells the truth about the call, and the row closes after the call returned. */
  lemma ClosedRowsAreTruthful(s: State, e: nat)
    requires Reachable(s) && e < |s.events|
    ensures s.events[e].owner < |s.attempts|
    ensures s.events[e].result.Succeeded? ==>
              s.attempts[s.events[e].owner].returned == Some(true) && Landed in s.attempts[s.events[e].owner].stamps
    ensures s.events[e].result.Failed? ==> s.attempts[s.events[e].owner].returned == Some(false)
    ensures !s.events[e].result.InProgress? <==> ClosedEvent in s.attempts[s.events[e].owner].stamps
    ensures !s.events[e].result.InProgress? ==>
              var st := s.attempts[s.events[e].owner].stamps;
              DeployReturned in st && CalledDeploy in st && st[CalledDeploy] < st[DeployReturned] < st[ClosedEvent]
  {
    ReachableInv(s);
    assert EventOf(s, e);
    assert Local(s.attempts[s.events[e].owner]);
  }

  lemma EventsOnlyGrow(s: State, act: Action)
    requires Enabled(s, act) && !act.Close?
    ensures s.events <= Apply(s, act).events
  {
  }

  /** One step: only the owner's closing step changes a row, only its result, and only away from in_progress. */
  lemma RowChangesOnlyOnClose(s: State, act: Action, e: nat)
    requires Inv(s) && Enabled(s, act) && e < |s.events|
    ensures e < |Apply(s, act).events|
    ensures Apply(s, act).events[e] != s.events[e] ==>
              s.events[e].result.InProgress? && act.Close? && act.id == s.events[e].owner
              && Apply(s, act).events[e] == s.events[e].(result := Apply(s, act).events[e].result)
  {
    if act.Close? {
      assert EventOf(s, e) && Local(s.attempts[act.id]);
    } else {
      EventsOnlyGrow(s, act);
    }
  }

  /** A row leaves in_progress at most once: once closed it is the same row for ever. */
  lemma {:induction false} ClosedRowIsFinal(s: State, acts: seq<Action>, e: nat)
    requires Inv(s) && CanRun(s, acts) && e < |s.events| && !s.events[e].result.InProgress?
    ensures e < |Run(s, acts).events| && Run(s, acts).events[e] == s.events[e]
    decreases |acts|
  {
    if acts != [] {
      StepKeepsInv(s, acts[0]);
      RowChangesOnlyOnClose(s, acts[0], e);
      ClosedRowIsFinal(Apply(s, acts[0]), acts[1..], e);
    }
  }

  /**
   For one unit, deploys that take effect before their attempts drop the lock do so in the order of their audit rows: the
   first deploy is over before the second attempt even inserts its row.
   */
  lemma DeployOrderIsRowOrder(s: State, a: nat, b: nat)
    requires Reachable(s) && a < |s.attempts| && b < |s.attempts| && a != b && s.attempts[a].unit == s.attempts[b].unit
    requires LandedInside(s.attempts[a]) && LandedInside(s.attempts[b])
    ensures s.attempts[a].event.Some? && s.attempts[b].event.Some?
    ensures WroteEvent in s.attempts[a].stamps && WroteEvent in s.attempts[b].stamps
    ensures s.attempts[a].stamps[Landed] < s.attempts[b].stamps[Landed] <==> s.attempts[a].event.value < s.attempts[b].event.value
    ensures s.attempts[a].stamps[Landed] < s.attempts[b].stamps[Landed] <==> s.attempts[a].stamps[Landed] < s.attempts[b].stamps[WroteEvent]
  {
    ReachableInv(s);
    var x, y := s.attempts[a], s.attempts[b];
    assert Local(x) && Local(y);
    assert Ids(s, a, b) && Ids(s, b, a);
    assert x.stamps[TookLock] < y.stamps[TookLock] ==> Superseded(s, x, y);
    assert y.stamps[TookLock] < x.stamps[TookLock] ==> Superseded(s, y, x);
    assert s.log[x.stamps[TookLock]] == LogEntry(a, TookLock) && s.log[y.stamps[TookLock]] == LogEntry(b, TookLock);
  }

  /** Every deploy that returned success is one of those. */
  lemma SuccessLandsInside(s: State, id: nat)
    requires Reachable(s) && id < |s.attempts| && s.attempts[id].returned == Some(true)
    ensures LandedInside(s.attempts[id])
  {
    ReachableInv(s);
    assert Local(s.attempts[id]);
  }

  /** An attempt that lost the lock left nothing behind: no applications row, no audit row, nothing. */
  lemma LoserLeavesNoTrace(s: State, id: nat)
    requires Reachable(s) && id < |s.attempts| && s.attempts[id].pc.Lost?
    ensures forall p | 0 <= p < |s.log| :: s.log[p].who != id
    ensures forall e | 0 <= e < |s.events| :: s.events[e].owner != id
    ensures forall act | Enabled(s, act) :: Who(act) != Some(id)
  {
    ReachableInv(s);
    assert Local(s.attempts[id]);
    forall e | 0 <= e < |s.events| ensures s.events[e].owner != id {
      assert EventOf(s, e);
    }
  }

  /** The applications table changes only by a statement of an attempt on that unit, which did not lose, and which is logged. */
  lemma ApplicationsWritesAreOwned(s: State, act: Action, unit: Unit)
    requires Enabled(s, act)
    ensures
      var t := Apply(s, act);
      (unit in s.apps ==> unit in t.apps) && (unit in t.apps && (unit !in s.apps || t.apps[unit] != s.apps[unit]) ==>
        && Who(act).Some? && Who(act).value < |s.attempts|
        && s.attempts[Who(act).value].unit == unit && !s.attempts[Who(act).value].pc.Lost?
        && exists kind :: (kind == WroteRow || kind == WroteFinal) && t.log == s.log + [LogEntry(Who(act).value, kind)])
  {
    if act.Upsert? && !act.fate.Rejected? {
      assert Apply(s, act).log == s.log + [LogEntry(act.id, WroteRow)];
    } else if act.Final? && !act.fate.Rejected? {
      assert Apply(s, act).log == s.log + [LogEntry(act.id, WroteFinal)];
    }
  }

  /** The lock statement claims the row exactly if there is none or it has expired, and then for one lock TTL in the attempt's own name. */
  lemma ClaimIsExact(s: State, id: nat, at: int, fate: Fate)
    requires Enabled(s, Acquire(id, at, fate)) && !fate.Rejected?
    ensures
      var (a, t) := (s.attempts[id], Apply(s, Acquire(id, at, fate)));
      var free := a.unit in s.locks ==> s.locks[a.unit].expiresAt < at;
      && t.locks == (if free then s.locks[a.unit := Lock(a.token, at + 120_000_000_000)] else s.locks)
      && (fate.Applied? ==> t.attempts[id].pc == if free then Upserting else Lost)
  {
  }

  /** A release that commits removes the attempt's own row, and nobody else's. */
  lemma ReleaseIsExact(s: State, id: nat, fate: Fate)
    requires Enabled(s, Release(id, fate))
    ensures
      var (a, t) := (s.attempts[id], Apply(s, Release(id, fate)));
      t.locks == if !fate.Rejected? && a.unit in s.locks && s.locks[a.unit].holder == a.token then s.locks - {a.unit} else s.locks
  {
  }

  ghost predicate LocksBounded(s: State) {
    forall u | u in s.locks :: s.locks[u].expiresAt <= s.now + LOCK_TTL
  }

  lemma {:induction false} RunKeepsLocksBounded(s: State, acts: seq<Action>)
    requires LocksBounded(s) && CanRun(s, acts)
    ensures LocksBounded(Run(s, acts))
    decreases |acts|
  {
    if acts != [] {
      RunKeepsLocksBounded(Apply(s, acts[0]), acts[1..]);
    }
  }

  /** A crashed holder cannot block the unit: once the TTL has passed, any attempt can claim the row. */
  lemma StuckLockIsReclaimable(s: State, unit: Unit, token: string, at: int)
    requires Reachable(s) && s.now + 120_000_000_000 < at
    ensures AcquireLock(s.locks, unit, token, at) == (s.locks[unit := Lock(token, at + 120_000_000_000)], true)
  {
    var now, apps, acts :| CanRun(Init(now, apps), acts) && Run(Init(now, apps), acts) == s;
    RunKeepsLocksBounded(Init(now, apps), acts);
  }

  // ---------------------------------------------------------------- what the protocol does not promise

  /** The steps of one attempt; without `ok`, deploy returns an error before its request has taken effect. */
  function Section(unit: Unit, token: string, digest: string, w: Applications.Write, id: nat, now: int, ok: bool): seq<Action> {
    [Start(unit, token, digest), Acquire(id, now, Applied), Upsert(id, w, Applied), Insert(id, Applied),
     Call(id), if ok then Land(id) else Tick(now), Return(id, ok), Close(id, Applied), Release(id, Applied)]
  }

  /** Where an undisturbed attempt `id` that began in `s` stands after `i` of its steps. */
  ghost predicate SectionAt(s: State, t: State, id: nat, unit: Unit, token: string, ok: bool, i: nat)
    requires id == |s.attempts|
  {
    && t.now == s.now && |s.log| <= |t.log|
    && if i == 0 then t == s && unit !in s.locks && forall j | 0 <= j < |s.attempts| :: s.attempts[j].token != token
       else
         && |t.attempts| == id + 1 && t.attempts[..id] == s.attempts
         && var a := t.attempts[id];
         && a.unit == unit && a.token == token && a.deadline == t.now + LOCK_TTL && WroteFinal !in a.stamps
         && (if 2 <= i <= 8 then unit in t.locks && t.locks[unit].holder == token else unit !in t.locks)
         && a.pc == (match i
              case 1 => Locking
              case 2 => Upserting
              case 3 => Inserting
              case 4 => Calling
              case 5 => Deploying
              case 6 => Deploying
              case 7 => Closing(ok)
              case 8 => Releasing
              case _ => Finishing)
         && (i >= 3 ==> unit in t.apps)
         && (i >= 4 ==> a.event == Some(|s.events|)) && |t.events| == |s.events| + (if i >= 4 then 1 else 0)
         && (i == 5 || i == 6 || (5 <= i && !ok) ==> a.calling)
         && (i <= 5 || !ok <==> Landed !in a.stamps)
         && (Landed in a.stamps ==> |s.log| <= a.stamps[Landed] < |t.log|)
  }

  lemma SectionTakesLock(s: State, t: State, id: nat, unit: Unit, token: string, digest: string, w: Applications.Write, ok: bool, i: nat)
    requires id == |s.attempts| && 0 <= i < 2 && SectionAt(s, t, id, unit, token, ok, i)
    ensures var act := Section(unit, token, digest, w, id, s.now, ok)[i];
            Enabled(t, act) && SectionAt(s, Apply(t, act), id, unit, token, ok, i + 1)
  {
  }

  lemma SectionWritesRows(s: State, t: State, id: nat, unit: Unit, token: string, digest: string, w: Applications.Write, ok: bool, i: nat)
    requires id == |s.attempts| && 2 <= i < 4 && SectionAt(s, t, id, unit, token, ok, i)
    ensures var act := Section(unit, token, digest, w, id, s.now, ok)[i];
            Enabled(t, act) && SectionAt(s, Apply(t, act), id, unit, token, ok, i + 1)
  {
  }

  lemma SectionDeploys(s: State, t: State, id: nat, unit: Unit, token: string, digest: string, w: Applications.Write, ok: bool, i: nat)
    requires id == |s.attempts| && 4 <= i < 7 && SectionAt(s, t, id, unit, token, ok, i)
    ensures var act := Section(unit, token, digest, w, id, s.now, ok)[i];
            Enabled(t, act) && SectionAt(s, Apply(t, act), id, unit, token, ok, i + 1)
  {
  }

  lemma SectionEnds(s: State, t: State, id: nat, unit: Unit, token: string, digest: string, w: Applications.Write, ok: bool, i: nat)
    requires id == |s.attempts| && 7 <= i < 9 && SectionAt(s, t, id, unit, token, ok, i)
    ensures var act := Section(unit, token, digest, w, id, s.now, ok)[i];
            Enabled(t, act) && SectionAt(s, Apply(t, act), id, unit, token, ok, i + 1)
  {
  }

  /** The first `n` steps of an undisturbed attempt: every statement commits. */
  lemma SmoothSection(s0: State, before: seq<Action>, unit: Unit, token: string, digest: string, w: Applications.Write, ok: bool, n: nat)
    returns (acts: seq<Action>)
    requires CanRun(s0, before) && SectionAt(Run(s0, before), Run(s0, before), |Run(s0, before).attempts|, unit, token, ok, 0) && n <= 9
    ensures CanRun(s0, acts) && SectionAt(Run(s0, before), Run(s0, acts), |Run(s0, before).attempts|, unit, token, ok, n)
  {
    var s := Run(s0, before);
    var id := |s.attempts|;
    var section := Section(unit, token, digest, w, id, s.now, ok);
    acts := before;
    for i := 0 to n
      invariant CanRun(s0, acts) && SectionAt(s, Run(s0, acts), id, unit, token, ok, i)
    {
      var t := Run(s0, acts);
      if i < 2 { SectionTakesLock(s, t, id, unit, token, digest, w, ok, i); }
      else if i < 4 { SectionWritesRows(s, t, id, unit, token, digest, w, ok, i); }
      else if i < 7 { SectionDeploys(s, t, id, unit, token, digest, w, ok, i); }
      else { SectionEnds(s, t, id, unit, token, digest, w, ok, i); }
      RunSnoc(s0, acts, section[i]);
      acts := acts + [section[i]];
    }
  }

  lemma TwoSections(s0: State, unit: Unit, w1: Applications.Write, w2: Applications.Write) returns (acts: seq<Action>)
    requires s0 == Init(0, map[])
    ensures CanRun(s0, acts)
    ensures
      var t := Run(s0, acts);
      && |t.attempts| == 2 && t.attempts[0].unit == t.attempts[1].unit == unit
      && t.attempts[0].pc.Finishing? && t.attempts[1].pc.Finishing?
      && Landed in t.attempts[0].stamps && Landed in t.attempts[1].stamps
      && t.attempts[0].stamps[Landed] < t.attempts[1].stamps[Landed]
  {
    acts := SmoothSection(s0, [], unit, "1", "d1", w1, true, 9);
    acts := SmoothSection(s0, acts, unit, "2", "d2", w2, true, 9);
    var t := Run(s0, acts);
    assert t.attempts[0] == t.attempts[..1][0];
  }

  /**
   The last write to the applications row happens after the lock is gone, so it need not come from
   the last deploy: here `first` deploys before `second` but its final write lands last.
   */
  lemma FinalWritesMayBeReordered(unit: Unit, w1: Applications.Write, w2: Applications.Write)
    ensures exists s | Reachable(s) ::
              |s.attempts| == 2 && s.attempts[0].unit == s.attempts[1].unit == unit
              && Landed in s.attempts[0].stamps && Landed in s.attempts[1].stamps
              && WroteFinal in s.attempts[0].stamps && WroteFinal in s.attempts[1].stamps
              && s.attempts[0].stamps[Landed] < s.attempts[1].stamps[Landed]
              && s.attempts[1].stamps[WroteFinal] < s.attempts[0].stamps[WroteFinal]
              && unit in s.apps && s.apps[unit].status == w1.status
  {
    var s0 := Init(0, map[]);
    var acts := TwoSections(s0, unit, w1, w2);
    RunSnoc(s0, acts, Final(1, w2, Applied));
    RunSnoc(s0, acts + [Final(1, w2, Applied)], Final(0, w1, Applied));
    var s := Run(s0, acts + [Final(1, w2, Applied)] + [Final(0, w1, Applied)]);
    assert Reachable(s);
  }

  // ---------------------------------------------------------------- when final writes do keep the order of deploys

  /** Past its final write, or never to make one. */
  predicate WritesNoMore(a: Attempt) { !InSection(a) && !a.pc.Finishing? }

  ghost predicate BothWroteFinal(s: State, a: nat, b: nat) {
    a < |s.attempts| && b < |s.attempts| && WroteFinal in s.attempts[a].stamps && WroteFinal in s.attempts[b].stamps
  }

  ghost predicate FinalsInOrder(s: State, a: nat, b: nat)
    requires BothWroteFinal(s, a, b)
  {
    s.attempts[a].stamps[WroteFinal] < s.attempts[b].stamps[WroteFinal]
  }

  /** `done` is over and as it was. */
  ghost predicate Rests(s: State, done: nat, was: Attempt) {
    done < |s.attempts| && s.attempts[done] == was && (was.pc.Done? || was.pc.Crashed?) && Landed in was.stamps
  }

  /** `late` has made no final write among the first `n` log entries. */
  ghost predicate WritesLater(s: State, late: nat, n: nat) {
    late < |s.attempts| && n <= |s.log| && (WroteFinal in s.attempts[late].stamps ==> n <= s.attempts[late].stamps[WroteFinal])
  }

  ghost predicate Overtakes(s: State, done: nat, was: Attempt, late: nat, n: nat) {
    Rests(s, done, was) && WritesLater(s, late, n)
  }

  lemma StepRests(s: State, act: Action, done: nat, was: Attempt)
    requires Enabled(s, act) && Rests(s, done, was)
    ensures Rests(Apply(s, act), done, was)
  {
  }

  lemma StepWritesLater(s: State, act: Action, late: nat, n: nat)
    requires Enabled(s, act) && WritesLater(s, late, n)
    ensures WritesLater(Apply(s, act), late, n)
  {
    LogOnlyGrows(s, act);
    if Who(act) == Some(late) {
      OwnStepStampsAtEnd(s, act, late);
    } else {
      StepKeepsOthers(s, act, late);
    }
  }

  lemma LogOnlyGrows(s: State, act: Action)
    requires Enabled(s, act)
    ensures s.log <= Apply(s, act).log
  {
  }

  /** A stamp is never moved, and a new one points to the end of the log. */
  lemma OwnStepStampsAtEnd(s: State, act: Action, id: nat)
    requires Enabled(s, act) && Who(act) == Some(id) && id < |s.attempts|
    ensures
      var (before, after) := (s.attempts[id].stamps, Apply(s, act).attempts[id].stamps);
      WroteFinal in after ==> after[WroteFinal] == |s.log| || (WroteFinal in before && after[WroteFinal] == before[WroteFinal])
  {
  }

  /** A finished attempt stays as it is, and any final write still to come stands later in the log. */
  lemma {:induction false} RunOvertakes(s: State, acts: seq<Action>, done: nat, was: Attempt, late: nat, n: nat)
    requires CanRun(s, acts) && Overtakes(s, done, was, late, n)
    ensures Overtakes(Run(s, acts), done, was, late, n)
    decreases |acts|
  {
    if acts != [] {
      StepRests(s, acts[0], done, was);
      StepWritesLater(s, acts[0], late, n);
      RunOvertakes(Apply(s, acts[0]), acts[1..], done, was, late, n);
    }
  }

  /** Only attempt `id` moved, the log grew, and its last entry is the attempt's final write. */
  ghost predicate WroteLast(s: State, t: State, id: nat) {
    && Moves(s, t, id)
    && WroteFinal in t.attempts[id].stamps && |s.log| <= t.attempts[id].stamps[WroteFinal] < |t.log|
    && (Landed in s.attempts[id].stamps ==> Landed in t.attempts[id].stamps)
  }

  /** How many steps of its own an attempt that has its audit row is away from its final write. */
  function StepsLeft(a: Attempt): nat
    requires a.pc.Calling? || a.pc.Deploying? || a.pc.Closing? || a.pc.Releasing? || a.pc.Finishing?
  {
    match a.pc case Calling => 5 case Deploying => 4 case Closing(_) => 3 case Releasing => 2 case _ => 1
  }

  /** The next of those steps; a deploy that has not taken effect may return an error. */
  function NextStep(a: Attempt, id: nat, w: Applications.Write): Action
    requires a.pc.Calling? || a.pc.Deploying? || a.pc.Closing? || a.pc.Releasing? || a.pc.Finishing?
  {
    match a.pc
    case Calling => Call(id)
    case Deploying => Return(id, false)
    case Closing(_) => Close(id, Applied)
    case Releasing => Release(id, Applied)
    case _ => Final(id, w, Applied)
  }

  lemma NextStepGetsCloser(s: State, id: nat, w: Applications.Write)
    requires id < |s.attempts|
    requires var pc := s.attempts[id].pc; pc.Calling? || pc.Deploying? || pc.Closing? || pc.Releasing?
    ensures
      var act := NextStep(s.attempts[id], id, w);
      && Enabled(s, act)
      && var t := Apply(s, act);
      && Moves(s, t, id) && |s.log| <= |t.log|
      && (Landed in s.attempts[id].stamps ==> Landed in t.attempts[id].stamps)
      && var pc := t.attempts[id].pc;
      && (pc.Deploying? || pc.Closing? || pc.Releasing? || pc.Finishing?)
      && StepsLeft(t.attempts[id]) == StepsLeft(s.attempts[id]) - 1
  {
  }

  /** From wherever it is past its audit row, an attempt can be run to its final write with everyone else standing still. */
  lemma {:induction false} CanStillWrite(s: State, id: nat, w: Applications.Write) returns (acts: seq<Action>)
    requires id < |s.attempts|
    requires var pc := s.attempts[id].pc; pc.Calling? || pc.Deploying? || pc.Closing? || pc.Releasing? || pc.Finishing?
    ensures CanRun(s, acts) && WroteLast(s, Run(s, acts), id)
    decreases StepsLeft(s.attempts[id])
  {
    var act := NextStep(s.attempts[id], id, w);
    if s.attempts[id].pc.Finishing? {
      acts := [act];
      assert acts[1..] == [] && Run(Apply(s, act), []) == Apply(s, act);
    } else {
      NextStepGetsCloser(s, id, w);
      var rest := CanStillWrite(Apply(s, act), id, w);
      acts := [act] + rest;
      assert acts[1..] == rest;
    }
  }

  /** While the first deploy's attempt can still write, the second one can be made to write first. */
  lemma FinalsCanSwap(s: State, a: nat, b: nat, w: Applications.Write) returns (acts: seq<Action>)
    requires Reachable(s) && a < |s.attempts| && b < |s.attempts| && a != b
    requires Landed in s.attempts[a].stamps && s.attempts[b].pc.Calling? && !WritesNoMore(s.attempts[a])
    ensures CanRun(s, acts) && BothWroteFinal(Run(s, acts), a, b) && !FinalsInOrder(Run(s, acts), a, b)
    ensures s.now <= s.attempts[b].deadline ==> Landed in Run(s, acts).attempts[b].stamps
  {
    ReachableInv(s);
    assert Local(s.attempts[a]) && Local(s.attempts[b]);
    var start: seq<Action> := [];
    var s1 := s;
    if s.now <= s.attempts[b].deadline {
      start, s1 := LandSecond(s, b);
    }
    var first := CanStillWrite(s1, b, w);
    var s2 := Run(s1, first);
    var second := CanStillWrite(s2, a, w);
    RunConcat(s, start, first);
    RunConcat(s, start + first, second);
    acts := start + first + second;
  }

  /** In time, the second deploy can take effect first of all. */
  lemma LandSecond(s: State, b: nat) returns (acts: seq<Action>, t: State)
    requires b < |s.attempts| && s.attempts[b].pc.Calling? && Local(s.attempts[b]) && s.now <= s.attempts[b].deadline
    ensures CanRun(s, acts) && t == Run(s, acts) && Moves(s, t, b)
    ensures t.attempts[b].pc.Deploying? && Landed in t.attempts[b].stamps && |s.log| <= t.attempts[b].stamps[Landed] < |t.log|
  {
    acts := [Call(b), Land(b)];
    var u := Apply(s, Call(b));
    assert acts[1..] == [Land(b)] && [Land(b)][1..] == [];
    assert Enabled(u, Land(b)) && CanRun(u, [Land(b)]);
    t := Apply(u, Land(b));
    assert Run(u, [Land(b)]) == t;
  }

  /**
   Exactly when the final writes keep the order of the deploys. Let `b` be about to call deploy after `a`'s deploy took
   effect on the same unit: in every continuation in which both make a final write `a`'s comes first, if and only if
   `a`, as `b` finds it, is past writing.
   */
  lemma FinalWritesKeepDeployOrderIff(s: State, a: nat, b: nat)
    requires Reachable(s) && a < |s.attempts| && b < |s.attempts| && a != b && s.attempts[a].unit == s.attempts[b].unit
    requires Landed in s.attempts[a].stamps && s.attempts[b].pc.Calling?
    ensures (forall acts | CanRun(s, acts) && BothWroteFinal(Run(s, acts), a, b) :: FinalsInOrder(Run(s, acts), a, b))
      <==> WritesNoMore(s.attempts[a])
    ensures WroteFinal in s.attempts[a].stamps ==> WritesNoMore(s.attempts[a])
  {
    ReachableInv(s);
    var was := s.attempts[a];
    assert Local(was) && Local(s.attempts[b]);
    if WritesNoMore(was) {
      forall acts | CanRun(s, acts) && BothWroteFinal(Run(s, acts), a, b) ensures FinalsInOrder(Run(s, acts), a, b) {
        RunOvertakes(s, acts, a, was, b, |s.log|);
        assert was.stamps[WroteFinal] < |s.log|;
      }
    } else {
      var w := Applications.Write("", "", "", "", "", "", "", "");
      var acts := FinalsCanSwap(s, a, b, w);
    }
  }

  // ---------------------------------------------------------------- when landings keep the order of the audit rows

  /** A request that has not taken effect and still may. */
  predicate MayLand(s: State, a: Attempt) { a.calling && Landed !in a.stamps && s.now <= a.deadline }

  ghost predicate BothLanded(s: State, a: nat, b: nat) {
    a < |s.attempts| && b < |s.attempts| && Landed in s.attempts[a].stamps && Landed in s.attempts[b].stamps
  }

  ghost predicate LandingsInOrder(s: State, a: nat, b: nat)
    requires BothLanded(s, a, b)
  {
    s.attempts[a].stamps[Landed] < s.attempts[b].stamps[Landed]
  }

  /** Past the point of ever landing: too late, or past the call with nothing outstanding. */
  ghost predicate LandsNoMore(s: State, id: nat) {
    && id < |s.attempts| && Landed !in s.attempts[id].stamps
    && (s.now > s.attempts[id].deadline || (!s.attempts[id].calling && PastCall(s.attempts[id].pc)))
  }

  predicate PastCall(pc: Pc) {
    pc.Closing? || pc.Releasing? || pc.Finishing? || pc.Done? || pc.Lost? || pc.Crashed?
  }

  lemma StepLandsNoMore(s: State, act: Action, id: nat)
    requires Enabled(s, act) && LandsNoMore(s, id)
    ensures LandsNoMore(Apply(s, act), id)
  {
    if Who(act) != Some(id) { StepKeepsOthers(s, act, id); }
    TablesOnlyGrow(s, act);
  }

  lemma {:induction false} RunLandsNoMore(s: State, acts: seq<Action>, id: nat)
    requires CanRun(s, acts) && LandsNoMore(s, id)
    ensures LandsNoMore(Run(s, acts), id)
    decreases |acts|
  {
    if acts != [] {
      StepLandsNoMore(s, acts[0], id);
      RunLandsNoMore(Apply(s, acts[0]), acts[1..], id);
    }
  }

  /** `a` landed at its place in the log, and `b` did not before `n`. */
  ghost predicate LandedBefore(s: State, a: nat, at: nat, b: nat, n: nat) {
    && a < |s.attempts| && b < |s.attempts| && n <= |s.log|
    && Landed in s.attempts[a].stamps && s.attempts[a].stamps[Landed] == at
    && (Landed in s.attempts[b].stamps ==> n <= s.attempts[b].stamps[Landed])
  }

  lemma StepLandedBefore(s: State, act: Action, a: nat, at: nat, b: nat, n: nat)
    requires Enabled(s, act) && LandedBefore(s, a, at, b, n)
    ensures LandedBefore(Apply(s, act), a, at, b, n)
  {
    LogOnlyGrows(s, act);
    LandingStaysOrComesLast(s, act, a);
    LandingStaysOrComesLast(s, act, b);
  }

  lemma LandingStaysOrComesLast(s: State, act: Action, id: nat)
    requires Enabled(s, act) && id < |s.attempts|
    ensures
      var t := Apply(s, act);
      && id < |t.attempts|
      && (Landed in s.attempts[id].stamps ==> Landed in t.attempts[id].stamps && t.attempts[id].stamps[Landed] == s.attempts[id].stamps[Landed])
      && (Landed in t.attempts[id].stamps && Landed !in s.attempts[id].stamps ==> t.attempts[id].stamps[Landed] == |s.log|)
  {
    if Who(act) != Some(id) { StepKeepsOthers(s, act, id); }
  }

  lemma {:induction false} RunLandedBefore(s: State, acts: seq<Action>, a: nat, at: nat, b: nat, n: nat)
    requires CanRun(s, acts) && LandedBefore(s, a, at, b, n)
    ensures LandedBefore(Run(s, acts), a, at, b, n)
    decreases |acts|
  {
    if acts != [] {
      StepLandedBefore(s, acts[0], a, at, b, n);
      RunLandedBefore(Apply(s, acts[0]), acts[1..], a, at, b, n);
    }
  }

  /** A request of `a` that may still land can be made to land after that of `b`. */
  lemma LandingsCanSwap(s: State, a: nat, b: nat) returns (acts: seq<Action>)
    requires Reachable(s) && a < |s.attempts| && b < |s.attempts| && a != b
    requires s.attempts[b].pc.Calling? && s.now <= s.attempts[b].deadline && MayLand(s, s.attempts[a])
    ensures CanRun(s, acts) && BothLanded(Run(s, acts), a, b) && !LandingsInOrder(Run(s, acts), a, b)
  {
    ReachableInv(s);
    assert Local(s.attempts[b]);
    var first, t := LandSecond(s, b);
    RunSnoc(s, first, Land(a));
    acts := first + [Land(a)];
  }

  /**
   Exactly when deploys take effect in the order of their rows although an early error may be followed by a late effect.
   Let `a` have the earlier row and `b` be about to call: in every continuation in which both land `a`'s landing comes
   first, if and only if no request of `a` may still land while `b` is in time.
   */
  lemma LandingsKeepRowOrderIff(s: State, a: nat, b: nat)
    requires Reachable(s) && a < |s.attempts| && b < |s.attempts| && a != b && s.attempts[a].unit == s.attempts[b].unit
    requires s.attempts[a].event.Some? && s.attempts[b].event.Some? && s.attempts[a].event.value < s.attempts[b].event.value
    requires s.attempts[b].pc.Calling?
    ensures (forall acts | CanRun(s, acts) && BothLanded(Run(s, acts), a, b) :: LandingsInOrder(Run(s, acts), a, b))
      <==> !(MayLand(s, s.attempts[a]) && s.now <= s.attempts[b].deadline)
  {
    ReachableInv(s);
    if MayLand(s, s.attempts[a]) && s.now <= s.attempts[b].deadline {
      var acts := LandingsCanSwap(s, a, b);
    } else {
      forall acts | CanRun(s, acts) && BothLanded(Run(s, acts), a, b) ensures LandingsInOrder(Run(s, acts), a, b) {
        EarlierRowIsSettled(s, a, b);
        if Landed in s.attempts[a].stamps {
          RunLandedBefore(s, acts, a, s.attempts[a].stamps[Landed], b, |s.log|);
        } else if LandsNoMore(s, a) {
          RunLandsNoMore(s, acts, a);
        } else {
          RunLandsNoMore(s, acts, b);
        }
      }
    }
  }

  /** Once a later attempt is about to call, the earlier one has landed, may still land, or never will. */
  lemma EarlierRowIsSettled(s: State, a: nat, b: nat)
    requires Inv(s) && a < |s.attempts| && b < |s.attempts| && a != b && s.attempts[a].unit == s.attempts[b].unit
    requires s.attempts[a].event.Some? && s.attempts[b].event.Some? && s.attempts[a].event.value < s.attempts[b].event.value
    requires s.attempts[b].pc.Calling?
    ensures Landed !in s.attempts[b].stamps
    ensures Landed in s.attempts[a].stamps ==> s.attempts[a].stamps[Landed] < |s.log|
    ensures Landed in s.attempts[a].stamps || MayLand(s, s.attempts[a]) || LandsNoMore(s, a)
  {
    var x, y := s.attempts[a], s.attempts[b];
    assert Local(x) && Local(y) && Ids(s, a, b) && Ids(s, b, a);
    assert x.stamps[TookLock] < y.stamps[TookLock] ==> Superseded(s, x, y);
    assert y.stamps[TookLock] < x.stamps[TookLock] ==> Superseded(s, y, x);
    assert s.log[x.stamps[TookLock]] == LogEntry(a, TookLock) && s.log[y.stamps[TookLock]] == LogEntry(b, TookLock);
    assert x.stamps[WroteEvent] < y.stamps[WroteEvent];
    assert x.stamps[TookLock] < y.stamps[TookLock];
    assert !Holding(s, x);
  }

  /** The exception happens: an early error, a release and a second attempt lead to a request that may land late. */
  lemma LateLandingIsReachable(unit: Unit, w: Applications.Write) returns (s: State)
    ensures Reachable(s) && |s.attempts| == 2 && s.attempts[0].unit == s.attempts[1].unit == unit
    ensures s.attempts[0].event.Some? && s.attempts[1].event.Some? && s.attempts[0].event.value < s.attempts[1].event.value
    ensures s.attempts[1].pc.Calling? && s.now <= s.attempts[1].deadline && MayLand(s, s.attempts[0])
  {
    var s0 := Init(0, map[]);
    var acts := SmoothSection(s0, [], unit, "1", "d1", w, false, 9);
    var t := Run(s0, acts);
    acts := SmoothSection(s0, acts, unit, "2", "d2", w, true, 4);
    s := Run(s0, acts);
    assert s.attempts[0] == s.attempts[..1][0];
    assert Reachable(s);
  }
}
