/**
 The reconciler's methods over the shared database, step by step, with every other attempt interleaved.

 `others` scripts stand for whatever the rest of the fleet and the clock do between two steps of this attempt; each
 action in them is carried out if the protocol allows it. Statements meet a chosen fate, except that none can commit
 under a context whose deadline has passed.
 */
module Reconciler {
  import opened Wrappers
  import Applications
  import opened P = DeployProtocol
  import opened DeploySafety
  import opened Diff
  import opened Manifest
  import R = Reconcile
  import opened Expander
  import SyncWindow
  import Config
  import Registry
  import ImageRef
  import Folders
  import opened Sequences

  // ---------------------------------------------------------------- the shared database

  /** `t` can follow `s`. */
  ghost predicate Leads(s: State, t: State) {
    exists acts :: LeadsBy(s, t, acts)
  }

  ghost predicate LeadsBy(s: State, t: State, acts: seq<Action>) {
    CanRun(s, acts) && Run(s, acts) == t
  }

  lemma LeadsNowhere(s: State)
    ensures Leads(s, s)
  {
    assert LeadsBy(s, s, []);
  }

  lemma LeadsStep(s: State, t: State, act: Action)
    requires Leads(s, t) && Enabled(t, act)
    ensures Leads(s, Apply(t, act))
  {
    var acts :| LeadsBy(s, t, acts);
    RunSnoc(s, acts, act);
    assert LeadsBy(s, Apply(t, act), acts + [act]);
  }

  /** Whatever follows a reachable state is reachable, so every result about runs applies to it. */
  lemma LeadsKeepsReachable(s: State, t: State)
    requires Reachable(s) && Leads(s, t)
    ensures Reachable(t)
  {
    var acts :| LeadsBy(s, t, acts);
    ReachableStep(s, acts);
  }

  function LongestToken(attempts: seq<Attempt>): (n: nat)
    ensures forall a | a in attempts :: |a.token| <= n
  {
    if attempts == [] then 0 else
      var n := LongestToken(attempts[..|attempts| - 1]);
      var k := |attempts[|attempts| - 1].token|;
      assert attempts == attempts[..|attempts| - 1] + [attempts[|attempts| - 1]];
      if k > n then k else n
  }

  /** The statements and calls that a pass issues. */
  datatype Statement =
    | LockStatement
    | RowStatement(write: Applications.Write)
    | EventStatement
    | DeployCall(target: ServiceState)
    | CloseStatement
    | UnlockStatement

  /** What a step of our own sends to the database. */
  function StatementOf(act: Action): seq<Statement> {
    match act
    case Acquire(_, _, _) => [LockStatement]
    case Upsert(_, w, _) => [RowStatement(w)]
    case Final(_, w, _) => [RowStatement(w)]
    case Insert(_, _) => [EventStatement]
    case Close(_, _) => [CloseStatement]
    case Release(_, _) => [UnlockStatement]
    case _ => []
  }

  /** `issued` is what this process has issued itself, as opposed to the rest of the fleet. */
  class Database {
    ghost var issued: seq<Statement>
    var now: int
    var locks: map<Unit, Lock>
    var apps: map<Unit, Applications.Row>
    var events: seq<Event>
    var attempts: seq<Attempt>
    var log: seq<LogEntry>

    function View(): State
      reads this
    {
      State(now, locks, apps, events, attempts, log)
    }

    constructor (now: int, apps: map<Unit, Applications.Row>)
      ensures View() == Init(now, apps) && issued == []
    {
      this.now, this.apps := now, apps;
      locks, events, attempts, log := map[], [], [], [];
      issued := [];
    }

    /** One step of the protocol, whoever takes it. `start` is where the enclosing pass set out from. */
    method Advance(act: Action, ghost start: State)
      requires Enabled(View(), act) && Leads(start, View())
      modifies this
      ensures View() == Apply(old(View()), act) && issued == old(issued)
      ensures Leads(start, View())
    {
      LeadsStep(start, View(), act);
      var t := Apply(View(), act);
      now, locks, apps, events, attempts, log := t.now, t.locks, t.apps, t.events, t.attempts, t.log;
    }

    /** One step of our own. */
    method Step(act: Action, ghost start: State)
      requires Enabled(View(), act) && Leads(start, View())
      modifies this
      ensures View() == Apply(old(View()), act) && issued == old(issued) + StatementOf(act)
      ensures Leads(start, View())
    {
      Advance(act, start);
      issued := issued + StatementOf(act);
    }

    /** The rest of the fleet acts, and outstanding requests may land. */
    method Interfere(script: seq<Action>, me: Option<nat>, ghost start: State)
      requires Leads(start, View()) && (me.Some? ==> me.value < |attempts|)
      modifies this
      ensures Leads(start, View()) && issued == old(issued)
      ensures me.Some? ==> Idle(old(View()), View(), me.value)
      ensures |attempts| >= |old(attempts)| && now >= old(now) && old(apps.Keys) <= apps.Keys
    {
      for i := 0 to |script|
        invariant Leads(start, View()) && issued == old(issued)
        invariant me.Some? ==> Idle(old(View()), View(), me.value)
        invariant |attempts| >= |old(attempts)| && now >= old(now) && old(apps.Keys) <= apps.Keys
      {
        if Enabled(View(), script[i]) && (me.None? || Who(script[i]) != me || script[i].Land?) {
          TablesOnlyGrow(View(), script[i]);
          if me.Some? { ForeignStepLeavesIdle(View(), script[i], me.value); }
          Advance(script[i], start);
        }
      }
    }

    /** Fixes the deadline and a token that no unfinished attempt carries. */
    method Begin(unit: Unit, hint: string, digest: string, others: seq<Action>, ghost start: State) returns (id: nat)
      requires Leads(start, View())
      modifies this
      ensures Leads(start, View()) && issued == old(issued) && now >= old(now)
      ensures |old(attempts)| <= id < |attempts|
      ensures Fresh(attempts[id], unit, digest) && attempts[id].deadline == now + LOCK_TTL
    {
      Interfere(others, None, start);
      id := |attempts|;
      var token := hint;
      if !Enabled(View(), Start(unit, token, digest)) {
        token := seq(LongestToken(attempts) + 1, _ => '0');
      }
      Step(Start(unit, token, digest), start);
    }

    /**
     Claims the lock row for longer than the attempt's context lives. `None` is an error, for which the fate or the
     deadline is to blame; `Some(false)` is another claim, alive at some time since the attempt began.
     */
    method AcquireLock(id: nat, at: int, fate: Fate, others: seq<Action>, ghost start: State) returns (got: Option<bool>)
      requires Leads(start, View()) && id < |attempts| && Before(attempts[id], Locking) && attempts[id].deadline - LOCK_TTL <= now
      modifies this
      ensures Leads(start, View()) && issued == old(issued) + [LockStatement] && now >= old(now)
      ensures id < |attempts| && Same(old(attempts[id]), attempts[id])
      ensures attempts[id].pc == match got case None => Finishing case Some(true) => Upserting case Some(false) => Lost
      ensures attempts[id].stamps.Keys <= old(attempts[id].stamps.Keys) + {TookLock}
      ensures if got.None? then !fate.Applied? || now > attempts[id].deadline else fate.Applied?
      ensures got == Some(true) ==>
        var a := attempts[id];
        a.unit in locks && locks[a.unit].holder == a.token && a.deadline <= locks[a.unit].expiresAt
      ensures got == Some(false) ==> RowIsClaimed(View(), attempts[id])
    {
      Interfere(others, Some(id), start);
      var when := if attempts[id].deadline - LOCK_TTL <= at <= now then at else now;
      var met := if now <= attempts[id].deadline then fate else Rejected;
      AcquireEffect(View(), id, when, met);
      Step(Acquire(id, when, met), start);
      got := if attempts[id].pc.Finishing? then None else Some(attempts[id].pc.Upserting?);
    }

    /** Succeeds exactly if it met that fate in time. */
    method Upsert(id: nat, w: Applications.Write, fate: Fate, others: seq<Action>, ghost start: State) returns (ok: bool)
      requires Leads(start, View()) && id < |attempts| && Before(attempts[id], Upserting)
      modifies this
      ensures Leads(start, View()) && issued == old(issued) + [RowStatement(w)] && now >= old(now)
      ensures id < |attempts| && Same(old(attempts[id]), attempts[id])
      ensures attempts[id].pc == if ok then Inserting else Releasing
      ensures attempts[id].stamps.Keys <= old(attempts[id].stamps.Keys) + {WroteRow}
      ensures ok <==> fate.Applied? && now <= attempts[id].deadline
      ensures !fate.Rejected? && now <= attempts[id].deadline ==> RowSays(View(), attempts[id].unit, w)
    {
      Interfere(others, Some(id), start);
      Step(P.Action.Upsert(id, w, if now <= attempts[id].deadline then fate else Rejected), start);
      ok := attempts[id].pc.Inserting?;
    }

    /** Inserts the audit row, which needs the applications row. */
    method InsertSyncEvent(id: nat, fate: Fate, others: seq<Action>, ghost start: State) returns (ok: bool)
      requires Leads(start, View()) && id < |attempts| && Before(attempts[id], Inserting) && attempts[id].unit in apps
      modifies this
      ensures Leads(start, View()) && issued == old(issued) + [EventStatement] && now >= old(now)
      ensures id < |attempts| && SameCall(old(attempts[id]), attempts[id])
      ensures attempts[id].pc == if ok then Calling else Releasing
      ensures attempts[id].stamps.Keys <= old(attempts[id].stamps.Keys) + {WroteEvent}
      ensures ok <==> fate.Applied? && now <= attempts[id].deadline
      ensures !fate.Rejected? && now <= attempts[id].deadline ==>
        var a := attempts[id];
        a.event.Some? && a.event.value < |events| && events[a.event.value] == Event(id, a.unit, a.digest, InProgress)
    {
      Interfere(others, Some(id), start);
      Step(Insert(id, if now <= attempts[id].deadline then fate else Rejected), start);
      ok := attempts[id].pc.Calling?;
    }

    /** Sends the request, which may take effect before the answer. */
    method Send(id: nat, target: ServiceState, lands: bool, before: seq<Action>, during: nat -> seq<Action>, ghost start: State)
      requires Leads(start, View()) && id < |attempts| && Before(attempts[id], Calling) && CalledDeploy !in attempts[id].stamps
      modifies this
      ensures Leads(start, View()) && issued == old(issued) + [DeployCall(target)] && now >= old(now)
      ensures id < |attempts| && SameAttempt(old(attempts[id]), attempts[id]) && attempts[id].event == old(attempts[id].event)
      ensures attempts[id].pc.Deploying? && CalledDeploy in attempts[id].stamps
      ensures lands && now <= attempts[id].deadline ==> Landed in attempts[id].stamps
    {
      Interfere(before, Some(id), start);
      Advance(Call(id), start);
      issued := issued + [DeployCall(target)];
      Interfere(during(0), Some(id), start);
      if lands && Enabled(View(), Land(id)) { Step(Land(id), start); }
    }

    /**
     The deploy call: its request may take effect until the deadline, also after an early error; success means that it
     has, and is what a request that lands in time gets if the service answers so.
     */
    method Deploy(id: nat, target: ServiceState, lands: bool, ok: bool, before: seq<Action>, during: nat -> seq<Action>, ghost start: State) returns (deployed: bool)
      requires Leads(start, View()) && id < |attempts| && Before(attempts[id], Calling) && CalledDeploy !in attempts[id].stamps
      modifies this
      ensures Leads(start, View()) && issued == old(issued) + [DeployCall(target)] && now >= old(now)
      ensures id < |attempts| && SameAttempt(old(attempts[id]), attempts[id]) && attempts[id].event == old(attempts[id].event)
      ensures attempts[id].pc == Closing(deployed) && attempts[id].returned == Some(deployed)
      ensures CalledDeploy in attempts[id].stamps && (deployed ==> ok && Landed in attempts[id].stamps)
      ensures ok && lands && now <= attempts[id].deadline ==> deployed
    {
      Send(id, target, lands, before, during, start);
      Interfere(during(1), Some(id), start);
      deployed := ok && Landed in attempts[id].stamps;
      Step(Return(id, deployed), start);
    }

    /** Closes the audit row with how deploy returned. */
    method UpdateSyncEvent(id: nat, fate: Fate, others: seq<Action>, ghost start: State) returns (ok: bool)
      requires Leads(start, View()) && id < |attempts| && attempts[id].pc.Closing? && attempts[id].event.Some?
      modifies this
      ensures Leads(start, View()) && issued == old(issued) + [CloseStatement] && now >= old(now)
      ensures id < |attempts| && Same(old(attempts[id]), attempts[id]) && attempts[id].pc.Releasing?
      ensures old(attempts[id].stamps.Keys) <= attempts[id].stamps.Keys
      ensures ok <==> fate.Applied?
      ensures !fate.Rejected? ==> ClosedEvent in attempts[id].stamps
      ensures !fate.Rejected? && Reachable(start) ==> ClosedAs(View(), attempts[id].event.value, id, old(attempts[id].pc.ok))
    {
      Interfere(others, Some(id), start);
      if Reachable(start) { EventIsOwn(start, View(), id); }
      Step(Close(id, fate), start);
      ok := fate.Applied?;
    }

    /** Removes the row unless another token holds it. */
    method ReleaseLock(id: nat, fate: Fate, others: seq<Action>, ghost start: State)
      requires Leads(start, View()) && id < |attempts| && attempts[id].pc.Releasing?
      modifies this
      ensures Leads(start, View()) && issued == old(issued) + [UnlockStatement] && now >= old(now)
      ensures id < |attempts| && Same(old(attempts[id]), attempts[id]) && attempts[id].pc.Finishing?
      ensures old(attempts[id].stamps.Keys) <= attempts[id].stamps.Keys
      ensures !attempts[id].calling ==> attempts[id].stamps.Keys <= old(attempts[id].stamps.Keys) + {DroppedLock}
      ensures !fate.Rejected? ==> Freed(View(), id)
    {
      Interfere(others, Some(id), start);
      Step(Release(id, fate), start);
    }

    /** The upsert that ends a pass: of attempt `id` if it entered the section, of a pass of its own otherwise. */
    method WriteResult(id: Option<nat>, unit: Unit, w: Applications.Write, fate: Fate, others: seq<Action>, ghost start: State) returns (ok: bool, writer: nat)
      requires Leads(start, View()) && (id.Some? ==> id.value < |attempts| && attempts[id.value].pc.Finishing? && attempts[id.value].unit == unit)
      modifies this
      ensures Leads(start, View()) && issued == old(issued) + [RowStatement(w)]
      ensures ok <==> fate.Applied?
      ensures writer < |attempts| && attempts[writer].unit == unit && attempts[writer].pc.Done? && now >= old(now)
      ensures if id.Some? then writer == id.value && SameAttempt(old(attempts[id.value]), attempts[writer]) else |old(attempts)| <= writer
      ensures !fate.Rejected? ==> RowSays(View(), unit, w) && WroteFinal in attempts[writer].stamps
    {
      Interfere(others, id, start);
      if id.Some? {
        writer := id.value;
      } else {
        writer := |attempts|;
        Step(Skip(unit), start);
      }
      Step(Final(writer, w, fate), start);
      ok := fate.Applied?;
    }
  }

  /** The row carries what was just written. */
  ghost predicate RowSays(s: State, unit: Unit, w: Applications.Write) {
    && unit in s.apps
    && s.apps[unit].status == w.status && s.apps[unit].health == w.health && s.apps[unit].lastReconciledAt == s.now
    && (w.desiredImage != "" ==> Applications.ManifestColumnsFrom(s.apps[unit], w))
    && (w.liveImage != "" ==> s.apps[unit].liveImage == Some(w.liveImage))
  }

  /** The attempt's lock row is gone, or another's. */
  ghost predicate Freed(s: State, id: nat) {
    id < |s.attempts| && var a := s.attempts[id]; a.unit in s.locks ==> s.locks[a.unit].holder != a.token
  }

  /** About to take the step at `pc`, with no request outstanding. */
  ghost predicate Before(a: Attempt, pc: Pc) { a.pc == pc && !a.calling && Landed !in a.stamps }

  /** The unit's row is a claim that was alive at some time since the attempt began. */
  ghost predicate RowIsClaimed(s: State, a: Attempt) {
    a.unit in s.locks && a.deadline - LOCK_TTL <= s.locks[a.unit].expiresAt
  }

  /** Audit row `e` belongs to attempt `id` and says how its deploy returned. */
  ghost predicate ClosedAs(s: State, e: nat, id: nat, ok: bool) {
    e < |s.events| && s.events[e].owner == id && s.events[e].result == if ok then Succeeded else Failed
  }

  lemma EventIsOwn(start: State, s: State, id: nat)
    requires Reachable(start) && Leads(start, s) && id < |s.attempts| && s.attempts[id].event.Some?
    ensures s.attempts[id].event.value < |s.events| && s.events[s.attempts[id].event.value].owner == id
  {
    LeadsKeepsReachable(start, s);
    ReachableInv(s);
  }

  lemma AcquireEffect(s: State, id: nat, at: int, fate: Fate)
    requires Enabled(s, Acquire(id, at, fate))
    ensures
      var t := Apply(s, Acquire(id, at, fate));
      var a := s.attempts[id];
      && id < |t.attempts| && t.now == s.now && Same(a, t.attempts[id])
      && (t.attempts[id].pc.Finishing? || t.attempts[id].pc.Upserting? || t.attempts[id].pc.Lost?)
      && t.attempts[id].stamps.Keys <= a.stamps.Keys + {TookLock}
      && (t.attempts[id].pc.Upserting? ==> a.unit in t.locks && t.locks[a.unit].holder == a.token && a.deadline <= t.locks[a.unit].expiresAt)
      && (if t.attempts[id].pc.Finishing? then !fate.Applied? else fate.Applied?)
      && (t.attempts[id].pc.Lost? ==> RowIsClaimed(t, a))
  {
  }

  /** An attempt as it starts. */
  ghost predicate Fresh(a: Attempt, unit: Unit, digest: string) {
    a.unit == unit && a.digest == digest && a.pc.Locking? && a.stamps == map[] && a.event.None? && a.returned.None? && !a.calling
  }

  /** What was fixed at the start, and how the deploy call stands, are unchanged. */
  ghost predicate SameCall(a: Attempt, b: Attempt) {
    SameAttempt(a, b) && a.returned == b.returned && a.calling == b.calling
  }

  /** And the audit row. */
  ghost predicate Same(a: Attempt, b: Attempt) {
    SameCall(a, b) && a.event == b.event
  }

  // ---------------------------------------------------------------- the reconciler

  /** What the outside decides about one deploy section. */
  datatype Script = Script(
    token: string,
    lockedAt: int,
    lock: Fate,
    row: Fate,
    event: Fate,
    lands: bool,
    deploys: bool,
    post: R.LiveAnswer,
    audit: Fate,
    release: Fate,
    others: nat -> seq<Action>)

  /** What the attempt's record shows when its section has got as far as `p`. */
  ghost predicate Shows(a: Attempt, p: R.Progress) {
    match p
    case LockErrored => a.pc.Finishing? && a.stamps.Keys <= {TookLock}
    case LockHeld => a.pc.Lost?
    case RowFailed => a.pc.Finishing? && a.stamps.Keys <= {TookLock, WroteRow, DroppedLock}
    case EventFailed => a.pc.Finishing? && a.stamps.Keys <= {TookLock, WroteRow, WroteEvent, DroppedLock}
    case DeployErrored(audited) =>
      a.pc.Finishing? && CalledDeploy in a.stamps && a.returned == Some(false) && (audited ==> ClosedEvent in a.stamps)
    case Deployed(audited) =>
      a.pc.Finishing? && CalledDeploy in a.stamps && a.returned == Some(true) && (audited ==> ClosedEvent in a.stamps)
  }

  /** Lock, applications row and audit row are in place, and the call has not been made. */
  ghost predicate InPlace(a: Attempt) {
    Before(a, Calling) && a.event.Some? && a.stamps.Keys <= {TookLock, WroteRow, WroteEvent}
  }

  /** The statements that a deploy section issues, in order, when it gets as far as `p`: `w` is written, `target` deployed. */
  function SectionOf(p: R.Progress, w: Applications.Write, target: ServiceState): seq<Statement> {
    match p
    case LockErrored => [LockStatement]
    case LockHeld => [LockStatement]
    case RowFailed => [LockStatement, RowStatement(w), UnlockStatement]
    case EventFailed => [LockStatement, RowStatement(w), EventStatement, UnlockStatement]
    case _ => [LockStatement, RowStatement(w), EventStatement, DeployCall(target), CloseStatement, UnlockStatement]
  }

  /** A section's statements, piece by piece after those issued before. */
  lemma SectionPieces(issued: seq<Statement>, w: Applications.Write, target: ServiceState)
    ensures
      var row := [RowStatement(w)];
      && issued + row + [UnlockStatement] == issued + SectionOf(R.RowFailed, w, target)[1..]
      && issued + row + [EventStatement] + [UnlockStatement] == issued + SectionOf(R.EventFailed, w, target)[1..]
      && issued + row + [EventStatement] == issued + (row + [EventStatement])
      && (forall p: R.Progress | p.RowFailed? || p.EventFailed? ::
            issued + [LockStatement] + SectionOf(p, w, target)[1..] == issued + SectionOf(p, w, target))
      && (forall p: R.Progress | p.DeployErrored? || p.Deployed? ::
            issued + [LockStatement] + (row + [EventStatement]) + [DeployCall(target), CloseStatement, UnlockStatement] == issued + SectionOf(p, w, target))
  {
  }

  /** A section stops where it does because of what its own statements met; `late` is a deadline that has passed. */
  ghost predicate Explained(io: Script, late: bool, p: R.Progress) {
    match p
    case LockErrored => !io.lock.Applied? || late
    case LockHeld => io.lock.Applied?
    case RowFailed => io.lock.Applied? && (!io.row.Applied? || late)
    case EventFailed => io.lock.Applied? && io.row.Applied? && (!io.event.Applied? || late)
    case DeployErrored(audited) =>
      io.lock.Applied? && io.row.Applied? && io.event.Applied? && (!(io.deploys && io.lands) || late) && (audited <==> io.audit.Applied?)
    case Deployed(audited) =>
      io.lock.Applied? && io.row.Applied? && io.event.Applied? && io.deploys && (audited <==> io.audit.Applied?)
  }

  /** A section that took the lock and whose release committed does not leave its lock behind. */
  ghost predicate LeavesFree(io: Script, p: R.Progress, s: State, id: nat) {
    !io.release.Rejected? && !p.LockErrored? && !p.LockHeld? ==> Freed(s, id)
  }

  ghost predicate Late(s: State, id: nat)
    requires id < |s.attempts|
  {
    s.now > s.attempts[id].deadline
  }

  /** When every statement meets success in time and the service accepts the deploy, only another holder can stop a section. */
  lemma WillingWorldDeploys(io: Script, p: R.Progress)
    requires Explained(io, false, p)
    requires io.lock.Applied? && io.row.Applied? && io.event.Applied? && io.lands && io.deploys && io.audit.Applied?
    ensures p == R.LockHeld || p == R.Deployed(true)
  {
  }

  /** What a pass compares, and would deploy. */
  datatype Aim = Aim(desired: ServiceState, live: R.LiveAnswer, fields: seq<string>, rt: ResourceType)

  function TargetOf(aim: Aim): ServiceState {
    if aim.live.Live? then DeployTarget(aim.desired, aim.live.state, aim.fields) else aim.desired
  }

  /** The statements of a pass that got from `assessed` as far as `p`. */
  function SaidBy(p: Option<R.Progress>, assessed: R.Pass, target: ServiceState): seq<Statement> {
    if p.Some? then SectionOf(p.value, R.WriteOf(assessed), target) else []
  }

  /** And those of a whole pass: a last row statement, unless the lock was lost. */
  function PassOf(p: Option<R.Progress>, assessed: R.Pass, target: ServiceState, res: R.Pass): seq<Statement> {
    SaidBy(p, assessed, target) + if p == Some(R.LockHeld) then [] else [RowStatement(R.WriteOf(res))]
  }

  /** From `assessed`, a pass went through the deploy section as its own attempt `id`, or left the database alone. */
  ghost predicate Followed(before: State, after: State, assessed: R.Pass, aim: Aim, unit: SyncUnit, opts: R.Options, io: Script,
                           res: R.Pass, p: Option<R.Progress>, id: nat) {
    if R.WouldDeploy(assessed, opts) && !assessed.observing then
      && aim.live.Live? && p.Some?
      && |before.attempts| <= id < |after.attempts| && Shows(after.attempts[id], p.value)
      && Explained(io, Late(after, id), p.value) && LeavesFree(io, p.value, after, id) && (p == Some(R.LockHeld) ==> RowIsClaimed(after, after.attempts[id]))
      && after.attempts[id].unit == RowKey(unit) && after.attempts[id].digest == TargetOf(aim).imageDigest
      && res == R.AfterDeploy(assessed, TargetOf(aim), aim.fields, aim.rt, p.value, io.post)
    else p.None? && after == before && res == R.Withheld(assessed, opts)
  }

  /** The same for a pass whose manifest decodes: without a desired digest it goes no further. */
  ghost predicate FollowedDefinition(before: State, after: State, base: seq<string>, unit: SyncUnit, w: R.World, opts: R.Options, io: Script,
                                     res: R.Pass, p: Option<R.Progress>, id: nat)
    requires w.manifest.Decoded?
  {
    var assessed := R.AssessDefinition(base, unit, w, w.manifest.sd);
    if R.OverrideResolved(unit, w) then
      Followed(before, after, assessed, Aim(R.Desired(base, unit, w), w.live, R.Fields(base, unit), w.manifest.sd.resourceType), unit, opts, io, res, p, id)
    else p.None? && after == before && res == R.Withheld(assessed, opts)
  }

  lemma UnresolvedIsWithheld(s: State, base: seq<string>, unit: SyncUnit, w: R.World, opts: R.Options, io: Script, res: R.Pass)
    requires w.manifest.Decoded?
    requires
      var digest := R.DesiredDigest(unit, w.manifest.sd.image, w.tags);
      digest.Err? && res == R.Invalidated(R.Described(unit, w.manifest.sd), digest.error)
    ensures FollowedDefinition(s, s, base, unit, w, opts, io, res, None, 0)
  {
  }

  lemma ResolvedIsFollowed(before: State, after: State, base: seq<string>, unit: SyncUnit, w: R.World, digest: string, opts: R.Options, io: Script,
                           res: R.Pass, p: Option<R.Progress>, id: nat)
    requires w.manifest.Decoded? && R.DesiredDigest(unit, w.manifest.sd.image, w.tags) == Ok(digest)
    requires
      var (sd, fields) := (w.manifest.sd, R.Fields(base, unit));
      var failure := R.FailureOf(R.Required(sd.requirements, unit.ignorePreconditions), w.holds);
      Followed(before, after, R.AssessLive(R.WithDigest(R.Described(unit, sd), unit, digest), failure, w.live, sd, digest, fields),
               Aim(DesiredState(sd, digest, fields), w.live, fields, sd.resourceType), unit, opts, io, res, p, id)
    ensures FollowedDefinition(before, after, base, unit, w, opts, io, res, p, id)
  {
  }

  function RowKey(unit: SyncUnit): Unit { Unit(unit.app, unit.project) }

  class Reconciler {
    const db: Database
    var managedFields: seq<string>

    constructor (db: Database, managedFields: seq<string>)
      ensures this.db == db && this.managedFields == managedFields
    {
      this.db, this.managedFields := db, managedFields;
    }

    /** Deadline and lock. */
    method LockUnit(unit: SyncUnit, digest: string, io: Script, ghost start: State) returns (id: nat, got: Option<bool>)
      requires Leads(start, db.View())
      modifies db
      ensures Leads(start, db.View()) && db.issued == old(db.issued) + [LockStatement]
      ensures |old(db.attempts)| <= id < |db.attempts|
      ensures db.attempts[id].unit == RowKey(unit) && db.attempts[id].digest == digest
      ensures match got
        case None => Shows(db.attempts[id], R.LockErrored) && Explained(io, Late(db.View(), id), R.LockErrored)
        case Some(false) => Shows(db.attempts[id], R.LockHeld) && io.lock.Applied? && RowIsClaimed(db.View(), db.attempts[id])
        case Some(true) => Before(db.attempts[id], Upserting) && db.attempts[id].stamps.Keys <= {TookLock} && io.lock.Applied?
    {
      id := db.Begin(RowKey(unit), io.token, digest, io.others(0), start);
      got := db.AcquireLock(id, io.lockedAt, io.lock, io.others(1), start);
    }

    /** The applications row, then the audit row; leaves the section through the deferred release if either fails. */
    method WriteRows(id: nat, res: R.Pass, ghost target: ServiceState, io: Script, ghost start: State) returns (stopped: Option<R.Progress>)
      requires Leads(start, db.View()) && id < |db.attempts| && io.lock.Applied?
      requires Before(db.attempts[id], Upserting) && db.attempts[id].stamps.Keys <= {TookLock}
      modifies db
      ensures Leads(start, db.View())
      ensures id < |db.attempts| && SameAttempt(old(db.attempts[id]), db.attempts[id])
      ensures match stopped
        case None => InPlace(db.attempts[id]) && io.row.Applied? && io.event.Applied?
                     && db.issued == old(db.issued) + ([RowStatement(R.WriteOf(res))] + [EventStatement])
        case Some(p) => (p.RowFailed? || p.EventFailed?) && (!io.release.Rejected? ==> Freed(db.View(), id)) && Shows(db.attempts[id], p) && Explained(io, Late(db.View(), id), p)
                        && db.issued == old(db.issued) + SectionOf(p, R.WriteOf(res), target)[1..]
    {
      SectionPieces(db.issued, R.WriteOf(res), target);
      var ok := db.Upsert(id, R.WriteOf(res), io.row, io.others(2), start);
      if !ok {
        db.ReleaseLock(id, io.release, io.others(3), start);
        return Some(R.RowFailed);
      }
      ok := db.InsertSyncEvent(id, io.event, io.others(3), start);
      if !ok {
        db.ReleaseLock(id, io.release, io.others(4), start);
        return Some(R.EventFailed);
      }
      stopped := None;
    }

    /** The audit row is closed, then the lock released. */
    method CloseAndLeave(id: nat, io: Script, ghost start: State) returns (audited: bool)
      requires Leads(start, db.View()) && id < |db.attempts| && db.attempts[id].pc.Closing? && db.attempts[id].event.Some?
      modifies db
      ensures Leads(start, db.View()) && db.issued == old(db.issued) + [CloseStatement, UnlockStatement] && db.now >= old(db.now)
      ensures id < |db.attempts| && Same(old(db.attempts[id]), db.attempts[id]) && db.attempts[id].pc.Finishing?
      ensures old(db.attempts[id].stamps.Keys) <= db.attempts[id].stamps.Keys
      ensures audited <==> io.audit.Applied?
      ensures audited ==> ClosedEvent in db.attempts[id].stamps
      ensures !io.release.Rejected? ==> Freed(db.View(), id)
    {
      audited := db.UpdateSyncEvent(id, io.audit, io.others(7), start);
      db.ReleaseLock(id, io.release, io.others(8), start);
    }

    /** The call, then the closing of the audit row, then the deferred release. */
    method DeployAndClose(id: nat, desired: ServiceState, io: Script, ghost start: State) returns (deployed: bool, audited: bool)
      requires Leads(start, db.View()) && id < |db.attempts| && InPlace(db.attempts[id])
      requires io.lock.Applied? && io.row.Applied? && io.event.Applied?
      modifies db
      ensures Leads(start, db.View()) && db.issued == old(db.issued) + [DeployCall(desired), CloseStatement, UnlockStatement]
      ensures !io.release.Rejected? ==> Freed(db.View(), id)
      ensures id < |db.attempts| && SameAttempt(old(db.attempts[id]), db.attempts[id])
      ensures
        var p := if deployed then R.Deployed(audited) else R.DeployErrored(audited);
        Shows(db.attempts[id], p) && Explained(io, Late(db.View(), id), p)
    {
      deployed := db.Deploy(id, desired, io.lands, io.deploys, io.others(4), (n: nat) => io.others(5 + n), start);
      audited := CloseAndLeave(id, io, start);
    }

    /** Runs the call and records how it and the read after it went. */
    method CallDeploy(id: nat, res0: R.Pass, desired: ServiceState, rt: ResourceType, fields: seq<string>, io: Script, ghost start: State)
      returns (res: R.Pass, p: R.Progress)
      requires Leads(start, db.View()) && id < |db.attempts| && InPlace(db.attempts[id]) && res0.err.None?
      requires io.lock.Applied? && io.row.Applied? && io.event.Applied?
      modifies db
      ensures Leads(start, db.View()) && db.issued == old(db.issued) + [DeployCall(desired), CloseStatement, UnlockStatement]
      ensures !io.release.Rejected? ==> Freed(db.View(), id)
      ensures id < |db.attempts| && SameAttempt(old(db.attempts[id]), db.attempts[id])
      ensures (p.DeployErrored? || p.Deployed?) && Shows(db.attempts[id], p) && Explained(io, Late(db.View(), id), p)
      ensures res == R.AfterDeploy(res0, desired, fields, rt, p, io.post)
    {
      res := res0;
      var deployed, audited := DeployAndClose(id, desired, io, start);
      if !deployed {
        res := res.(deployFailed := true);
        res := res.(err := Some(R.DeployFailed(!audited)));
        return res, R.DeployErrored(audited);
      }
      p := R.Deployed(audited);
      if !io.post.Live? {
        res := res.(err := Some(R.PostCheckFailed(!audited)));
        return;
      }
      res := res.(liveImage := io.post.state.imageDigest);
      res := res.(health := io.post.health);
      res := res.(status := R.Diffed(Compute(desired, io.post.state, fields, rt)));
      if !audited { res := res.(err := Some(R.AuditUpdateFailed)); }
    }

    /** The deploy section, with everything else interleaved: which statements it issues, how far it gets, and why. */
    method DeploySyncUnit(res0: R.Pass, unit: SyncUnit, desired0: ServiceState, live: ServiceState, rt: ResourceType, fields: seq<string>, io: Script, ghost start: State)
      returns (res: R.Pass, p: R.Progress, id: nat)
      requires Leads(start, db.View()) && res0.err.None?
      modifies db
      ensures Leads(start, db.View()) && db.issued == old(db.issued) + SectionOf(p, R.WriteOf(res0), DeployTarget(desired0, live, fields))
      ensures |old(db.attempts)| <= id < |db.attempts| && Shows(db.attempts[id], p)
      ensures Explained(io, Late(db.View(), id), p) && (p.LockHeld? ==> RowIsClaimed(db.View(), db.attempts[id]))
      ensures LeavesFree(io, p, db.View(), id)
      ensures db.attempts[id].unit == RowKey(unit) && db.attempts[id].digest == DeployTarget(desired0, live, fields).imageDigest
      ensures res == R.AfterDeploy(res0, DeployTarget(desired0, live, fields), fields, rt, p, io.post)
    {
      res := res0;
      var desired := desired0;
      if !FieldManaged(fields, "image") { desired := desired.(imageDigest := live.imageDigest); }
      SectionPieces(db.issued, R.WriteOf(res0), desired);
      var acquired;
      id, acquired := LockUnit(unit, desired.imageDigest, io, start);
      if acquired.None? {
        res := res.(err := Some(R.LockFailed));
        return res, R.LockErrored, id;
      }
      if !acquired.value {
        res := res.(err := Some(R.SyncInProgress));
        return res, R.LockHeld, id;
      }
      var stopped := WriteRows(id, res, desired, io, start);
      if stopped.Some? {
        res := res.(err := Some(if stopped.value.RowFailed? then R.RowUnwritten else R.EventUnwritten));
        return res, stopped.value, id;
      }
      res, p := CallDeploy(id, res, desired, rt, fields, io, start);
    }

    /** Folds the live read into the result, and deploys if the gate is open. */
    method ApplyLiveState(res0: R.Pass, unit: SyncUnit, desired: ServiceState, live: R.LiveAnswer, rt: ResourceType, fields: seq<string>,
                          opts: R.Options, io: Script, ghost start: State)
      returns (res: R.Pass, p: Option<R.Progress>, id: nat)
      requires Leads(start, db.View()) && res0.unit == unit && res0.err.Some? == res0.status.Invalid? && (res0.status.Invalid? || res0.status.Unset?)
      modifies db
      ensures Leads(start, db.View()) && db.issued == old(db.issued) + SaidBy(p, R.WithLive(res0, live, desired, fields, rt), TargetOf(Aim(desired, live, fields, rt)))
      ensures Followed(old(db.View()), db.View(), R.WithLive(res0, live, desired, fields, rt), Aim(desired, live, fields, rt), unit, opts, io, res, p, id)
    {
      res, p, id := res0, None, 0;
      if live.Absent? {
        res := res.(health := "Missing");
        if res.status.Unset? { res := res.(status := R.Missing); }
        if res.err.None? { res := res.(err := Some(R.NotProvisioned)); }
        return;
      }
      if live.Unreadable? {
        res := res.(health := "Invalid");
        if res.status.Unset? { res := res.(status := R.Invalid); }
        if res.err.None? { res := res.(err := Some(R.LiveUnreadable)); }
        return;
      }
      res := res.(liveImage := live.state.imageDigest);
      res := res.(health := live.health);
      if res.status.Unset? { res := res.(status := R.Diffed(Compute(desired, live.state, fields, rt))); }
      var blocked := res.status.Invalid? || res.status.Missing?;
      var open := SyncWindow.WindowsAllow(Config.WindowsOf(unit.sync), opts.now);
      var autoAllowed := R.Enabled(unit.sync.auto) && open;
      var wouldDeploy := !opts.dryRun && !blocked && (opts.force || (res.status == R.Diffed(OutOfSync) && autoAllowed));
      if wouldDeploy && res.observing {
        if opts.force && res.err.None? { res := res.(err := Some(R.ObserveMode)); }
        return;
      }
      if wouldDeploy {
        var progress;
        res, progress, id := DeploySyncUnit(res, unit, desired, live.state, rt, fields, io, start);
        p := Some(progress);
      }
    }

    method ResolveDigest(unit: SyncUnit, image: Image, tags: Option<Option<seq<ImageRef.Tag>>>) returns (r: Result<string, R.PassError>)
      ensures r == R.DesiredDigest(unit, image, tags)
    {
      if unit.track == "" && unit.version == "" { return Ok(image.digest); }
      if image.repository == "" { return Err(R.NoRepository); }
      if tags.None? { return Err(R.NoTagResolver); }
      if tags.value.None? { return Err(R.TagsUnlisted); }
      var resolved := Registry.Resolve(tags.value.value, unit.track, unit.version, R.Base(image.repository));
      r := if resolved.Ok? then Ok(resolved.value) else Err(R.OverrideUnresolved);
    }

    /** One pass over one unit, up to but not including the upsert that ends it. */
    method ReconcileUnit(unit: SyncUnit, w: R.World, opts: R.Options, io: Script, ghost start: State)
      returns (res: R.Pass, p: Option<R.Progress>, id: nat)
      requires Leads(start, db.View())
      modifies db
      ensures Leads(start, db.View()) && db.issued == old(db.issued) + SaidBy(p, R.Assess(managedFields, unit, w), R.Handed(managedFields, unit, w))
      ensures p.Some? <==> R.Gate(managedFields, unit, w, opts)
      ensures res == R.Concluded(managedFields, unit, w, opts, p, io.post)
      ensures p.None? ==> db.View() == old(db.View())
      ensures p.Some? ==>
        && |old(db.attempts)| <= id < |db.attempts| && Shows(db.attempts[id], p.value)
        && Explained(io, Late(db.View(), id), p.value) && LeavesFree(io, p.value, db.View(), id) && (p == Some(R.LockHeld) ==> RowIsClaimed(db.View(), db.attempts[id]))
        && db.attempts[id].unit == P.Unit(unit.app, unit.project)
        && db.attempts[id].digest == R.Handed(managedFields, unit, w).imageDigest
    {
      R.GateIsExact(managedFields, unit, w, opts);
      p, id := None, 0;
      res := R.Blank(unit);
      if w.manifest.Unfetched? {
        res := R.Invalidated(res, R.ManifestUnfetched);
        return;
      }
      var invalid := true;
      if w.manifest.Decoded? {
        var err := Validate(w.manifest.sd);
        invalid := err.Some?;
      }
      if invalid {
        res := R.Invalidated(res, R.ManifestInvalid);
        return;
      }
      res, p, id := ReconcileDefinition(res, unit, w, opts, io, start);
    }

    /** What the manifest and an override say, up to the desired digest. */
    method Describe(res0: R.Pass, unit: SyncUnit, sd: ServiceDefinition, tags: Option<Option<seq<ImageRef.Tag>>>)
      returns (res: R.Pass, digest: Result<string, R.PassError>)
      requires res0 == R.Blank(unit)
      ensures digest == R.DesiredDigest(unit, sd.image, tags)
      ensures match digest
        case Ok(d) => res == R.WithDigest(R.Described(unit, sd), unit, d)
        case Err(e) => res == R.Invalidated(R.Described(unit, sd), e)
    {
      res := res0;
      res := res.(resourceType := R.TypeText(sd.resourceType));
      res := res.(track := sd.image.track, version := sd.image.version, repository := sd.image.repository);
      digest := ResolveDigest(unit, sd.image, tags);
      if digest.Err? {
        res := R.Invalidated(res, digest.error);
        return;
      }
      if unit.track != "" || unit.version != "" { res := res.(track := unit.track, version := unit.version); }
      res := res.(desiredImage := digest.value);
    }

    method ReconcileDefinition(res0: R.Pass, unit: SyncUnit, w: R.World, opts: R.Options, io: Script, ghost start: State)
      returns (res: R.Pass, p: Option<R.Progress>, id: nat)
      requires Leads(start, db.View()) && w.manifest.Decoded? && res0 == R.Blank(unit)
      modifies db
      ensures Leads(start, db.View()) && db.issued == old(db.issued) + SaidBy(p, R.AssessDefinition(managedFields, unit, w, w.manifest.sd), R.Handed(managedFields, unit, w))
      ensures FollowedDefinition(old(db.View()), db.View(), managedFields, unit, w, opts, io, res, p, id)
    {
      p, id := None, 0;
      ghost var before := db.View();
      var digest;
      res, digest := Describe(res0, unit, w.manifest.sd, w.tags);
      if digest.Err? {
        UnresolvedIsWithheld(before, managedFields, unit, w, opts, io, res);
        return;
      }
      res, p, id := ReconcileDigest(res, unit, w, w.manifest.sd, digest.value, opts, io, start);
      ResolvedIsFollowed(before, db.View(), managedFields, unit, w, digest.value, opts, io, res, p, id);
    }

    /** The part of a pass that follows once the desired digest is known. */
    method ReconcileDigest(res0: R.Pass, unit: SyncUnit, w: R.World, sd: ServiceDefinition, digest: string, opts: R.Options, io: Script, ghost start: State)
      returns (res: R.Pass, p: Option<R.Progress>, id: nat)
      requires Leads(start, db.View()) && res0.unit == unit && res0.err.None? && res0.status.Unset?
      modifies db
      ensures Leads(start, db.View())
      ensures
        var fields := R.Fields(managedFields, unit);
        var failure := R.FailureOf(R.Required(sd.requirements, unit.ignorePreconditions), w.holds);
        var (assessed, aim) := (R.AssessLive(res0, failure, w.live, sd, digest, fields), Aim(DesiredState(sd, digest, fields), w.live, fields, sd.resourceType));
        Followed(old(db.View()), db.View(), assessed, aim, unit, opts, io, res, p, id) && db.issued == old(db.issued) + SaidBy(p, assessed, TargetOf(aim))
    {
      res, p, id := res0, None, 0;
      var required := R.FilterPreconditions(sd.requirements, unit.ignorePreconditions);
      var failure := R.CheckPreconditions(required, w.holds);
      if failure.Some? { res := res.(status := R.Invalid, err := failure); }
      var fields := R.EffectiveManagedFields(managedFields, unit.ignoreFields);
      if sd.resourceType.Job? && FieldManaged(fields, "env") && res.err.None? {
        res := R.Invalidated(res, R.EnvUnsupported);
        return;
      }
      res, p, id := ApplyLiveState(res, unit, DesiredState(sd, digest, fields), w.live, sd.resourceType, fields, opts, io, start);
    }

    /** A dry run: the bare assessment, and no change to the database on any path. */
    method DryRun(unit: SyncUnit, w: R.World, now: int, io: Script) returns (res: R.Pass)
      modifies db
      ensures db.View() == old(db.View()) && db.issued == old(db.issued)
      ensures res == R.Assess(managedFields, unit, w)
    {
      ghost var start := db.View();
      LeadsNowhere(start);
      R.DryRunPreviews(managedFields, unit, w, false, now, io.post);
      var p, id;
      res, p, id := ReconcileUnit(unit, w, R.Options(false, true, now), io, start);
    }

    /** The write that ends a pass which did not lose the lock. */
    method Persist(unit: SyncUnit, res: R.Pass, p: Option<R.Progress>, id0: nat, io: Script, final: Fate, ghost start: State)
      returns (written: bool, id: nat)
      requires Leads(start, db.View()) && p != Some(R.LockHeld)
      requires p.Some? ==> id0 < |db.attempts| && Shows(db.attempts[id0], p.value) && db.attempts[id0].unit == RowKey(unit)
      requires p.Some? ==> Explained(io, Late(db.View(), id0), p.value)
      modifies db
      ensures Leads(start, db.View()) && db.issued == old(db.issued) + [RowStatement(R.WriteOf(res))]
      ensures written <==> final.Applied?
      ensures Ended(if p.Some? then id0 else |old(db.attempts)|, db.View(), unit, io, res, p, id, final)
    {
      written, id := db.WriteResult(if p.Some? then Some(id0) else None, RowKey(unit), R.WriteOf(res), final, io.others(9), start);
    }

    /**
     A manual sync: the statements of the section, then one more write of the result, which succeeds exactly if it meets
     that fate. If another attempt holds the lock the pass issues its lock statement and nothing else, and nothing in the
     database is due to it.
     */
    method ManualSync(unit: SyncUnit, w: R.World, now: int, io: Script, final: Fate) returns (res: R.Pass, p: Option<R.Progress>, id: nat, written: bool)
      modifies db
      ensures Leads(old(db.View()), db.View()) && db.issued == old(db.issued) + PassOf(p, R.Assess(managedFields, unit, w), R.Handed(managedFields, unit, w), res)
      ensures p.Some? <==> R.Gate(managedFields, unit, w, R.Options(true, false, now))
      ensures res == R.Concluded(managedFields, unit, w, R.Options(true, false, now), p, io.post)
      ensures written <==> p != Some(R.LockHeld) && final.Applied?
      ensures Ended(|old(db.attempts)|, db.View(), unit, io, res, p, id, final)
      ensures p == Some(R.LockHeld) && Reachable(old(db.View())) ==> NoTrace(db.View(), id)
    {
      ghost var start := db.View();
      LeadsNowhere(start);
      res, p, id := ReconcileUnit(unit, w, R.Options(true, false, now), io, start);
      R.ConcludedSaysWhy(managedFields, unit, w, R.Options(true, false, now), p, io.post);
      written := false;
      if res.err == Some(R.SyncInProgress) {
        if Reachable(start) { LostLeavesNoTrace(start, db.View(), id); }
        return;
      }
      written, id := Persist(unit, res, p, id, io, final, start);
    }

    /** One worker of an automatic pass: the same, and failing to persist is recorded in the result. */
    method SyncOne(unit: SyncUnit, w: R.World, now: int, io: Script, final: Fate, ghost start: State)
      returns (res: R.Pass, p: Option<R.Progress>, id: nat, failed: bool)
      requires Leads(start, db.View())
      modifies db
      ensures Leads(start, db.View()) && db.issued == old(db.issued) + PassOf(p, R.Assess(managedFields, unit, w), R.Handed(managedFields, unit, w), res)
      ensures Processed(managedFields, unit, w, now, io.post, final, res, p, failed, PassOf(p, R.Assess(managedFields, unit, w), R.Handed(managedFields, unit, w), res))
      ensures Ended(|old(db.attempts)|, db.View(), unit, io, res, p, id, final)
      ensures p == Some(R.LockHeld) && Reachable(start) ==> NoTrace(db.View(), id)
    {
      res, p, id := ReconcileUnit(unit, w, R.Options(false, false, now), io, start);
      R.ConcludedSaysWhy(managedFields, unit, w, R.Options(false, false, now), p, io.post);
      PassPieces(old(db.issued), p, R.Assess(managedFields, unit, w), R.Handed(managedFields, unit, w), res);
      failed := false;
      if res.err == Some(R.SyncInProgress) {
        if Reachable(start) { LostLeavesNoTrace(start, db.View(), id); }
        return;
      }
      var written;
      written, id := Persist(unit, res, p, id, io, final, start);
      failed := !written;
      if failed && res.err.None? {
        NoteChangesNoColumn(res, res.(err := Some(R.UpsertFailed)));
        res := res.(err := Some(R.UpsertFailed));
      }
    }

    /** The worker of slot `i`. */
    method SyncSlot(i: nat, units: seq<SyncUnit>, worlds: seq<R.World>, now: int, ios: seq<Script>, finals: seq<Fate>, pending: set<nat>,
                    results: array<R.Pass>, ps: seq<Option<R.Progress>>, failed: seq<bool>,
                    ghost said: seq<seq<Statement>>, ghost start: State)
      returns (p: Option<R.Progress>, lost: bool, ghost mine: seq<Statement>)
      requires Leads(start, db.View()) && |worlds| == |ios| == |finals| == results.Length == |ps| == |failed| == |said| == |units| && i in pending && i < |units|
      requires AllProcessed(managedFields, units, worlds, now, ios, finals, results[..], ps, failed, said, pending)
      modifies db, results
      ensures Leads(start, db.View()) && db.issued == old(db.issued) + mine && !failed[i]
      ensures AllProcessed(managedFields, units, worlds, now, ios, finals, results[..], ps[i := p], failed[i := lost], said[i := mine], pending - {i})
    {
      var res, id;
      res, p, id, lost := SyncOne(units[i], worlds[i], now, ios[i], finals[i], start);
      mine := PassOf(p, R.Assess(managedFields, units[i], worlds[i]), R.Handed(managedFields, units[i], worlds[i]), res);
      ghost var before := results[..];
      results[i] := res;
      assert results[..] == before[i := res];
      ProcessedOneMore(managedFields, units, worlds, now, ios, finals, before, ps, failed, said, pending, i, res, p, lost, mine);
    }

    /**
     All units, finishing in any order: each pass issues its own statements in full, every slot holds its own unit's
     result, an error is returned exactly when some final write failed, and one failure spoils no other result.
     */
    method RunOnce(units: seq<SyncUnit>, worlds: seq<R.World>, now: int, ios: seq<Script>, finals: seq<Fate>)
      returns (results: array<R.Pass>, anyFailed: bool, ps: seq<Option<R.Progress>>, failed: seq<bool>,
               ghost order: seq<nat>, ghost said: seq<seq<Statement>>)
      requires |worlds| == |ios| == |finals| == |units|
      modifies db
      ensures Leads(old(db.View()), db.View())
      ensures results.Length == |ps| == |failed| == |said| == |units|
      ensures AllProcessed(managedFields, units, worlds, now, ios, finals, results[..], ps, failed, said, {})
      ensures anyFailed <==> exists i | 0 <= i < |units| :: ps[i] != Some(R.LockHeld) && !finals[i].Applied?
      ensures Finished(order, |units|, {})
      ensures db.issued == old(db.issued) + Passes(order, said)
    {
      ghost var start := db.View();
      LeadsNowhere(start);
      var n := |units|;
      results := new R.Pass[n](i requires 0 <= i < n => R.Blank(units[i]));
      ps, failed, anyFailed, order := seq(n, _ => None), seq(n, _ => false), false, [];
      said := seq(n, _ => []);
      var pending := Folders.Indexes(n);
      while pending != {}
        invariant pending <= Folders.Indexes(n)
        invariant Leads(start, db.View())
        invariant |ps| == |failed| == |said| == n
        invariant AllProcessed(managedFields, units, worlds, now, ios, finals, results[..], ps, failed, said, pending)
        invariant anyFailed <==> true in failed
        invariant Finished(order, n, pending)
        invariant db.issued == old(db.issued) + Passes(order, said)
        decreases |pending|
      {
        var i :| i in pending;
        ghost var mine;
        var p, lost;
        p, lost, mine := SyncSlot(i, units, worlds, now, ios, finals, pending, results, ps, failed, said, start);
        OneMore(failed, i, lost);
        PassesOneMore(old(db.issued), order, n, pending, said, i, mine);
        ps, said := ps[i := p], said[i := mine];
        failed := failed[i := lost];
        anyFailed := anyFailed || lost;
        order := order + [i];
        pending := pending - {i};
      }
      AllReported(managedFields, units, worlds, now, ios, finals, results[..], ps, failed, said);
    }
  }

  /** The units that are no longer pending, in the order in which they finished. */
  ghost predicate Finished(order: seq<nat>, n: nat, pending: set<nat>) {
    Distinct(order) && forall i: nat :: i in order <==> i < n && i !in pending
  }

  /** The statements of the passes in `order`, pass by pass. */
  ghost function Passes(order: seq<nat>, said: seq<seq<Statement>>): seq<Statement> {
    if order == [] then [] else
      var i := order[|order| - 1];
      Passes(order[..|order| - 1], said) + if i < |said| then said[i] else []
  }

  lemma {:induction false} PassesKept(order: seq<nat>, said: seq<seq<Statement>>, i: nat, mine: seq<Statement>)
    requires i !in order && i < |said|
    ensures Passes(order, said[i := mine]) == Passes(order, said)
  {
    if order != [] {
      assert order[|order| - 1] in order;
      PassesKept(order[..|order| - 1], said, i, mine);
    }
  }

  lemma PassesOneMore(issued: seq<Statement>, order: seq<nat>, n: nat, pending: set<nat>, said: seq<seq<Statement>>, i: nat, mine: seq<Statement>)
    requires Finished(order, n, pending) && i in pending && i < |said| == n
    ensures Finished(order + [i], n, pending - {i})
    ensures issued + Passes(order + [i], said[i := mine]) == issued + Passes(order, said) + mine
  {
    PassesKept(order, said, i, mine);
    assert (order + [i])[..|order|] == order;
    assert issued + (Passes(order, said) + mine) == issued + Passes(order, said) + mine;
    forall j: nat ensures j in order + [i] <==> j < n && j !in pending - {i} {}
  }

  /**
   A pass ended as its attempt `id`: its section stopped where it did for a reason, and unless the lock was lost or the
   statement rejected the attempt wrote the row once more, which says what the pass concluded.
   */
  ghost predicate Ended(first: nat, s: State, unit: SyncUnit, io: Script, res: R.Pass, p: Option<R.Progress>, id: nat, final: Fate) {
    && first <= id < |s.attempts| && s.attempts[id].unit == P.Unit(unit.app, unit.project)
    && (p.Some? ==> Explained(io, Late(s, id), p.value))
    && (p == Some(R.LockHeld) ==> RowIsClaimed(s, s.attempts[id]))
    && (p != Some(R.LockHeld) && !final.Rejected? ==> RowSays(s, P.Unit(unit.app, unit.project), R.WriteOf(res)) && WroteFinal in s.attempts[id].stamps)
  }

  lemma PassPieces(issued: seq<Statement>, p: Option<R.Progress>, assessed: R.Pass, target: ServiceState, res: R.Pass)
    ensures issued + SaidBy(p, assessed, target) + (if p == Some(R.LockHeld) then [] else [RowStatement(R.WriteOf(res))])
      == issued + PassOf(p, assessed, target, res)
  {
  }

  lemma NoteChangesNoColumn(a: R.Pass, b: R.Pass)
    requires b == a.(err := b.err)
    ensures R.WriteOf(b) == R.WriteOf(a)
  {
  }

  /** Every slot outside `pending` holds its own unit's result. */
  ghost predicate AllProcessed(fields: seq<string>, units: seq<SyncUnit>, worlds: seq<R.World>, now: int, ios: seq<Script>, finals: seq<Fate>,
                               results: seq<R.Pass>, ps: seq<Option<R.Progress>>, failed: seq<bool>, said: seq<seq<Statement>>, pending: set<nat>)
    requires |worlds| == |ios| == |finals| == |results| == |ps| == |failed| == |said| == |units|
  {
    forall i | 0 <= i < |units| ::
      if i in pending then !failed[i] else Processed(fields, units[i], worlds[i], now, ios[i].post, finals[i], results[i], ps[i], failed[i], said[i])
  }

  lemma ProcessedOneMore(fields: seq<string>, units: seq<SyncUnit>, worlds: seq<R.World>, now: int, ios: seq<Script>, finals: seq<Fate>,
                         results: seq<R.Pass>, ps: seq<Option<R.Progress>>, failed: seq<bool>, said: seq<seq<Statement>>, pending: set<nat>,
                         i: nat, res: R.Pass, p: Option<R.Progress>, lost: bool, mine: seq<Statement>)
    requires |worlds| == |ios| == |finals| == |results| == |ps| == |failed| == |said| == |units|
    requires AllProcessed(fields, units, worlds, now, ios, finals, results, ps, failed, said, pending)
    requires i in pending && i < |units| && Processed(fields, units[i], worlds[i], now, ios[i].post, finals[i], res, p, lost, mine)
    ensures !failed[i]
    ensures AllProcessed(fields, units, worlds, now, ios, finals, results[i := res], ps[i := p], failed[i := lost], said[i := mine], pending - {i})
  {
  }

  lemma AllReported(fields: seq<string>, units: seq<SyncUnit>, worlds: seq<R.World>, now: int, ios: seq<Script>, finals: seq<Fate>,
                    results: seq<R.Pass>, ps: seq<Option<R.Progress>>, failed: seq<bool>, said: seq<seq<Statement>>)
    requires |worlds| == |ios| == |finals| == |results| == |ps| == |failed| == |said| == |units|
    requires AllProcessed(fields, units, worlds, now, ios, finals, results, ps, failed, said, {})
    ensures true in failed <==> exists i | 0 <= i < |units| :: ps[i] != Some(R.LockHeld) && !finals[i].Applied?
  {
    if true in failed {
      var i :| 0 <= i < |failed| && failed[i];
      assert ps[i] != Some(R.LockHeld);
    }
  }

  lemma OneMore(failed: seq<bool>, i: nat, lost: bool)
    requires i < |failed| && !failed[i]
    ensures true in failed[i := lost] <==> true in failed || lost
  {
    if true in failed {
      var k :| 0 <= k < |failed| && failed[k];
      assert failed[i := lost][k];
    }
    if lost { assert failed[i := lost][i]; }
  }

  /** `res` is what an automatic pass over `unit` concludes, plus a note if it could not be persisted. */
  ghost predicate Processed(fields: seq<string>, unit: SyncUnit, w: R.World, now: int, post: R.LiveAnswer, final: Fate,
                            res: R.Pass, p: Option<R.Progress>, failed: bool, said: seq<Statement>) {
    var concluded := R.Concluded(fields, unit, w, R.Options(false, false, now), p, post);
    && (p.Some? <==> R.Gate(fields, unit, w, R.Options(false, false, now)))
    && res == (if failed then concluded.(err := R.OrElse(concluded.err, R.UpsertFailed)) else concluded)
    && (failed <==> p != Some(R.LockHeld) && !final.Applied?)
    && said == PassOf(p, R.Assess(fields, unit, w), R.Handed(fields, unit, w), res)
  }

  /** Nothing in the database or its log is due to attempt `id`. */
  ghost predicate NoTrace(s: State, id: nat) {
    && (forall k | 0 <= k < |s.log| :: s.log[k].who != id)
    && (forall e | 0 <= e < |s.events| :: s.events[e].owner != id)
  }

  lemma LostLeavesNoTrace(s: State, t: State, id: nat)
    requires Reachable(s) && Leads(s, t) && id < |t.attempts| && t.attempts[id].pc.Lost?
    ensures NoTrace(t, id)
  {
    LeadsKeepsReachable(s, t);
    LoserLeavesNoTrace(t, id);
  }

  /** Audit row `e` belongs to attempt `id`, carries its digest and, if closed for sure, how deploy went. */
  ghost predicate Records(s: State, e: nat, id: nat, p: R.Progress) {
    && e < |s.events| && id < |s.attempts|
    && s.events[e].owner == id && s.events[e].toImage == s.attempts[id].digest
    && (p == R.Deployed(true) ==> s.events[e].result.Succeeded?)
    && (p == R.DeployErrored(true) ==> s.events[e].result.Failed?)
  }

  /** What a pass reports about its deploy section is what the database and the log hold about its attempt. */
  lemma ResultsMatchRecords(s: State, id: nat, p: R.Progress)
    requires Reachable(s) && id < |s.attempts| && Shows(s.attempts[id], p)
    ensures CalledDeploy in s.attempts[id].stamps <==> p.DeployErrored? || p.Deployed?
    ensures p.DeployErrored? || p.Deployed? ==> exists e: nat :: Records(s, e, id, p)
    ensures p.Deployed? ==> Landed in s.attempts[id].stamps
    ensures p.LockHeld? ==> NoTrace(s, id)
  {
    ReachableInv(s);
    assert Local(s.attempts[id]);
    if p.LockHeld? { LoserLeavesNoTrace(s, id); }
    if CalledDeploy in s.attempts[id].stamps {
      var e := EveryCallIsAudited(s, id);
      ClosedRowsAreTruthful(s, e);
      assert Records(s, e, id, p);
    }
  }
}
