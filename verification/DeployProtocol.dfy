/**
 The per-unit deploy protocol as a machine over the shared Postgres rows.

 Any number of attempts (auto loop or manual sync, on any replica) interleave with each other and
 with the clock, lose replies, time out, crash and release late. A run is a list of actions; every
 statement about runs is about every list of actions that the machine can execute.

 Assumptions built into the machine:
 - all replicas and the database read one clock;
 - a call bounded by a context has no effect after that context's deadline, and a call that returned success has had
   its effect; one that returned an error early may still take effect until the deadline;
 - the tokens of two attempts that have both not yet finished with the lock are distinct.
 */
module DeployProtocol {
  import opened Wrappers
  import Applications

  /** Two minutes, in nanoseconds. */
  const LOCK_TTL: int := 120_000_000_000

  datatype Unit = Unit(app: string, project: string)

  datatype Lock = Lock(holder: string, expiresAt: int)

  datatype Outcome = InProgress | Succeeded | Failed

  /** A row of `sync_events`; its id is its position. */
  datatype Event = Event(owner: nat, unit: Unit, toImage: string, result: Outcome)

  datatype Pc =
    | Locking                 // deadline fixed, about to take the lock
    | Upserting               // lock taken, about to write the applications row
    | Inserting               // about to insert the audit row
    | Calling                 // audit row in place, about to call deploy
    | Deploying               // inside the deploy call
    | Closing(ok: bool)       // deploy returned, about to close the audit row
    | Releasing               // about to release the lock
    | Finishing               // lock section left, caller's own upsert still to come
    | Done
    | Lost                    // another attempt holds the lock
    | Crashed

  /** What an attempt leaves in the log; each kind at most once per attempt. */
  datatype Kind = TookLock | WroteRow | WroteEvent | CalledDeploy | Landed | DeployReturned | ClosedEvent | DroppedLock | WroteFinal

  datatype LogEntry = LogEntry(who: nat, kind: Kind)

  datatype Attempt = Attempt(
    unit: Unit,
    token: string,
    digest: string,
    deadline: int,
    pc: Pc,
    calling: bool,            // a deploy request was sent and has not returned success
    returned: Option<bool>,   // how deploy returned
    event: Option<nat>,       // the audit row this attempt inserted
    stamps: map<Kind, nat>)   // where in the log each of its entries stands

  datatype State = State(
    now: int,
    locks: map<Unit, Lock>,
    apps: map<Unit, Applications.Row>,
    events: seq<Event>,
    attempts: seq<Attempt>,
    log: seq<LogEntry>)

  /** Whether a statement committed, and whether its caller learnt so. */
  datatype Fate = Applied | Unacknowledged | Rejected

  datatype Action =
    | Tick(now: int)
    | Start(unit: Unit, token: string, digest: string)
    | Acquire(id: nat, at: int, fate: Fate)
    | Upsert(id: nat, write: Applications.Write, fate: Fate)
    | Insert(id: nat, fate: Fate)
    | Call(id: nat)
    | Land(id: nat)
    | Return(id: nat, ok: bool)
    | Close(id: nat, fate: Fate)
    | Release(id: nat, fate: Fate)
    | Final(id: nat, write: Applications.Write, fate: Fate)
    | Skip(unit: Unit)        // a pass that does not enter the section; only its final write is to come
    | Crash(id: nat)

  function Init(now: int, apps: map<Unit, Applications.Row>): State {
    State(now, map[], apps, [], [], [])
  }

  // ---------------------------------------------------------------- statements

  /** acquireLock's statement at database time `at`; the row count says whether it claimed the row. */
  function AcquireLock(locks: map<Unit, Lock>, unit: Unit, token: string, at: int): (map<Unit, Lock>, bool) {
    if unit !in locks || locks[unit].expiresAt < at then
      (locks[unit := Lock(token, at + LOCK_TTL)], true)
    else
      (locks, false)
  }

  /** releaseLock's DELETE, which only removes the row while `token` is its holder. */
  function ReleaseLock(locks: map<Unit, Lock>, unit: Unit, token: string): map<Unit, Lock> {
    if unit in locks && locks[unit].holder == token then locks - {unit} else locks
  }

  function UpsertRow(apps: map<Unit, Applications.Row>, unit: Unit, w: Applications.Write, now: int): map<Unit, Applications.Row> {
    apps[unit := Applications.Upsert(if unit in apps then Some(apps[unit]) else None, w, now)]
  }

  function CloseEvent(events: seq<Event>, id: nat, result: Outcome): seq<Event> {
    if id < |events| then events[id := events[id].(result := result)] else events
  }

  // ---------------------------------------------------------------- transitions

  predicate Unfinished(a: Attempt) {
    a.pc.Locking? || InSection(a)
  }

  /** Took the lock and has not yet left the section that ends with its release. */
  predicate InSection(a: Attempt) {
    a.pc.Upserting? || a.pc.Inserting? || a.pc.Calling? || a.pc.Deploying? || a.pc.Closing? || a.pc.Releasing?
  }

  predicate At(s: State, id: nat, pc: Pc) {
    id < |s.attempts| && s.attempts[id].pc == pc
  }

  /** A statement under the attempt's context can only commit while that context is alive. */
  predicate InTime(s: State, id: nat, fate: Fate)
    requires id < |s.attempts|
  {
    fate.Rejected? || s.now <= s.attempts[id].deadline
  }

  predicate Enabled(s: State, act: Action) {
    match act
    case Tick(t) => s.now <= t
    case Start(_, token, _) =>
      forall i :: 0 <= i < |s.attempts| && Unfinished(s.attempts[i]) ==> s.attempts[i].token != token
    case Acquire(id, at, fate) =>
      At(s, id, Locking) && InTime(s, id, fate) && s.attempts[id].deadline - LOCK_TTL <= at <= s.now
    case Upsert(id, _, fate) => At(s, id, Upserting) && InTime(s, id, fate)
    case Insert(id, fate) =>
      // the foreign key on applications makes the statement fail without that row
      At(s, id, Inserting) && InTime(s, id, fate) && (!fate.Rejected? ==> s.attempts[id].unit in s.apps)
    case Call(id) => At(s, id, Calling)
    case Land(id) =>
      && id < |s.attempts|
      && s.attempts[id].calling
      && Landed !in s.attempts[id].stamps
      && s.now <= s.attempts[id].deadline
    case Return(id, ok) => At(s, id, Deploying) && (ok ==> Landed in s.attempts[id].stamps)
    case Close(id, _) => id < |s.attempts| && s.attempts[id].pc.Closing?
    case Release(id, _) => At(s, id, Releasing)
    case Final(id, _, _) => At(s, id, Finishing)
    case Skip(_) => true
    case Crash(id) => id < |s.attempts| && (Unfinished(s.attempts[id]) || s.attempts[id].pc.Finishing?)
  }

  function Put(s: State, id: nat, a: Attempt): State
    requires id < |s.attempts|
  {
    s.(attempts := s.attempts[id := a])
  }

  /** The attempt becomes `a` and leaves an entry of `kind` in the log. */
  function PutLogged(s: State, id: nat, a: Attempt, kind: Kind): State
    requires id < |s.attempts|
  {
    s.(attempts := s.attempts[id := a.(stamps := a.stamps[kind := |s.log|])], log := s.log + [LogEntry(id, kind)])
  }

  function Apply(s: State, act: Action): State
    requires Enabled(s, act)
  {
    match act
    case Tick(t) => s.(now := t)
    case Start(unit, token, digest) =>
      s.(attempts := s.attempts + [Attempt(unit, token, digest, s.now + LOCK_TTL, Locking, false, None, None, map[])])
    case Acquire(id, at, fate) => ApplyAcquire(s, id, at, fate)
    case Upsert(id, w, fate) =>
      var a := s.attempts[id];
      if fate.Rejected? then Put(s, id, a.(pc := Releasing))
      else PutLogged(s.(apps := UpsertRow(s.apps, a.unit, w, s.now)), id,
                     a.(pc := if fate.Applied? then Inserting else Releasing), WroteRow)
    case Insert(id, fate) => ApplyInsert(s, id, fate)
    case Call(id) => PutLogged(s, id, s.attempts[id].(pc := Deploying, calling := true), CalledDeploy)
    case Land(id) => PutLogged(s, id, s.attempts[id], Landed)
    case Return(id, ok) =>
      PutLogged(s, id, s.attempts[id].(pc := Closing(ok), calling := !ok, returned := Some(ok)), DeployReturned)
    case Close(id, fate) => ApplyClose(s, id, fate)
    case Release(id, fate) =>
      var a := s.attempts[id];
      if fate.Rejected? then Put(s, id, a.(pc := Finishing))
      else PutLogged(s.(locks := ReleaseLock(s.locks, a.unit, a.token)), id, a.(pc := Finishing), DroppedLock)
    case Final(id, w, fate) =>
      var a := s.attempts[id];
      if fate.Rejected? then Put(s, id, a.(pc := Done))
      else PutLogged(s.(apps := UpsertRow(s.apps, a.unit, w, s.now)), id, a.(pc := Done), WroteFinal)
    case Skip(unit) => s.(attempts := s.attempts + [Attempt(unit, "", "", s.now, Finishing, false, None, None, map[])])
    case Crash(id) => Put(s, id, s.attempts[id].(pc := Crashed))
  }

  function ApplyAcquire(s: State, id: nat, at: int, fate: Fate): State
    requires id < |s.attempts|
  {
    var a := s.attempts[id];
    if fate.Rejected? then Put(s, id, a.(pc := Finishing))
    else
      var (locks, claimed) := AcquireLock(s.locks, a.unit, a.token, at);
      if !claimed then Put(s, id, a.(pc := if fate.Applied? then Lost else Finishing))
      else PutLogged(s.(locks := locks), id, a.(pc := if fate.Applied? then Upserting else Finishing), TookLock)
  }

  function ApplyInsert(s: State, id: nat, fate: Fate): State
    requires id < |s.attempts|
  {
    var a := s.attempts[id];
    if fate.Rejected? then Put(s, id, a.(pc := Releasing))
    else PutLogged(s.(events := s.events + [Event(id, a.unit, a.digest, InProgress)]), id,
                   a.(pc := if fate.Applied? then Calling else Releasing, event := Some(|s.events|)), WroteEvent)
  }

  function ApplyClose(s: State, id: nat, fate: Fate): State
    requires id < |s.attempts| && s.attempts[id].pc.Closing?
  {
    var a := s.attempts[id];
    if fate.Rejected? || a.event.None? then Put(s, id, a.(pc := Releasing))
    else PutLogged(s.(events := CloseEvent(s.events, a.event.value, if a.pc.ok then Succeeded else Failed)), id,
                   a.(pc := Releasing), ClosedEvent)
  }

  // ---------------------------------------------------------------- runs

  predicate CanRun(s: State, acts: seq<Action>)
    decreases |acts|
  {
    acts == [] || (Enabled(s, acts[0]) && CanRun(Apply(s, acts[0]), acts[1..]))
  }

  function Run(s: State, acts: seq<Action>): State
    requires CanRun(s, acts)
    decreases |acts|
  {
    if acts == [] then s else Run(Apply(s, acts[0]), acts[1..])
  }

  lemma {:induction false} RunConcat(s: State, xs: seq<Action>, ys: seq<Action>)
    requires CanRun(s, xs) && CanRun(Run(s, xs), ys)
    ensures CanRun(s, xs + ys) && Run(s, xs + ys) == Run(Run(s, xs), ys)
    decreases |xs|
  {
    if xs == [] {
      assert xs + ys == ys;
    } else {
      RunConcat(Apply(s, xs[0]), xs[1..], ys);
      assert (xs + ys)[1..] == xs[1..] + ys;
    }
  }

  // ---------------------------------------------------------------- invariant

  /** With the context still alive: inside the lock section, or with a request outstanding and the lock not dropped. */
  predicate Holding(s: State, a: Attempt) {
    s.now <= a.deadline && (InSection(a) || (a.calling && DroppedLock !in a.stamps))
  }

  /** Entry `k` implies entry `j`, and `j` stands earlier in the log. */
  ghost predicate After(a: Attempt, k: Kind, j: Kind) {
    k in a.stamps ==> j in a.stamps && a.stamps[j] < a.stamps[k]
  }

  ghost predicate Trail(a: Attempt) {
    && After(a, WroteRow, TookLock)
    && After(a, WroteEvent, WroteRow)
    && After(a, CalledDeploy, WroteEvent)
    && After(a, Landed, CalledDeploy)
    && After(a, DeployReturned, CalledDeploy)
    && After(a, ClosedEvent, DeployReturned)
  }

  /** What the program counter says about the entries written so far. */
  ghost predicate Local(a: Attempt) {
    && Trail(a)
    && (a.calling ==> CalledDeploy in a.stamps && a.returned != Some(true))
    && (a.pc.Deploying? ==> a.calling && DeployReturned !in a.stamps)
    && (a.calling && DeployReturned !in a.stamps ==> (a.pc.Deploying? || a.pc.Crashed?) && DroppedLock !in a.stamps)
    && (a.returned.Some? <==> DeployReturned in a.stamps)
    && (a.returned == Some(true) ==> Landed in a.stamps && a.stamps[Landed] < a.stamps[DeployReturned])
    && (DeployReturned in a.stamps && DroppedLock in a.stamps ==> a.stamps[DeployReturned] < a.stamps[DroppedLock])
    && (a.event.Some? <==> WroteEvent in a.stamps)
    && (a.pc.Locking? || a.pc.Lost? ==> a.stamps == map[])
    && (InSection(a) ==> TookLock in a.stamps)
    && (a.pc.Upserting? ==> WroteRow !in a.stamps)
    && (a.pc.Inserting? ==> WroteRow in a.stamps && WroteEvent !in a.stamps)
    && (a.pc.Calling? ==> WroteEvent in a.stamps && CalledDeploy !in a.stamps)
    && (a.pc.Closing? ==> a.returned == Some(a.pc.ok) && ClosedEvent !in a.stamps)
    && (Unfinished(a) || a.pc.Finishing? || a.pc.Lost? ==> WroteFinal !in a.stamps)
    && (Unfinished(a) ==> DroppedLock !in a.stamps)
  }

  ghost predicate Locals(s: State) {
    forall i :: 0 <= i < |s.attempts| ==> Local(s.attempts[i])
  }

  /** The log and the stamps describe each other, so no attempt logs a kind twice. */
  ghost predicate LogInv(s: State) {
    && (forall i, k :: 0 <= i < |s.attempts| && k in s.attempts[i].stamps ==>
          s.attempts[i].stamps[k] < |s.log| && s.log[s.attempts[i].stamps[k]] == LogEntry(i, k))
    && (forall p :: 0 <= p < |s.log| ==>
          && s.log[p].who < |s.attempts|
          && s.log[p].kind in s.attempts[s.log[p].who].stamps
          && s.attempts[s.log[p].who].stamps[s.log[p].kind] == p)
  }

  ghost predicate EventOf(s: State, e: nat)
    requires e < |s.events|
  {
    var ev := s.events[e];
    && ev.owner < |s.attempts|
    && var a := s.attempts[ev.owner];
    && a.event == Some(e)
    && ev.unit == a.unit
    && ev.toImage == a.digest
    && (ev.result.InProgress? <==> ClosedEvent !in a.stamps)
    && (ev.result.Succeeded? ==> a.returned == Some(true))
    && (ev.result.Failed? ==> a.returned == Some(false))
  }

  ghost predicate EventInv(s: State) {
    && (forall e :: 0 <= e < |s.events| ==> EventOf(s, e))
    && (forall i :: 0 <= i < |s.attempts| && s.attempts[i].event.Some? ==>
          s.attempts[i].event.value < |s.events| && s.events[s.attempts[i].event.value].owner == i)
    && (forall i :: 0 <= i < |s.attempts| && WroteRow in s.attempts[i].stamps ==> s.attempts[i].unit in s.apps)
  }

  ghost predicate Ids(s: State, i: int, j: int) {
    0 <= i < |s.attempts| && 0 <= j < |s.attempts| && i != j
  }

  /** Audit rows are numbered in the order in which they were inserted. */
  ghost predicate EventOrder(s: State) {
    forall i, j | Ids(s, i, j) && s.attempts[i].event.Some? && s.attempts[j].event.Some?
      && WroteEvent in s.attempts[i].stamps && WroteEvent in s.attempts[j].stamps ::
      s.attempts[i].event.value < s.attempts[j].event.value <==> s.attempts[i].stamps[WroteEvent] < s.attempts[j].stamps[WroteEvent]
  }

  ghost predicate TokenInv(s: State) {
    && (forall i, j | Ids(s, i, j) && Unfinished(s.attempts[i]) && Unfinished(s.attempts[j]) ::
          s.attempts[i].token != s.attempts[j].token)
    && (forall i, j | Ids(s, i, j) && s.attempts[i].unit == s.attempts[j].unit
          && Holding(s, s.attempts[i]) && InSection(s.attempts[j]) ::
          s.attempts[i].token != s.attempts[j].token)
  }

  /** The lock row outlives the context of whoever is in the section. */
  ghost predicate LockInv(s: State) {
    forall i :: 0 <= i < |s.attempts| && Holding(s, s.attempts[i]) ==>
      var a := s.attempts[i];
      a.unit in s.locks && s.locks[a.unit].holder == a.token && a.deadline <= s.locks[a.unit].expiresAt
  }

  ghost predicate Took(a: Attempt) { TookLock in a.stamps }

  /** The deploy took effect before the attempt dropped its lock. */
  ghost predicate LandedInside(a: Attempt) {
    Landed in a.stamps && (DroppedLock in a.stamps ==> a.stamps[Landed] < a.stamps[DroppedLock])
  }

  /** Once a later attempt has taken the unit's lock, an earlier one is over and done with. */
  ghost predicate Superseded(s: State, a: Attempt, b: Attempt)
    requires Took(a) && Took(b)
  {
    && !Holding(s, a)
    && (WroteEvent in a.stamps ==> a.stamps[WroteEvent] < b.stamps[TookLock])
    && (LandedInside(a) ==> a.stamps[Landed] < b.stamps[TookLock])
  }

  ghost predicate OrderInv(s: State) {
    forall i, j | Ids(s, i, j) && s.attempts[i].unit == s.attempts[j].unit
      && Took(s.attempts[i]) && Took(s.attempts[j])
      && s.attempts[i].stamps[TookLock] < s.attempts[j].stamps[TookLock] ::
      Superseded(s, s.attempts[i], s.attempts[j])
  }

  ghost predicate Inv(s: State) {
    Locals(s) && LogInv(s) && EventInv(s) && EventOrder(s) && TokenInv(s) && LockInv(s) && OrderInv(s)
  }

  // ---------------------------------------------------------------- preservation

  /** The fields fixed when the attempt starts. */
  ghost predicate SameAttempt(a: Attempt, b: Attempt) {
    a.unit == b.unit && a.token == b.token && a.digest == b.digest && a.deadline == b.deadline
  }

  /** Only attempt `id` moved, and no time passed. */
  ghost predicate Moves(s: State, t: State, id: nat) {
    && id < |s.attempts|
    && |t.attempts| == |s.attempts|
    && t.now == s.now
    && (forall i | 0 <= i < |s.attempts| && i != id :: t.attempts[i] == s.attempts[i])
    && SameAttempt(s.attempts[id], t.attempts[id])
  }

  /** The id of the attempt an action belongs to. */
  function Who(act: Action): Option<nat> {
    match act
    case Tick(_) => None
    case Start(_, _, _) => None
    case Skip(_) => None
    case Acquire(id, _, _) => Some(id)
    case Upsert(id, _, _) => Some(id)
    case Insert(id, _) => Some(id)
    case Call(id) => Some(id)
    case Land(id) => Some(id)
    case Return(id, _) => Some(id)
    case Close(id, _) => Some(id)
    case Release(id, _) => Some(id)
    case Final(id, _, _) => Some(id)
    case Crash(id) => Some(id)
  }

  /** The stamps of attempt `id` point into the log as it stands. */
  ghost predicate Past(s: State, id: nat)
    requires id < |s.attempts|
  {
    forall k :: k in s.attempts[id].stamps ==> s.attempts[id].stamps[k] < |s.log|
  }

  /** Each own step keeps the attempt's local shape and touches no other attempt. */
  ghost predicate LocalStep(s: State, act: Action, id: nat)
    requires Enabled(s, act) && id < |s.attempts|
  {
    var t := Apply(s, act);
    Moves(s, t, id) && Local(t.attempts[id])
  }

  /** An attempt about to lock is as Start made it, so both outcomes are easy to describe. */
  lemma LocalClaimed(a: Attempt, pc: Pc, pos: nat)
    requires Local(a) && a.pc.Locking? && (pc.Upserting? || pc.Finishing?)
    ensures Local(a.(pc := pc, stamps := a.stamps[TookLock := pos]))
  {
  }

  lemma LocalAcquire(s: State, id: nat, at: int, fate: Fate)
    requires Enabled(s, Acquire(id, at, fate)) && Local(s.attempts[id])
    ensures LocalStep(s, Acquire(id, at, fate), id)
  {
    LocalClaimed(s.attempts[id], if fate.Applied? then Upserting else Finishing, |s.log|);
  }

  lemma LocalUpsert(s: State, id: nat, w: Applications.Write, fate: Fate)
    requires Enabled(s, Upsert(id, w, fate)) && Local(s.attempts[id]) && Past(s, id)
    ensures LocalStep(s, Upsert(id, w, fate), id)
  {
  }

  lemma LocalInsert(s: State, id: nat, fate: Fate)
    requires Enabled(s, Insert(id, fate)) && Local(s.attempts[id]) && Past(s, id)
    ensures LocalStep(s, Insert(id, fate), id)
  {
  }

  lemma LocalCall(s: State, id: nat)
    requires Enabled(s, Call(id)) && Local(s.attempts[id]) && Past(s, id)
    ensures LocalStep(s, Call(id), id)
  {
  }

  lemma LocalLand(s: State, id: nat)
    requires Enabled(s, Land(id)) && Local(s.attempts[id]) && Past(s, id)
    ensures LocalStep(s, Land(id), id)
  {
  }

  lemma LocalReturn(s: State, id: nat, ok: bool)
    requires Enabled(s, Return(id, ok)) && Local(s.attempts[id]) && Past(s, id)
    ensures LocalStep(s, Return(id, ok), id)
  {
  }

  lemma LocalClose(s: State, id: nat, fate: Fate)
    requires Enabled(s, Close(id, fate)) && Local(s.attempts[id]) && Past(s, id)
    ensures LocalStep(s, Close(id, fate), id)
  {
  }

  lemma LocalRelease(s: State, id: nat, fate: Fate)
    requires Enabled(s, Release(id, fate)) && Local(s.attempts[id]) && Past(s, id)
    ensures LocalStep(s, Release(id, fate), id)
  {
  }

  lemma LocalFinal(s: State, id: nat, w: Applications.Write, fate: Fate)
    requires Enabled(s, Final(id, w, fate)) && Local(s.attempts[id]) && Past(s, id)
    ensures LocalStep(s, Final(id, w, fate), id)
  {
  }

  lemma LocalCrash(s: State, id: nat)
    requires Enabled(s, Crash(id)) && Local(s.attempts[id]) && Past(s, id)
    ensures LocalStep(s, Crash(id), id)
  {
  }

  // Each of the next lemmas is about one part of the invariant and one attempt's move, and names
  // only what that part needs to know about the move.

  lemma LogKept(s: State, t: State, id: nat)
    requires LogInv(s) && Moves(s, t, id) && t.log == s.log && t.attempts[id].stamps == s.attempts[id].stamps
    ensures LogInv(t)
  {
  }

  lemma LogExtended(s: State, t: State, id: nat, k: Kind)
    requires LogInv(s) && Moves(s, t, id) && k !in s.attempts[id].stamps
    requires t.log == s.log + [LogEntry(id, k)] && t.attempts[id].stamps == s.attempts[id].stamps[k := |s.log|]
    ensures LogInv(t)
  {
    forall i, j | 0 <= i < |t.attempts| && j in t.attempts[i].stamps
      ensures t.attempts[i].stamps[j] < |t.log| && t.log[t.attempts[i].stamps[j]] == LogEntry(i, j)
    {
      if !(i == id && j == k) {
        assert j in s.attempts[i].stamps;
      }
    }
    forall p | 0 <= p < |t.log|
      ensures t.log[p].who < |t.attempts| && t.log[p].kind in t.attempts[t.log[p].who].stamps
      ensures t.attempts[t.log[p].who].stamps[t.log[p].kind] == p
    {
      if p < |s.log| {
        assert t.log[p] == s.log[p];
      }
    }
  }

  /** Nobody else is inside the section of this attempt's unit with a live context. */
  ghost predicate Alone(s: State, id: nat)
    requires id < |s.attempts|
  {
    forall i | 0 <= i < |s.attempts| && i != id && s.attempts[i].unit == s.attempts[id].unit :: !Holding(s, s.attempts[i])
  }

  lemma TokensKept(s: State, t: State, id: nat)
    requires TokenInv(s) && Moves(s, t, id)
    requires Unfinished(t.attempts[id]) ==> Unfinished(s.attempts[id])
    requires InSection(t.attempts[id]) ==> InSection(s.attempts[id]) || (s.attempts[id].pc.Locking? && Alone(s, id))
    requires Holding(t, t.attempts[id]) ==> Holding(s, s.attempts[id]) || s.attempts[id].pc.Locking?
    ensures TokenInv(t)
  {
    forall i, j | Ids(t, i, j) && t.attempts[i].unit == t.attempts[j].unit && Holding(t, t.attempts[i]) && InSection(t.attempts[j])
      ensures t.attempts[i].token != t.attempts[j].token
    {
      if i != id && j != id {
        assert Ids(s, i, j) && Holding(s, s.attempts[i]) && InSection(s.attempts[j]);
      } else if i == id {
        assert Ids(s, i, j) && (Holding(s, s.attempts[i]) || (Unfinished(s.attempts[i]) && Unfinished(s.attempts[j])));
      } else {
        assert Ids(s, i, j) && Holding(s, s.attempts[i]);
      }
    }
    forall i, j | Ids(t, i, j) && Unfinished(t.attempts[i]) && Unfinished(t.attempts[j])
      ensures t.attempts[i].token != t.attempts[j].token
    {
      assert Ids(s, i, j) && Unfinished(s.attempts[i]) && Unfinished(s.attempts[j]);
    }
  }

  lemma LocksKept(s: State, t: State, id: nat)
    requires LockInv(s) && Moves(s, t, id) && t.locks == s.locks
    requires Holding(t, t.attempts[id]) ==> Holding(s, s.attempts[id])
    ensures LockInv(t)
  {
  }

  /** Nothing enters the section twice, and only a live section leaves entries that matter to order. */
  lemma OrderKept(s: State, t: State, id: nat)
    requires OrderInv(s) && Moves(s, t, id) && LogInv(s)
    requires Holding(t, t.attempts[id]) ==> Holding(s, s.attempts[id])
    requires Took(t.attempts[id]) <==> Took(s.attempts[id])
    requires Took(s.attempts[id]) ==> t.attempts[id].stamps[TookLock] == s.attempts[id].stamps[TookLock]
    requires WroteEvent in t.attempts[id].stamps ==>
               Holding(s, s.attempts[id]) || (WroteEvent in s.attempts[id].stamps && s.attempts[id].stamps[WroteEvent] == t.attempts[id].stamps[WroteEvent])
    requires LandedInside(t.attempts[id]) ==>
               Holding(s, s.attempts[id]) || (LandedInside(s.attempts[id]) && s.attempts[id].stamps[Landed] == t.attempts[id].stamps[Landed])
    ensures OrderInv(t)
  {
    forall i, j | Ids(t, i, j) && t.attempts[i].unit == t.attempts[j].unit && Took(t.attempts[i]) && Took(t.attempts[j])
      && t.attempts[i].stamps[TookLock] < t.attempts[j].stamps[TookLock]
      ensures Superseded(t, t.attempts[i], t.attempts[j])
    {
      assert Ids(s, i, j) && Superseded(s, s.attempts[i], s.attempts[j]);
    }
  }

  lemma OrderExtended(s: State, t: State, id: nat)
    requires OrderInv(s) && Moves(s, t, id) && LogInv(s) && Alone(s, id)
    requires s.attempts[id].stamps == map[] && t.attempts[id].stamps == map[TookLock := |s.log|]
    ensures OrderInv(t)
  {
    forall i, j | Ids(t, i, j) && t.attempts[i].unit == t.attempts[j].unit && Took(t.attempts[i]) && Took(t.attempts[j])
      && t.attempts[i].stamps[TookLock] < t.attempts[j].stamps[TookLock]
      ensures Superseded(t, t.attempts[i], t.attempts[j])
    {
      assert Ids(s, i, j);
      if j != id {
        assert i != id && Superseded(s, s.attempts[i], s.attempts[j]);
      }
    }
  }

  /** The audit table is untouched and the move says nothing new about a row. */
  lemma EventsKept(s: State, t: State, id: nat)
    requires EventInv(s) && EventOrder(s) && Moves(s, t, id) && Local(t.attempts[id])
    requires t.events == s.events && s.apps.Keys <= t.apps.Keys
    requires t.attempts[id].event == s.attempts[id].event
    requires s.attempts[id].returned.Some? ==> t.attempts[id].returned == s.attempts[id].returned
    requires ClosedEvent in t.attempts[id].stamps <==> ClosedEvent in s.attempts[id].stamps
    requires WroteRow in t.attempts[id].stamps ==> WroteRow in s.attempts[id].stamps || t.attempts[id].unit in t.apps
    requires WroteEvent in t.attempts[id].stamps ==>
               WroteEvent in s.attempts[id].stamps && t.attempts[id].stamps[WroteEvent] == s.attempts[id].stamps[WroteEvent]
    ensures EventInv(t) && EventOrder(t)
  {
    forall e | 0 <= e < |t.events| ensures EventOf(t, e) {
      assert EventOf(s, e);
    }
    forall i, j | Ids(t, i, j) && t.attempts[i].event.Some? && t.attempts[j].event.Some?
      && WroteEvent in t.attempts[i].stamps && WroteEvent in t.attempts[j].stamps
      ensures t.attempts[i].event.value < t.attempts[j].event.value <==> t.attempts[i].stamps[WroteEvent] < t.attempts[j].stamps[WroteEvent]
    {
      assert Ids(s, i, j);
    }
  }

  /** The attempt inserted its audit row, the last one so far. */
  ghost predicate Adds(s: State, t: State, id: nat) {
    && Moves(s, t, id)
    && s.attempts[id].event.None? && t.attempts[id].event == Some(|s.events|)
    && t.events == s.events + [Event(id, s.attempts[id].unit, s.attempts[id].digest, InProgress)]
    && t.apps == s.apps && t.attempts[id].unit in t.apps
    && ClosedEvent !in t.attempts[id].stamps
    && WroteEvent in t.attempts[id].stamps && t.attempts[id].stamps[WroteEvent] == |s.log|
  }

  lemma EventAdded(s: State, t: State, id: nat)
    requires EventInv(s) && EventOrder(s) && LogInv(s) && Locals(s) && Adds(s, t, id) && Local(t.attempts[id])
    ensures EventInv(t) && EventOrder(t)
  {
    EventAddedOrder(s, t, id);
    forall e | 0 <= e < |t.events| ensures EventOf(t, e) {
      if e < |s.events| {
        assert EventOf(s, e);
      }
    }
  }

  lemma EventAddedOrder(s: State, t: State, id: nat)
    requires EventInv(s) && EventOrder(s) && LogInv(s) && Adds(s, t, id)
    ensures EventOrder(t)
  {
    forall i, j | Ids(t, i, j) && t.attempts[i].event.Some? && t.attempts[j].event.Some?
      && WroteEvent in t.attempts[i].stamps && WroteEvent in t.attempts[j].stamps
      ensures t.attempts[i].event.value < t.attempts[j].event.value <==> t.attempts[i].stamps[WroteEvent] < t.attempts[j].stamps[WroteEvent]
    {
      assert Ids(s, i, j);
    }
  }

  lemma EventClosed(s: State, t: State, id: nat)
    requires EventInv(s) && EventOrder(s) && Moves(s, t, id) && Local(s.attempts[id]) && Local(t.attempts[id])
    requires s.attempts[id].pc.Closing? && s.attempts[id].event.Some? && t.apps == s.apps
    requires t.events == CloseEvent(s.events, s.attempts[id].event.value, if s.attempts[id].pc.ok then Succeeded else Failed)
    requires t.attempts[id].event == s.attempts[id].event && t.attempts[id].returned == s.attempts[id].returned
    requires t.attempts[id].stamps == s.attempts[id].stamps[ClosedEvent := |s.log|]
    ensures EventInv(t) && EventOrder(t)
  {
    forall e | 0 <= e < |t.events| ensures EventOf(t, e) {
      assert EventOf(s, e);
    }
    forall i, j | Ids(t, i, j) && t.attempts[i].event.Some? && t.attempts[j].event.Some?
      && WroteEvent in t.attempts[i].stamps && WroteEvent in t.attempts[j].stamps
      ensures t.attempts[i].event.value < t.attempts[j].event.value <==> t.attempts[i].stamps[WroteEvent] < t.attempts[j].stamps[WroteEvent]
    {
      assert Ids(s, i, j);
    }
  }

  /** One attempt was added; it holds nothing and has logged nothing. */
  ghost predicate Joins(s: State, t: State) {
    && |t.attempts| == |s.attempts| + 1
    && (forall i | 0 <= i < |s.attempts| :: t.attempts[i] == s.attempts[i])
    && var b := t.attempts[|s.attempts|];
    && (b.pc.Locking? || b.pc.Finishing?) && b.stamps == map[] && b.event.None? && b.returned.None? && !b.calling
    && t.now == s.now && t.locks == s.locks && t.apps == s.apps && t.events == s.events && t.log == s.log
  }

  lemma JoinLocals(s: State, t: State)
    requires Locals(s) && Joins(s, t)
    ensures Locals(t)
  {
  }

  lemma JoinLog(s: State, t: State)
    requires LogInv(s) && Joins(s, t)
    ensures LogInv(t)
  {
    var n := |s.attempts|;
    forall i, k | 0 <= i < |t.attempts| && k in t.attempts[i].stamps
      ensures t.attempts[i].stamps[k] < |t.log| && t.log[t.attempts[i].stamps[k]] == LogEntry(i, k)
    {
      assert i < n && t.attempts[i] == s.attempts[i];
    }
    forall p | 0 <= p < |t.log|
      ensures t.log[p].who < n && t.log[p].kind in t.attempts[t.log[p].who].stamps && t.attempts[t.log[p].who].stamps[t.log[p].kind] == p
    {
      assert t.attempts[s.log[p].who] == s.attempts[s.log[p].who];
    }
  }

  lemma JoinEvents(s: State, t: State)
    requires EventInv(s) && EventOrder(s) && Joins(s, t)
    ensures EventInv(t) && EventOrder(t)
  {
    forall e | 0 <= e < |t.events| ensures EventOf(t, e) {
      assert EventOf(s, e);
    }
    forall i, j | Ids(t, i, j) && i < |s.attempts| && j < |s.attempts| ensures Ids(s, i, j) {}
  }

  lemma JoinLocks(s: State, t: State)
    requires TokenInv(s) && LockInv(s) && OrderInv(s) && Joins(s, t)
    requires Unfinished(t.attempts[|s.attempts|]) ==>
      forall i | 0 <= i < |s.attempts| && Unfinished(s.attempts[i]) :: s.attempts[i].token != t.attempts[|s.attempts|].token
    ensures TokenInv(t) && LockInv(t) && OrderInv(t)
  {
    forall i, j | Ids(t, i, j) && i < |s.attempts| && j < |s.attempts| ensures Ids(s, i, j) {}
    forall i | 0 <= i < |t.attempts| && Holding(t, t.attempts[i]) ensures i < |s.attempts| && Holding(s, s.attempts[i]) {}
    forall i, j | Ids(t, i, j) && t.attempts[i].unit == t.attempts[j].unit && Took(t.attempts[i]) && Took(t.attempts[j])
      && t.attempts[i].stamps[TookLock] < t.attempts[j].stamps[TookLock]
      ensures Superseded(t, t.attempts[i], t.attempts[j])
    {
      assert Ids(s, i, j) && Superseded(s, s.attempts[i], s.attempts[j]);
    }
  }

  lemma StartStep(s: State, unit: Unit, token: string, digest: string)
    requires Inv(s) && Enabled(s, Start(unit, token, digest))
    ensures Inv(Apply(s, Start(unit, token, digest)))
  {
    var t := Apply(s, Start(unit, token, digest));
    JoinLocals(s, t);
    JoinLog(s, t);
    JoinEvents(s, t);
    JoinLocks(s, t);
  }

  lemma TickStep(s: State, now: int)
    requires Inv(s) && Enabled(s, Tick(now))
    ensures Inv(Apply(s, Tick(now)))
  {
    var t := Apply(s, Tick(now));
    forall i | 0 <= i < |t.attempts| && Holding(t, t.attempts[i]) ensures Holding(s, s.attempts[i]) {}
    forall e | 0 <= e < |t.events| ensures EventOf(t, e) {
      assert EventOf(s, e);
    }
    forall i, j | Ids(t, i, j) && t.attempts[i].unit == t.attempts[j].unit && Took(t.attempts[i]) && Took(t.attempts[j])
      && t.attempts[i].stamps[TookLock] < t.attempts[j].stamps[TookLock]
      ensures Superseded(t, t.attempts[i], t.attempts[j])
    {
      assert Ids(s, i, j) && Superseded(s, s.attempts[i], s.attempts[j]);
    }
    forall i, j | Ids(t, i, j) ensures Ids(s, i, j) {}
  }

  /** Taking the row is only possible while nobody is inside the section with a live context. */
  lemma ClaimMeansAlone(s: State, id: nat, at: int)
    requires LockInv(s) && id < |s.attempts| && at <= s.now
    requires AcquireLock(s.locks, s.attempts[id].unit, s.attempts[id].token, at).1
    ensures Alone(s, id)
  {
  }

  /** A claimed row: written by `id`, which was about to lock and found nobody inside. */
  lemma LocksClaimed(s: State, t: State, id: nat, at: int)
    requires LockInv(s) && Moves(s, t, id) && Alone(s, id)
    requires s.attempts[id].deadline <= at + LOCK_TTL
    requires t.locks == s.locks[s.attempts[id].unit := Lock(s.attempts[id].token, at + LOCK_TTL)]
    ensures LockInv(t)
  {
    forall i | 0 <= i < |t.attempts| && i != id && Holding(t, t.attempts[i])
      ensures t.attempts[i].unit != t.attempts[id].unit && Holding(s, s.attempts[i])
    {
    }
  }

  lemma AcquireCommitted(s: State, id: nat, at: int, fate: Fate)
    requires Inv(s) && Enabled(s, Acquire(id, at, fate)) && !fate.Rejected?
    requires AcquireLock(s.locks, s.attempts[id].unit, s.attempts[id].token, at).1
    requires LocalStep(s, Acquire(id, at, fate), id)
    ensures Inv(Apply(s, Acquire(id, at, fate)))
  {
    var t := Apply(s, Acquire(id, at, fate));
    ClaimMeansAlone(s, id, at);
    EventsKept(s, t, id);
    LogExtended(s, t, id, TookLock);
    TokensKept(s, t, id);
    OrderExtended(s, t, id);
    LocksClaimed(s, t, id, at);
  }

  lemma AcquireStep(s: State, id: nat, at: int, fate: Fate)
    requires Inv(s) && Enabled(s, Acquire(id, at, fate))
    ensures Inv(Apply(s, Acquire(id, at, fate)))
  {
    LocalAcquire(s, id, at, fate);
    if !fate.Rejected? && AcquireLock(s.locks, s.attempts[id].unit, s.attempts[id].token, at).1 {
      AcquireCommitted(s, id, at, fate);
    } else {
      var t := Apply(s, Acquire(id, at, fate));
      QuietStep(s, t, id, t.attempts[id].pc);
    }
  }

  /** A step that changes nothing but the attempt's own program counter. */
  lemma QuietStep(s: State, t: State, id: nat, pc: Pc)
    requires Inv(s) && id < |s.attempts| && t == Put(s, id, s.attempts[id].(pc := pc)) && Local(t.attempts[id])
    requires Unfinished(t.attempts[id]) ==> InSection(t.attempts[id]) && InSection(s.attempts[id])
    ensures Inv(t)
  {
    assert Moves(s, t, id);
    EventsKept(s, t, id);
    LogKept(s, t, id);
    TokensKept(s, t, id);
    LocksKept(s, t, id);
    OrderKept(s, t, id);
  }

  /** Deleting a row by token spares every live holder: that is what tokens are for. */
  lemma LocksReleased(s: State, t: State, id: nat)
    requires LockInv(s) && TokenInv(s) && Moves(s, t, id) && InSection(s.attempts[id])
    requires t.locks == ReleaseLock(s.locks, s.attempts[id].unit, s.attempts[id].token)
    requires !Holding(t, t.attempts[id])
    ensures LockInv(t)
  {
    forall i | 0 <= i < |t.attempts| && Holding(t, t.attempts[i])
      ensures t.attempts[i].unit in t.locks && t.locks[t.attempts[i].unit] == s.locks[t.attempts[i].unit]
    {
      assert Ids(s, i, id) && Holding(s, s.attempts[i]);
    }
  }

  lemma ReleaseCommitted(s: State, id: nat, fate: Fate)
    requires Inv(s) && Enabled(s, Release(id, fate)) && !fate.Rejected?
    requires LocalStep(s, Release(id, fate), id)
    ensures Inv(Apply(s, Release(id, fate)))
  {
    var t := Apply(s, Release(id, fate));
    EventsKept(s, t, id);
    LogExtended(s, t, id, DroppedLock);
    TokensKept(s, t, id);
    OrderKept(s, t, id);
    LocksReleased(s, t, id);
  }

  /** A logged step that leaves the lock and audit tables alone. */
  lemma LoggedStep(s: State, t: State, id: nat, k: Kind)
    requires Inv(s) && Moves(s, t, id) && Local(t.attempts[id]) && k !in s.attempts[id].stamps
    requires t.log == s.log + [LogEntry(id, k)] && t.attempts[id].stamps == s.attempts[id].stamps[k := |s.log|]
    requires t.locks == s.locks && t.events == s.events && s.apps.Keys <= t.apps.Keys
    requires t.attempts[id].event == s.attempts[id].event
    requires s.attempts[id].returned.Some? ==> t.attempts[id].returned == s.attempts[id].returned
    requires k == WroteRow || k == CalledDeploy || k == Landed || k == DeployReturned || k == WroteFinal
    requires k == WroteRow ==> t.attempts[id].unit in t.apps
    requires k == Landed ==> Holding(s, s.attempts[id]) || DroppedLock in s.attempts[id].stamps
    requires InSection(t.attempts[id]) ==> InSection(s.attempts[id])
    requires Unfinished(t.attempts[id]) ==> InSection(t.attempts[id])
    requires t.attempts[id].calling ==> s.attempts[id].calling || InSection(s.attempts[id])
    ensures Inv(t)
  {
    EventsKept(s, t, id);
    LogExtended(s, t, id, k);
    TokensKept(s, t, id);
    LocksKept(s, t, id);
    OrderKept(s, t, id);
  }

  lemma InsertCommitted(s: State, t: State, id: nat, pc: Pc)
    requires Inv(s) && Moves(s, t, id) && Local(t.attempts[id]) && s.attempts[id].pc.Inserting?
    requires pc.Calling? || pc.Releasing?
    requires s.attempts[id].unit in s.apps && s.now <= s.attempts[id].deadline
    requires t == PutLogged(s.(events := s.events + [Event(id, s.attempts[id].unit, s.attempts[id].digest, InProgress)]), id,
                            s.attempts[id].(pc := pc, event := Some(|s.events|)), WroteEvent)
    ensures Inv(t)
  {
    EventAdded(s, t, id);
    LogExtended(s, t, id, WroteEvent);
    TokensKept(s, t, id);
    LocksKept(s, t, id);
    OrderKept(s, t, id);
  }

  lemma CloseCommitted(s: State, t: State, id: nat)
    requires Inv(s) && Moves(s, t, id) && Local(t.attempts[id]) && s.attempts[id].pc.Closing? && s.attempts[id].event.Some?
    requires t == PutLogged(s.(events := CloseEvent(s.events, s.attempts[id].event.value, if s.attempts[id].pc.ok then Succeeded else Failed)),
                            id, s.attempts[id].(pc := Releasing), ClosedEvent)
    ensures Inv(t)
  {
    EventClosed(s, t, id);
    LogExtended(s, t, id, ClosedEvent);
    TokensKept(s, t, id);
    LocksKept(s, t, id);
    OrderKept(s, t, id);
  }

  lemma UpsertStep(s: State, id: nat, w: Applications.Write, fate: Fate)
    requires Inv(s) && Enabled(s, Upsert(id, w, fate))
    ensures Inv(Apply(s, Upsert(id, w, fate)))
  {
    var t := Apply(s, Upsert(id, w, fate));
    LocalUpsert(s, id, w, fate);
    if fate.Rejected? { QuietStep(s, t, id, Releasing); } else { LoggedStep(s, t, id, WroteRow); }
  }

  lemma FinalStep(s: State, id: nat, w: Applications.Write, fate: Fate)
    requires Inv(s) && Enabled(s, Final(id, w, fate))
    ensures Inv(Apply(s, Final(id, w, fate)))
  {
    var t := Apply(s, Final(id, w, fate));
    LocalFinal(s, id, w, fate);
    if fate.Rejected? { QuietStep(s, t, id, Done); } else { LoggedStep(s, t, id, WroteFinal); }
  }

  lemma SkipStep(s: State, unit: Unit)
    requires Inv(s)
    ensures Inv(Apply(s, Skip(unit)))
  {
    var t := Apply(s, Skip(unit));
    JoinLocals(s, t);
    JoinLog(s, t);
    JoinEvents(s, t);
    JoinLocks(s, t);
  }

  lemma DeployStep(s: State, act: Action, id: nat)
    requires Inv(s) && Enabled(s, act)
    requires act == Call(id) || act == Land(id) || (act.Return? && act.id == id)
    ensures Inv(Apply(s, act))
  {
    var t := Apply(s, act);
    match act {
      case Call(_) => LocalCall(s, id); LoggedStep(s, t, id, CalledDeploy);
      case Land(_) => LocalLand(s, id); LoggedStep(s, t, id, Landed);
      case Return(_, ok) => LocalReturn(s, id, ok); LoggedStep(s, t, id, DeployReturned);
    }
  }

  lemma InsertStep(s: State, id: nat, fate: Fate)
    requires Inv(s) && Enabled(s, Insert(id, fate))
    ensures Inv(Apply(s, Insert(id, fate)))
  {
    var t := Apply(s, Insert(id, fate));
    LocalInsert(s, id, fate);
    if fate.Rejected? { QuietStep(s, t, id, Releasing); } else { InsertCommitted(s, t, id, t.attempts[id].pc); }
  }

  lemma CloseStep(s: State, id: nat, fate: Fate)
    requires Inv(s) && Enabled(s, Close(id, fate))
    ensures Inv(Apply(s, Close(id, fate)))
  {
    var t := Apply(s, Close(id, fate));
    LocalClose(s, id, fate);
    if fate.Rejected? { QuietStep(s, t, id, Releasing); } else { CloseCommitted(s, t, id); }
  }

  lemma ReleaseStep(s: State, id: nat, fate: Fate)
    requires Inv(s) && Enabled(s, Release(id, fate))
    ensures Inv(Apply(s, Release(id, fate)))
  {
    LocalRelease(s, id, fate);
    if fate.Rejected? { QuietStep(s, Apply(s, Release(id, fate)), id, Finishing); } else { ReleaseCommitted(s, id, fate); }
  }

  lemma CrashStep(s: State, id: nat)
    requires Inv(s) && Enabled(s, Crash(id))
    ensures Inv(Apply(s, Crash(id)))
  {
    LocalCrash(s, id);
    QuietStep(s, Apply(s, Crash(id)), id, Crashed);
  }

  lemma StepKeepsInv(s: State, act: Action)
    requires Inv(s) && Enabled(s, act)
    ensures Inv(Apply(s, act))
  {
    match act {
      case Tick(t) => TickStep(s, t);
      case Start(unit, token, digest) => StartStep(s, unit, token, digest);
      case Acquire(id, at, fate) => AcquireStep(s, id, at, fate);
      case Upsert(id, w, fate) => UpsertStep(s, id, w, fate);
      case Insert(id, fate) => InsertStep(s, id, fate);
      case Call(id) => DeployStep(s, act, id);
      case Land(id) => DeployStep(s, act, id);
      case Return(id, _) => DeployStep(s, act, id);
      case Close(id, fate) => CloseStep(s, id, fate);
      case Release(id, fate) => ReleaseStep(s, id, fate);
      case Final(id, w, fate) => FinalStep(s, id, w, fate);
      case Skip(unit) => SkipStep(s, unit);
      case Crash(id) => CrashStep(s, id);
    }
  }

  lemma {:induction false} RunKeepsInv(s: State, acts: seq<Action>)
    requires Inv(s) && CanRun(s, acts)
    ensures Inv(Run(s, acts))
    decreases |acts|
  {
    if acts != [] {
      StepKeepsInv(s, acts[0]);
      RunKeepsInv(Apply(s, acts[0]), acts[1..]);
    }
  }

  // ---------------------------------------------------------------- reachable states

  /** The states some run reaches from a database without locks, events or attempts. */
  ghost predicate Reachable(s: State) {
    exists now, apps, acts | CanRun(Init(now, apps), acts) :: Run(Init(now, apps), acts) == s
  }

  lemma ReachableInv(s: State)
    requires Reachable(s)
    ensures Inv(s)
  {
    var now, apps, acts :| CanRun(Init(now, apps), acts) && Run(Init(now, apps), acts) == s;
    RunKeepsInv(Init(now, apps), acts);
  }

  lemma ReachableStep(s: State, acts: seq<Action>)
    requires Reachable(s) && CanRun(s, acts)
    ensures Reachable(Run(s, acts))
  {
    var now, apps, before :| CanRun(Init(now, apps), before) && Run(Init(now, apps), before) == s;
    RunConcat(Init(now, apps), before, acts);
  }

  lemma RunSnoc(s: State, acts: seq<Action>, act: Action)
    requires CanRun(s, acts) && Enabled(Run(s, acts), act)
    ensures CanRun(s, acts + [act]) && Run(s, acts + [act]) == Apply(Run(s, acts), act)
  {
    var r := Run(s, acts);
    assert [act][1..] == [] && CanRun(Apply(r, act), []) && CanRun(r, [act]) && Run(r, [act]) == Apply(r, act);
    RunConcat(s, acts, [act]);
  }

  /** Attempt `me` is as it was; others may have been added. */
  ghost predicate Kept(s: State, t: State, me: nat) {
    me < |s.attempts| <= |t.attempts| && t.attempts[me] == s.attempts[me]
  }

  lemma StepKeepsOthers(s: State, act: Action, me: nat)
    requires Enabled(s, act) && me < |s.attempts| && Who(act) != Some(me)
    ensures Kept(s, Apply(s, act), me)
  {
  }

  /** The request of an attempt took effect, and nothing else about it changed. */
  ghost predicate LandedMeanwhile(a: Attempt, b: Attempt) {
    a.calling && Landed !in a.stamps && Landed in b.stamps && b == a.(stamps := a.stamps[Landed := b.stamps[Landed]])
  }

  /** Attempt `me` has done nothing; an outstanding request of it may have landed. */
  ghost predicate Idle(s: State, t: State, me: nat) {
    me < |s.attempts| <= |t.attempts| && (t.attempts[me] == s.attempts[me] || LandedMeanwhile(s.attempts[me], t.attempts[me]))
  }

  lemma ForeignStepLeavesIdle(s: State, act: Action, me: nat)
    requires Enabled(s, act) && me < |s.attempts| && (Who(act) != Some(me) || act.Land?)
    ensures Idle(s, Apply(s, act), me)
  {
    if Who(act) != Some(me) { StepKeepsOthers(s, act, me); }
  }

  /** Nobody takes rows, attempts or time away. */
  lemma TablesOnlyGrow(s: State, act: Action)
    requires Enabled(s, act)
    ensures
      var t := Apply(s, act);
      |s.attempts| <= |t.attempts| && s.now <= t.now && s.apps.Keys <= t.apps.Keys
  {
  }
}
