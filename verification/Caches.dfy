/**
 The two caches in front of remote lookups: a map with a time to live, at most one lookup in flight per key, and,
 for folders, a fallback to the last listing when a lookup fails. Any number of callers interleave.
 */
module Caches {
  import opened Wrappers

  // ---------------------------------------------------------------- the machine

  datatype Entry<V> = Entry(value: V, storedAt: int, serial: nat)

  /** A finished lookup; its index in the history is its serial number. */
  datatype Fetch<K, V> = Fetch(key: K, outcome: Option<V>, flight: nat)

  /** Where an answer came from. `upto` is how many lookups had finished when a stale entry was read. */
  datatype Via =
    | Cached(serial: nat, storedAt: int, checkedAt: int)
    | Fetched(serial: nat)
    | Stale(serial: nat, upto: nat)
    | Failed

  datatype Answer<V> = Answer(value: Option<V>, via: Via)

  datatype Pc<V> =
    | Checking
    | Fetching
    | Storing(value: V, serial: nat)
    | FallingBack
    | Settled(answer: Answer<V>)

  /** A shared lookup; it stays open, and can be joined, until its result is handed out. */
  datatype Flight<K, V> = Flight(key: K, pc: Pc<V>, open: bool)

  datatype Stage<V> = Begun | Missed | Waiting(flight: nat) | Returned(answer: Answer<V>)

  /** `known` records whether the key had an entry when the call began. */
  datatype Caller<K, V> = Caller(key: K, known: bool, stage: Stage<V>)

  datatype State<K(==), V> = State(
    now: int,
    cache: map<K, Entry<V>>,
    fetches: seq<Fetch<K, V>>,
    flights: seq<Flight<K, V>>,
    current: map<string, nat>,
    callers: seq<Caller<K, V>>)

  /** `flightKey` names the shared lookup of a key; `valid` says which keys are ever used. */
  datatype Config<!K> = Config(ttl: int, fallback: bool, flightKey: K -> string, valid: K -> bool)

  datatype Action<K, V> =
    | Tick(to: int)
    | Call(key: K)
    | Check(caller: nat)
    | Enter(caller: nat)
    | Recheck(flight: nat)
    | Finish(flight: nat, outcome: Option<V>)
    | Store(flight: nat)
    | FallBack(flight: nat)
    | Close(flight: nat)
    | Return(caller: nat)

  predicate Fresh<K(==), V>(c: Config<K>, s: State<K, V>, k: K) {
    k in s.cache && s.now - s.cache[k].storedAt < c.ttl
  }

  function FromCache<K(==), V>(s: State<K, V>, k: K): Answer<V>
    requires k in s.cache
  {
    var e := s.cache[k];
    Answer(Some(e.value), Cached(e.serial, e.storedAt, s.now))
  }

  predicate CallerAt<K(==), V(==)>(s: State<K, V>, i: nat, stage: Stage<V>) {
    i < |s.callers| && s.callers[i].stage == stage
  }

  predicate FlightAt<K(==), V(==)>(s: State<K, V>, n: nat, pc: Pc<V>) {
    n < |s.flights| && s.flights[n].pc == pc && s.flights[n].open
  }

  predicate Enabled<K(==), V(==)>(c: Config<K>, s: State<K, V>, a: Action<K, V>) {
    match a
    case Tick(to) => to >= s.now
    case Call(k) => c.valid(k)
    case Check(i) => CallerAt(s, i, Begun)
    case Enter(i) => CallerAt(s, i, Missed)
    case Recheck(n) => FlightAt(s, n, Checking)
    case Finish(n, _) => FlightAt(s, n, Fetching)
    case Store(n) => n < |s.flights| && s.flights[n].pc.Storing?
    case FallBack(n) => FlightAt(s, n, FallingBack)
    case Close(n) => n < |s.flights| && s.flights[n].open && s.flights[n].pc.Settled?
    case Return(i) => i < |s.callers| && s.callers[i].stage.Waiting? && s.callers[i].stage.flight < |s.flights| && !s.flights[s.callers[i].stage.flight].open
  }

  function SetStage<K(==), V>(s: State<K, V>, i: nat, stage: Stage<V>): State<K, V>
    requires i < |s.callers|
  {
    s.(callers := s.callers[i := s.callers[i].(stage := stage)])
  }

  function SetPc<K(==), V>(s: State<K, V>, n: nat, pc: Pc<V>): State<K, V>
    requires n < |s.flights|
  {
    s.(flights := s.flights[n := s.flights[n].(pc := pc)])
  }

  function Joined<K(==), V>(c: Config<K>, s: State<K, V>, i: nat): State<K, V>
    requires i < |s.callers|
  {
    var k := s.callers[i].key;
    var name := c.flightKey(k);
    if name in s.current then SetStage(s, i, Waiting(s.current[name]))
    else
      var n := |s.flights|;
      SetStage(s.(flights := s.flights + [Flight(k, Checking, true)], current := s.current[name := n]), i, Waiting(n))
  }

  function Finished<K(==), V>(c: Config<K>, s: State<K, V>, n: nat, outcome: Option<V>): State<K, V>
    requires n < |s.flights|
  {
    var after := s.(fetches := s.fetches + [Fetch(s.flights[n].key, outcome, n)]);
    match outcome
    case Some(v) => SetPc(after, n, Storing(v, |s.fetches|))
    case None => SetPc(after, n, if c.fallback then FallingBack else Settled(Answer(None, Failed)))
  }

  function Stored<K(==), V>(s: State<K, V>, n: nat): State<K, V>
    requires n < |s.flights| && s.flights[n].pc.Storing?
  {
    var (k, v, serial) := (s.flights[n].key, s.flights[n].pc.value, s.flights[n].pc.serial);
    SetPc(s.(cache := s.cache[k := Entry(v, s.now, serial)]), n, Settled(Answer(Some(v), Fetched(serial))))
  }

  function FellBack<K(==), V>(s: State<K, V>, n: nat): State<K, V>
    requires n < |s.flights|
  {
    var k := s.flights[n].key;
    SetPc(s, n, Settled(if k in s.cache then Answer(Some(s.cache[k].value), Stale(s.cache[k].serial, |s.fetches|)) else Answer(None, Failed)))
  }

  function Closed<K(==), V>(c: Config<K>, s: State<K, V>, n: nat): State<K, V>
    requires n < |s.flights|
  {
    s.(flights := s.flights[n := s.flights[n].(open := false)], current := s.current - {c.flightKey(s.flights[n].key)})
  }

  function Answered<K(==), V>(s: State<K, V>, i: nat): State<K, V>
    requires i < |s.callers| && s.callers[i].stage.Waiting? && s.callers[i].stage.flight < |s.flights|
  {
    var pc := s.flights[s.callers[i].stage.flight].pc;
    SetStage(s, i, Returned(if pc.Settled? then pc.answer else Answer(None, Failed)))
  }

  function Apply<K(==), V(==)>(c: Config<K>, s: State<K, V>, a: Action<K, V>): State<K, V>
    requires Enabled(c, s, a)
  {
    match a
    case Tick(to) => s.(now := to)
    case Call(k) => s.(callers := s.callers + [Caller(k, k in s.cache, Begun)])
    case Check(i) =>
      var k := s.callers[i].key;
      SetStage(s, i, if Fresh(c, s, k) then Returned(FromCache(s, k)) else Missed)
    case Enter(i) => Joined(c, s, i)
    case Recheck(n) =>
      var k := s.flights[n].key;
      SetPc(s, n, if Fresh(c, s, k) then Settled(FromCache(s, k)) else Fetching)
    case Finish(n, outcome) => Finished(c, s, n, outcome)
    case Store(n) => Stored(s, n)
    case FallBack(n) => FellBack(s, n)
    case Close(n) => Closed(c, s, n)
    case Return(i) => Answered(s, i)
  }

  /** A lookup of `k` that finds an entry younger than the time to live is answered with it, then and there, and no other is. */
  ghost predicate ServesIfFresh<K, V>(c: Config<K>, s: State<K, V>, k: K, served: bool, answer: Answer<V>) {
    && (served <==> k in s.cache && s.now < s.cache[k].storedAt + c.ttl)
    && (served ==> answer == Answer(Some(s.cache[k].value), Cached(s.cache[k].serial, s.cache[k].storedAt, s.now)))
  }

  /** Before joining a lookup and again inside one: a fresh entry is served, and only without one anything is fetched. */
  lemma FreshEntryIsServed<K(!new), V(!new)>(c: Config<K>, s: State<K, V>, i: nat)
    ensures Enabled(c, s, Check(i)) ==>
      var t := Apply(c, s, Check(i));
      var stage := t.callers[i].stage;
      && t.cache == s.cache && t.flights == s.flights && stage.Returned? != stage.Missed?
      && ServesIfFresh(c, s, s.callers[i].key, stage.Returned?, if stage.Returned? then stage.answer else Answer(None, Failed))
    ensures Enabled(c, s, Recheck(i)) ==>
      var t := Apply(c, s, Recheck(i));
      var pc := t.flights[i].pc;
      && t.cache == s.cache && t.fetches == s.fetches && pc.Settled? != pc.Fetching?
      && ServesIfFresh(c, s, s.flights[i].key, pc.Settled?, if pc.Settled? then pc.answer else Answer(None, Failed))
  {
  }

  /** An answer is given once: a call that has returned, and a lookup whose result is out, stay as they are. */
  lemma AnswersAreFinal<K(!new), V(!new)>(c: Config<K>, s: State<K, V>, a: Action<K, V>)
    requires Enabled(c, s, a)
    ensures forall i | 0 <= i < |s.callers| && s.callers[i].stage.Returned? :: i < |Apply(c, s, a).callers| && Apply(c, s, a).callers[i] == s.callers[i]
    ensures forall n | 0 <= n < |s.flights| && !s.flights[n].open && s.flights[n].pc.Settled? ::
      n < |Apply(c, s, a).flights| && Apply(c, s, a).flights[n] == s.flights[n]
  {
  }

  /** What becomes of a lookup: a success is stored and handed out, a failure is the answer unless an older entry may stand in. */
  lemma LookupsSettle<K(!new), V(!new)>(c: Config<K>, s: State<K, V>, n: nat, outcome: Option<V>)
    ensures Enabled(c, s, Finish(n, outcome)) ==>
      var t := Apply(c, s, Finish(n, outcome));
      && t.fetches == s.fetches + [Fetch(s.flights[n].key, outcome, n)] && t.cache == s.cache
      && t.flights[n].pc == match outcome
           case Some(v) => Storing(v, |s.fetches|)
           case None => if c.fallback then FallingBack else Settled(Answer(None, Failed))
    ensures Enabled(c, s, Store(n)) ==>
      var (k, pc, t) := (s.flights[n].key, s.flights[n].pc, Apply(c, s, Store(n)));
      t.cache == s.cache[k := Entry(pc.value, s.now, pc.serial)] && t.flights[n].pc == Settled(Answer(Some(pc.value), Fetched(pc.serial)))
    ensures Enabled(c, s, FallBack(n)) ==>
      var (k, t) := (s.flights[n].key, Apply(c, s, FallBack(n)));
      t.cache == s.cache && t.flights[n].pc.Settled?
      && t.flights[n].pc.answer.value == if k in s.cache then Some(s.cache[k].value) else None
  {
  }

  function Initial<K(==), V>(now: int): State<K, V> { State(now, map[], [], [], map[], []) }

  predicate CanRun<K(==), V(==)>(c: Config<K>, s: State<K, V>, run: seq<Action<K, V>>)
    decreases |run|
  {
    run == [] || (Enabled(c, s, run[0]) && CanRun(c, Apply(c, s, run[0]), run[1..]))
  }

  function Run<K(==), V(==)>(c: Config<K>, s: State<K, V>, run: seq<Action<K, V>>): State<K, V>
    requires CanRun(c, s, run)
    decreases |run|
  {
    if run == [] then s else Run(c, Apply(c, s, run[0]), run[1..])
  }

  /** Distinct keys in use never share a lookup. */
  ghost predicate Separate<K(!new)>(c: Config<K>) {
    forall k, l | c.valid(k) && c.valid(l) && c.flightKey(k) == c.flightKey(l) :: k == l
  }

  // ---------------------------------------------------------------- invariants

  /** Lookup number `n` was for `k` and returned `v`. */
  ghost predicate FetchedAs<K, V>(fetches: seq<Fetch<K, V>>, n: nat, k: K, v: V) {
    n < |fetches| && fetches[n].key == k && fetches[n].outcome == Some(v)
  }

  /** No lookup of `k` in `from..upto` succeeded. */
  ghost predicate NoSuccess<K, V>(fetches: seq<Fetch<K, V>>, k: K, from: int, upto: int) {
    forall j | from <= j < upto && 0 <= j < |fetches| && fetches[j].key == k :: fetches[j].outcome.None?
  }

  ghost predicate GoodAnswer<K, V>(c: Config<K>, fetches: seq<Fetch<K, V>>, k: K, a: Answer<V>) {
    match a.via
    case Cached(n, stored, checked) => a.value.Some? && FetchedAs(fetches, n, k, a.value.value) && 0 <= checked - stored < c.ttl
    case Fetched(n) => a.value.Some? && FetchedAs(fetches, n, k, a.value.value)
    case Stale(n, upto) =>
      c.fallback && a.value.Some? && FetchedAs(fetches, n, k, a.value.value) && n < upto <= |fetches| && NoSuccess(fetches, k, n + 1, upto)
    case Failed => a.value.None?
  }

  ghost predicate CacheSound<K, V>(s: State<K, V>) {
    forall k | k in s.cache :: FetchedAs(s.fetches, s.cache[k].serial, k, s.cache[k].value) && s.cache[k].storedAt <= s.now
  }

  ghost predicate FlightSound<K, V>(c: Config<K>, s: State<K, V>, n: nat)
    requires n < |s.flights|
  {
    var f := s.flights[n];
    && c.valid(f.key)
    && (!f.pc.Settled? ==> f.open)
    && (f.open ==> c.flightKey(f.key) in s.current && s.current[c.flightKey(f.key)] == n)
    && (f.pc.Storing? ==> FetchedAs(s.fetches, f.pc.serial, f.key, f.pc.value) && NoSuccess(s.fetches, f.key, f.pc.serial + 1, |s.fetches|))
    && (f.pc.Settled? ==> GoodAnswer(c, s.fetches, f.key, f.pc.answer))
    && (f.pc.Settled? && f.pc.answer.value.Some? ==> f.key in s.cache)
    && (f.pc.FallingBack? ==> c.fallback)
    && (f.open && c.fallback && f.pc.Settled? && f.pc.answer.value.None? ==> f.key !in s.cache)
  }

  ghost predicate FlightsSound<K, V>(c: Config<K>, s: State<K, V>) {
    forall n | 0 <= n < |s.flights| :: FlightSound(c, s, n)
  }

  ghost predicate CurrentSound<K, V>(c: Config<K>, s: State<K, V>) {
    forall name | name in s.current ::
      s.current[name] < |s.flights| && s.flights[s.current[name]].open && c.flightKey(s.flights[s.current[name]].key) == name
  }

  /** Every successful lookup has reached the cache, or its flight is about to store it. */
  ghost predicate SuccessKept<K, V>(s: State<K, V>, j: nat)
    requires j < |s.fetches|
  {
    var f := s.fetches[j];
    f.outcome.Some? ==>
      || (f.key in s.cache && j <= s.cache[f.key].serial)
      || (f.flight < |s.flights| && s.flights[f.flight].key == f.key && s.flights[f.flight].pc == Storing(f.outcome.value, j))
  }

  ghost predicate SuccessesKept<K, V>(s: State<K, V>) {
    forall j | 0 <= j < |s.fetches| :: SuccessKept(s, j)
  }

  ghost predicate CallerSound<K, V>(c: Config<K>, s: State<K, V>, i: nat)
    requires i < |s.callers|
  {
    var x := s.callers[i];
    && c.valid(x.key)
    && (x.known ==> x.key in s.cache)
    && (x.stage.Waiting? ==>
      && x.stage.flight < |s.flights|
      && s.flights[x.stage.flight].key == x.key
      && (x.known && c.fallback && s.flights[x.stage.flight].pc.Settled? ==> s.flights[x.stage.flight].pc.answer.value.Some?))
    && (x.stage.Returned? ==>
      && GoodAnswer(c, s.fetches, x.key, x.stage.answer)
      && (x.stage.answer.value.Some? ==> x.key in s.cache)
      && (x.known && c.fallback ==> x.stage.answer.value.Some?))
  }

  ghost predicate CallersSound<K, V>(c: Config<K>, s: State<K, V>) {
    forall i | 0 <= i < |s.callers| :: CallerSound(c, s, i)
  }

  ghost predicate Inv<K, V>(c: Config<K>, s: State<K, V>) {
    CacheSound(s) && FlightsSound(c, s) && CurrentSound(c, s) && SuccessesKept(s) && CallersSound(c, s)
  }

  /** Open flights of one key are one flight. */
  lemma OneFlightPerKey<K(!new), V>(c: Config<K>, s: State<K, V>, m: nat, n: nat)
    requires FlightsSound(c, s)
    requires m < |s.flights| && n < |s.flights| && s.flights[m].open && s.flights[n].open
    ensures c.flightKey(s.flights[m].key) == c.flightKey(s.flights[n].key) <==> m == n
  {
    assert FlightSound(c, s, m) && FlightSound(c, s, n);
  }

  lemma MoreFetches<K, V>(c: Config<K>, fetches: seq<Fetch<K, V>>, f: Fetch<K, V>, k: K, a: Answer<V>)
    requires GoodAnswer(c, fetches, k, a)
    ensures GoodAnswer(c, fetches + [f], k, a)
  {
  }

  /** It is enough that the step keeps each flight, each success and each caller sound. */
  lemma Assemble<K(!new), V(!new)>(c: Config<K>, s: State<K, V>, t: State<K, V>)
    requires Inv(c, s) && CacheSound(t) && CurrentSound(c, t)
    requires forall n | 0 <= n < |t.flights| :: (n < |s.flights| ==> FlightSound(c, s, n)) ==> FlightSound(c, t, n)
    requires forall j | 0 <= j < |t.fetches| :: (j < |s.fetches| ==> SuccessKept(s, j)) ==> SuccessKept(t, j)
    requires forall i | 0 <= i < |t.callers| :: (i < |s.callers| ==> CallerSound(c, s, i)) ==> CallerSound(c, t, i)
    ensures Inv(c, t)
  {
    forall n | 0 <= n < |t.flights| ensures FlightSound(c, t, n) {
      assert n < |s.flights| ==> FlightSound(c, s, n);
    }
    forall j | 0 <= j < |t.fetches| ensures SuccessKept(t, j) {
      assert j < |s.fetches| ==> SuccessKept(s, j);
    }
    forall i | 0 <= i < |t.callers| ensures CallerSound(c, t, i) {
      assert i < |s.callers| ==> CallerSound(c, s, i);
    }
  }

  lemma OthersHaveOtherKeys<K(!new), V>(c: Config<K>, s: State<K, V>, n: nat)
    requires FlightsSound(c, s) && n < |s.flights| && s.flights[n].open
    ensures forall m | 0 <= m < |s.flights| && m != n && s.flights[m].open :: c.flightKey(s.flights[m].key) != c.flightKey(s.flights[n].key)
  {
    forall m | 0 <= m < |s.flights| && m != n && s.flights[m].open ensures c.flightKey(s.flights[m].key) != c.flightKey(s.flights[n].key) {
      OneFlightPerKey(c, s, m, n);
    }
  }

  lemma TickKeeps<K(!new), V(!new)>(c: Config<K>, s: State<K, V>, a: Action<K, V>)
    requires Inv(c, s) && Separate(c) && Enabled(c, s, a) && a.Tick?
    ensures Inv(c, Apply(c, s, a))
  {
    Assemble(c, s, Apply(c, s, a));
  }

  lemma CallKeeps<K(!new), V(!new)>(c: Config<K>, s: State<K, V>, a: Action<K, V>)
    requires Inv(c, s) && Separate(c) && Enabled(c, s, a) && a.Call?
    ensures Inv(c, Apply(c, s, a))
  {
    Assemble(c, s, Apply(c, s, a));
  }

  lemma CheckKeeps<K(!new), V(!new)>(c: Config<K>, s: State<K, V>, a: Action<K, V>)
    requires Inv(c, s) && Separate(c) && Enabled(c, s, a) && a.Check?
    ensures Inv(c, Apply(c, s, a))
  {
    Assemble(c, s, Apply(c, s, a));
  }

  lemma JoinKeeps<K(!new), V(!new)>(c: Config<K>, s: State<K, V>, i: nat, n: nat)
    requires Inv(c, s) && Separate(c) && CallerAt(s, i, Missed)
    requires c.flightKey(s.callers[i].key) in s.current && s.current[c.flightKey(s.callers[i].key)] == n
    ensures Inv(c, SetStage(s, i, Waiting(n)))
  {
    assert CallerSound(c, s, i) && FlightSound(c, s, n);
    Assemble(c, s, SetStage(s, i, Waiting(n)));
  }

  lemma OpenKeeps<K(!new), V(!new)>(c: Config<K>, s: State<K, V>, i: nat)
    requires Inv(c, s) && Separate(c) && CallerAt(s, i, Missed) && c.flightKey(s.callers[i].key) !in s.current
    ensures Inv(c, Joined(c, s, i))
  {
    assert CallerSound(c, s, i);
    Assemble(c, s, Joined(c, s, i));
  }

  lemma EnterKeeps<K(!new), V(!new)>(c: Config<K>, s: State<K, V>, a: Action<K, V>)
    requires Inv(c, s) && Separate(c) && Enabled(c, s, a) && a.Enter?
    ensures Inv(c, Apply(c, s, a))
  {
    var name := c.flightKey(s.callers[a.caller].key);
    if name in s.current {
      JoinKeeps(c, s, a.caller, s.current[name]);
    } else {
      OpenKeeps(c, s, a.caller);
    }
  }

  lemma RecheckKeeps<K(!new), V(!new)>(c: Config<K>, s: State<K, V>, a: Action<K, V>)
    requires Inv(c, s) && Separate(c) && Enabled(c, s, a) && a.Recheck?
    ensures Inv(c, Apply(c, s, a))
  {
    var t := Apply(c, s, a);
    assert FlightSound(c, s, a.flight);
    Assemble(c, s, t);
  }

  lemma FinishKeepsFlight<K(!new), V(!new)>(c: Config<K>, s: State<K, V>, a: Action<K, V>, m: nat)
    requires Inv(c, s) && Enabled(c, s, a) && a.Finish? && m < |s.flights|
    ensures FlightSound(c, Apply(c, s, a), m)
  {
    var f := Fetch(s.flights[a.flight].key, a.outcome, a.flight);
    assert FlightSound(c, s, m);
    if m != a.flight {
      if s.flights[m].pc.Settled? {
        MoreFetches(c, s.fetches, f, s.flights[m].key, s.flights[m].pc.answer);
      }
      if s.flights[m].open {
        OneFlightPerKey(c, s, m, a.flight);
      }
    }
  }

  lemma FinishKeepsCaller<K(!new), V(!new)>(c: Config<K>, s: State<K, V>, a: Action<K, V>, i: nat)
    requires Inv(c, s) && Enabled(c, s, a) && a.Finish? && i < |s.callers|
    ensures CallerSound(c, Apply(c, s, a), i)
  {
    var x := s.callers[i];
    assert CallerSound(c, s, i);
    if x.stage.Returned? {
      MoreFetches(c, s.fetches, Fetch(s.flights[a.flight].key, a.outcome, a.flight), x.key, x.stage.answer);
    }
  }

  lemma FinishKeeps<K(!new), V(!new)>(c: Config<K>, s: State<K, V>, a: Action<K, V>)
    requires Inv(c, s) && Enabled(c, s, a) && a.Finish?
    ensures Inv(c, Apply(c, s, a))
  {
    var t := Apply(c, s, a);
    forall n | 0 <= n < |t.flights| ensures FlightSound(c, t, n) { FinishKeepsFlight(c, s, a, n); }
    forall j | 0 <= j < |t.fetches| ensures SuccessKept(t, j) {
      assert j < |s.fetches| ==> SuccessKept(s, j);
    }
    forall i | 0 <= i < |t.callers| ensures CallerSound(c, t, i) { FinishKeepsCaller(c, s, a, i); }
  }

  lemma StoreKeeps<K(!new), V(!new)>(c: Config<K>, s: State<K, V>, a: Action<K, V>)
    requires Inv(c, s) && Separate(c) && Enabled(c, s, a) && a.Store?
    ensures Inv(c, Apply(c, s, a))
  {
    var t := Apply(c, s, a);
    assert FlightSound(c, s, a.flight);
    OthersHaveOtherKeys(c, s, a.flight);
    Assemble(c, s, t);
  }

  /** When a lookup of `k` has failed, the cache holds the last listing that succeeded, if any did. */
  lemma NothingNewer<K(!new), V(!new)>(c: Config<K>, s: State<K, V>, n: nat)
    requires Inv(c, s) && n < |s.flights| && s.flights[n].pc.FallingBack?
    ensures
      var k := s.flights[n].key;
      NoSuccess(s.fetches, k, if k in s.cache then s.cache[k].serial + 1 else 0, |s.fetches|)
  {
    var k := s.flights[n].key;
    assert FlightSound(c, s, n);
    forall j | (if k in s.cache then s.cache[k].serial + 1 else 0) <= j < |s.fetches| && s.fetches[j].key == k
      ensures s.fetches[j].outcome.None?
    {
      assert SuccessKept(s, j);
      var m := s.fetches[j].flight;
      if s.fetches[j].outcome.Some? {
        assert FlightSound(c, s, m);
        OneFlightPerKey(c, s, m, n);
      }
    }
  }

  lemma FallBackKeeps<K(!new), V(!new)>(c: Config<K>, s: State<K, V>, a: Action<K, V>)
    requires Inv(c, s) && Separate(c) && Enabled(c, s, a) && a.FallBack?
    ensures Inv(c, Apply(c, s, a))
  {
    var t := Apply(c, s, a);
    assert FlightSound(c, s, a.flight);
    NothingNewer(c, s, a.flight);
    Assemble(c, s, t);
  }

  lemma CloseKeeps<K(!new), V(!new)>(c: Config<K>, s: State<K, V>, a: Action<K, V>)
    requires Inv(c, s) && Separate(c) && Enabled(c, s, a) && a.Close?
    ensures Inv(c, Apply(c, s, a))
  {
    var t := Apply(c, s, a);
    assert FlightSound(c, s, a.flight);
    OthersHaveOtherKeys(c, s, a.flight);
    Assemble(c, s, t);
  }

  lemma ReturnKeeps<K(!new), V(!new)>(c: Config<K>, s: State<K, V>, a: Action<K, V>)
    requires Inv(c, s) && Separate(c) && Enabled(c, s, a) && a.Return?
    ensures Inv(c, Apply(c, s, a))
  {
    var t := Apply(c, s, a);
    assert CallerSound(c, s, a.caller);
    assert FlightSound(c, s, s.callers[a.caller].stage.flight);
    Assemble(c, s, t);
  }

  lemma StepKeeps<K(!new), V(!new)>(c: Config<K>, s: State<K, V>, a: Action<K, V>)
    requires Inv(c, s) && Separate(c) && Enabled(c, s, a)
    ensures Inv(c, Apply(c, s, a))
  {
    match a
    case Tick(_) => TickKeeps(c, s, a);
    case Call(_) => CallKeeps(c, s, a);
    case Check(_) => CheckKeeps(c, s, a);
    case Enter(_) => EnterKeeps(c, s, a);
    case Recheck(_) => RecheckKeeps(c, s, a);
    case Finish(_, _) => FinishKeeps(c, s, a);
    case Store(_) => StoreKeeps(c, s, a);
    case FallBack(_) => FallBackKeeps(c, s, a);
    case Close(_) => CloseKeeps(c, s, a);
    case Return(_) => ReturnKeeps(c, s, a);
  }

  lemma {:induction false} RunKeeps<K(!new), V(!new)>(c: Config<K>, s: State<K, V>, run: seq<Action<K, V>>)
    requires Inv(c, s) && Separate(c) && CanRun(c, s, run)
    ensures Inv(c, Run(c, s, run))
    decreases |run|
  {
    if run != [] {
      StepKeeps(c, s, run[0]);
      RunKeeps(c, Apply(c, s, run[0]), run[1..]);
    }
  }

  ghost predicate Reachable<K(!new), V(!new)>(c: Config<K>, s: State<K, V>) {
    exists now, run :: ReachedBy(c, s, now, run)
  }

  ghost predicate ReachedBy<K, V>(c: Config<K>, s: State<K, V>, now: int, run: seq<Action<K, V>>) {
    CanRun(c, Initial(now), run) && Run(c, Initial(now), run) == s
  }

  lemma ReachableInv<K(!new), V(!new)>(c: Config<K>, s: State<K, V>)
    requires Reachable(c, s) && Separate(c)
    ensures Inv(c, s)
  {
    var now, run :| ReachedBy(c, s, now, run);
    RunKeeps(c, Initial<K, V>(now), run);
  }

  lemma {:induction false} RunConcat<K(!new), V(!new)>(c: Config<K>, s: State<K, V>, xs: seq<Action<K, V>>, ys: seq<Action<K, V>>)
    requires CanRun(c, s, xs) && CanRun(c, Run(c, s, xs), ys)
    ensures CanRun(c, s, xs + ys) && Run(c, s, xs + ys) == Run(c, Run(c, s, xs), ys)
    decreases |xs|
  {
    if xs == [] {
      assert xs + ys == ys;
    } else {
      RunConcat(c, Apply(c, s, xs[0]), xs[1..], ys);
      assert (xs + ys)[1..] == xs[1..] + ys;
    }
  }

  lemma ReachableRun<K(!new), V(!new)>(c: Config<K>, s: State<K, V>, run: seq<Action<K, V>>)
    requires Reachable(c, s) && CanRun(c, s, run)
    ensures Reachable(c, Run(c, s, run))
  {
    var now, before :| ReachedBy(c, s, now, before);
    RunConcat(c, Initial<K, V>(now), before, run);
    assert ReachedBy(c, Run(c, s, run), now, before + run);
  }

  // ---------------------------------------------------------------- results

  /**
   In every concurrent run, an answer carries a value that a successful lookup of the caller's own key returned. It was
   younger than the time to live at the check that served it, or was fetched by the lookup waited for, or, with the
   fallback on, is the latest success among all lookups finished when it was read.
   */
  lemma ServedValuesWereFetched<K(!new), V(!new)>(c: Config<K>, s: State<K, V>, i: nat)
    requires Reachable(c, s) && Separate(c) && i < |s.callers| && s.callers[i].stage.Returned?
    ensures
      var (k, a) := (s.callers[i].key, s.callers[i].stage.answer);
      && (a.value.Some? <==> !a.via.Failed?)
      && (a.value.Some? ==> FetchedAs(s.fetches, a.via.serial, k, a.value.value))
      && (a.via.Cached? ==> a.via.checkedAt - a.via.storedAt < c.ttl)
      && (a.via.Stale? ==> c.fallback && NoSuccess(s.fetches, k, a.via.serial + 1, a.via.upto))
  {
    ReachableInv(c, s);
    assert CallerSound(c, s, i);
  }

  /** Some flight for `k` has settled on a value, or some call for it has returned one. */
  ghost predicate ResolvedOnce<K, V>(s: State<K, V>, k: K) {
    || (exists n :: 0 <= n < |s.flights| && Yielded(s.flights[n], k))
    || (exists i :: 0 <= i < |s.callers| && Got(s.callers[i], k))
  }

  ghost predicate Yielded<K, V>(f: Flight<K, V>, k: K) { f.key == k && f.pc.Settled? && f.pc.answer.value.Some? }

  ghost predicate Got<K, V>(x: Caller<K, V>, k: K) { x.key == k && x.stage.Returned? && x.stage.answer.value.Some? }

  /** From `from` on, every call for `k` has begun with `k` in the cache. */
  ghost predicate KnownSince<K, V>(s: State<K, V>, k: K, from: nat) {
    k in s.cache && from <= |s.callers| && forall i | from <= i < |s.callers| && s.callers[i].key == k :: s.callers[i].known
  }

  lemma {:induction false} RunKnowsSince<K(!new), V(!new)>(c: Config<K>, s: State<K, V>, run: seq<Action<K, V>>, k: K, from: nat)
    requires CanRun(c, s, run) && KnownSince(s, k, from)
    ensures KnownSince(Run(c, s, run), k, from)
    decreases |run|
  {
    if run != [] {
      StepKnowsSince(c, s, run[0], k, from);
      RunKnowsSince(c, Apply(c, s, run[0]), run[1..], k, from);
    }
  }

  lemma StepKnowsSince<K(!new), V(!new)>(c: Config<K>, s: State<K, V>, a: Action<K, V>, k: K, from: nat)
    requires Enabled(c, s, a) && KnownSince(s, k, from)
    ensures KnownSince(Apply(c, s, a), k, from)
  {
  }

  /**
   With the fallback on, a key that has been resolved once is resolved for good: whatever happens afterwards, every call
   for it that begins later and returns, returns a value.
   */
  lemma OnceResolvedNeverFails<K(!new), V(!new)>(c: Config<K>, s: State<K, V>, run: seq<Action<K, V>>, k: K, i: nat)
    requires Reachable(c, s) && Separate(c) && c.fallback && ResolvedOnce(s, k) && CanRun(c, s, run)
    requires
      var t := Run(c, s, run);
      |s.callers| <= i < |t.callers| && t.callers[i].key == k && t.callers[i].stage.Returned?
    ensures Run(c, s, run).callers[i].stage.answer.value.Some?
  {
    ReachableInv(c, s);
    ResolvedIsCached(c, s, k);
    RunKnowsSince(c, s, run, k, |s.callers|);
    RunKeeps(c, s, run);
    assert CallerSound(c, Run(c, s, run), i);
  }

  lemma ResolvedIsCached<K(!new), V(!new)>(c: Config<K>, s: State<K, V>, k: K)
    requires Inv(c, s) && ResolvedOnce(s, k)
    ensures k in s.cache
  {
    if n :| 0 <= n < |s.flights| && Yielded(s.flights[n], k) {
      assert FlightSound(c, s, n);
    }
    if i :| 0 <= i < |s.callers| && Got(s.callers[i], k) {
      assert CallerSound(c, s, i);
    }
  }

  /** Entries are never dropped, change only when a flight stores, and then to the newest success; failures change none. */
  lemma OnlySuccessesAlterCache<K(!new), V(!new)>(c: Config<K>, s: State<K, V>, a: Action<K, V>, k: K)
    requires Reachable(c, s) && Separate(c) && Enabled(c, s, a)
    ensures
      var t := Apply(c, s, a);
      && (k in s.cache ==> k in t.cache)
      && (k in t.cache && (k !in s.cache || t.cache[k] != s.cache[k]) ==>
        && a.Store? && k == s.flights[a.flight].key
        && t.cache[k].storedAt == s.now
        && FetchedAs(t.fetches, t.cache[k].serial, k, t.cache[k].value)
        && NoSuccess(t.fetches, k, t.cache[k].serial + 1, |t.fetches|)
        && (k in s.cache ==> s.cache[k].serial <= t.cache[k].serial))
  {
    ReachableInv(c, s);
    if a.Store? {
      assert FlightSound(c, s, a.flight);
    }
  }

  /** At most one lookup per key is under way. */
  lemma LookupsAreShared<K(!new), V(!new)>(c: Config<K>, s: State<K, V>, m: nat, n: nat)
    requires Reachable(c, s) && Separate(c)
    requires m < |s.flights| && n < |s.flights| && s.flights[m].open && s.flights[n].open && s.flights[m].key == s.flights[n].key
    ensures m == n
  {
    ReachableInv(c, s);
    OneFlightPerKey(c, s, m, n);
  }

  // ---------------------------------------------------------------- the two instances

  const SECOND: int := 1_000_000_000

  datatype ManifestKey = ManifestKey(repo: string, path: string, branch: string)

  const NUL := '\0'

  function JoinKey(k: ManifestKey): string { k.repo + [NUL] + k.path + [NUL] + k.branch }

  /** The first two parts hold no NUL; the last one may. */
  predicate NulFree(k: ManifestKey) { NUL !in k.repo && NUL !in k.path }

  lemma JoinReadsBack(a: string, x: string, b: string, y: string)
    requires NUL !in a && NUL !in b && a + [NUL] + x == b + [NUL] + y
    ensures a == b && x == y
  {
    var s := a + [NUL] + x;
    assert s[|a|] == NUL && s[|b|] == NUL;
    assert forall i | 0 <= i < |a| :: s[i] == a[i] && a[i] in a;
    assert forall i | 0 <= i < |b| :: s[i] == b[i] && b[i] in b;
    assert s[..|a|] == a && s[|a| + 1..] == x;
    assert s[..|b|] == b && s[|b| + 1..] == y;
  }

  /** Joining with NUL tells NUL-free keys apart. */
  lemma JoinKeyIsInjective(a: ManifestKey, b: ManifestKey)
    requires NulFree(a) && NulFree(b)
    ensures JoinKey(a) == JoinKey(b) <==> a == b
  {
    if JoinKey(a) == JoinKey(b) {
      assert JoinKey(a) == a.repo + [NUL] + (a.path + [NUL] + a.branch);
      assert JoinKey(b) == b.repo + [NUL] + (b.path + [NUL] + b.branch);
      JoinReadsBack(a.repo, a.path + [NUL] + a.branch, b.repo, b.path + [NUL] + b.branch);
      JoinReadsBack(a.path, a.branch, b.path, b.branch);
    }
  }

  /** The condition is needed: parts that contain NUL can collide. */
  lemma NulPartsCollide(x: string, y: string, z: string, branch: string)
    ensures JoinKey(ManifestKey(x + [NUL] + y, z, branch)) == JoinKey(ManifestKey(x, y + [NUL] + z, branch))
    ensures ManifestKey(x + [NUL] + y, z, branch) != ManifestKey(x, y + [NUL] + z, branch)
  {
    assert |x + [NUL] + y| > |x|;
  }

  /** Manifests: ten seconds unless a positive time to live is set, and no fallback. */
  function ManifestConfig(cacheTTL: int): Config<ManifestKey> {
    Config(if cacheTTL <= 0 then 10 * SECOND else cacheTTL, false, JoinKey, NulFree)
  }

  /** Folders: sixty seconds unless a time to live is set, with the fallback. */
  function FolderConfig(cacheTTL: int): Config<string> {
    Config(if cacheTTL == 0 then 60 * SECOND else cacheTTL, true, (id: string) => id, (id: string) => true)
  }

  lemma InstancesAreSeparate(cacheTTL: int)
    ensures Separate(ManifestConfig(cacheTTL)) && Separate(FolderConfig(cacheTTL))
    ensures !ManifestConfig(cacheTTL).fallback && ManifestConfig(cacheTTL).ttl == if cacheTTL > 0 then cacheTTL else 10_000_000_000
    ensures FolderConfig(cacheTTL).fallback && FolderConfig(cacheTTL).ttl == if cacheTTL != 0 then cacheTTL else 60_000_000_000
  {
    var c := ManifestConfig(cacheTTL);
    forall k, l | c.valid(k) && c.valid(l) && c.flightKey(k) == c.flightKey(l) ensures k == l {
      JoinKeyIsInjective(k, l);
    }
  }

  /** A manifest that is served was fetched from the same repository, path and branch, and is never stale. */
  lemma ManifestsAreTheirOwn(cacheTTL: int, s: State<ManifestKey, string>, i: nat)
    requires Reachable(ManifestConfig(cacheTTL), s) && i < |s.callers| && s.callers[i].stage.Returned?
    ensures
      var (k, a) := (s.callers[i].key, s.callers[i].stage.answer);
      a.value.Some? ==>
        && !a.via.Failed? && FetchedAs(s.fetches, a.via.serial, k, a.value.value)
        && (a.via.Fetched? || (a.via.Cached? && a.via.checkedAt - a.via.storedAt < ManifestConfig(cacheTTL).ttl))
  {
    InstancesAreSeparate(cacheTTL);
    ServedValuesWereFetched(ManifestConfig(cacheTTL), s, i);
  }

  /** Once a folder has been resolved, every later call that returns answers with a listing some lookup of it returned. */
  lemma ResolvedFoldersStayResolved(cacheTTL: int, s: State<string, seq<string>>, run: seq<Action<string, seq<string>>>, id: string, i: nat)
    requires Reachable(FolderConfig(cacheTTL), s) && ResolvedOnce(s, id) && CanRun(FolderConfig(cacheTTL), s, run)
    requires
      var t := Run(FolderConfig(cacheTTL), s, run);
      |s.callers| <= i < |t.callers| && t.callers[i].key == id && t.callers[i].stage.Returned?
    ensures
      var (t, a) := (Run(FolderConfig(cacheTTL), s, run), Run(FolderConfig(cacheTTL), s, run).callers[i].stage.answer);
      && a.value.Some? && !a.via.Failed? && FetchedAs(t.fetches, a.via.serial, id, a.value.value)
      && (a.via.Stale? ==> NoSuccess(t.fetches, id, a.via.serial + 1, a.via.upto))
  {
    var c := FolderConfig(cacheTTL);
    InstancesAreSeparate(cacheTTL);
    OnceResolvedNeverFails(c, s, run, id, i);
    ReachableRun(c, s, run);
    ServedValuesWereFetched(c, Run(c, s, run), i);
  }
}
