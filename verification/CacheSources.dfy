/**
 The two sources over their shared caches, call by call: each method takes the steps of the cache machine, and between
 any two of them an arbitrary script of other callers and flights runs.
 */
module CacheSources {
  import opened Wrappers
  import opened Caches

  /** `t` can follow `s`. */
  ghost predicate Leads<K(!new), V(!new)>(c: Config<K>, s: State<K, V>, t: State<K, V>) {
    exists run :: LeadsBy(c, s, t, run)
  }

  ghost predicate LeadsBy<K, V>(c: Config<K>, s: State<K, V>, t: State<K, V>, run: seq<Action<K, V>>) {
    CanRun(c, s, run) && Run(c, s, run) == t
  }

  lemma LeadsNowhere<K(!new), V(!new)>(c: Config<K>, s: State<K, V>)
    ensures Leads(c, s, s)
  {
    assert LeadsBy(c, s, s, []);
  }

  lemma LeadsStep<K(!new), V(!new)>(c: Config<K>, s: State<K, V>, t: State<K, V>, a: Action<K, V>)
    requires Leads(c, s, t) && Enabled(c, t, a)
    ensures Leads(c, s, Apply(c, t, a))
  {
    var run :| LeadsBy(c, s, t, run);
    var u := Apply(c, t, a);
    assert [a][1..] == [] && CanRun(c, u, []) && CanRun(c, t, [a]) && Run(c, t, [a]) == u;
    RunConcat(c, s, run, [a]);
    assert LeadsBy(c, s, u, run + [a]);
  }

  /** Whatever follows a reachable state is reachable, so every result about runs applies to it. */
  lemma LeadsKeepsReachable<K(!new), V(!new)>(c: Config<K>, s: State<K, V>, t: State<K, V>)
    requires Reachable(c, s) && Leads(c, s, t)
    ensures Reachable(c, t)
  {
    var run :| LeadsBy(c, s, t, run);
    ReachableRun(c, s, run);
  }

  /** The caller that takes an action, and the flight that it is part of. */
  function CallerOf<K, V>(a: Action<K, V>): Option<nat> {
    match a
    case Check(i) => Some(i)
    case Enter(i) => Some(i)
    case Return(i) => Some(i)
    case _ => None
  }

  function FlightOf<K, V>(a: Action<K, V>): Option<nat> {
    match a
    case Recheck(n) => Some(n)
    case Finish(n, _) => Some(n)
    case Store(n) => Some(n)
    case FallBack(n) => Some(n)
    case Close(n) => Some(n)
    case _ => None
  }

  /** Neither this caller nor the flight that it leads has anything to do with the action. */
  predicate Foreign<K, V>(a: Action<K, V>, caller: Option<nat>, led: Option<nat>) {
    (CallerOf(a).Some? ==> CallerOf(a) != caller) && (FlightOf(a).Some? ==> FlightOf(a) != led)
  }

  /** The caller and the flight that it leads are as they were; entries of the cache are never dropped. */
  ghost predicate Kept<K, V>(s: State<K, V>, t: State<K, V>, caller: Option<nat>, led: Option<nat>) {
    && |s.callers| <= |t.callers| && |s.flights| <= |t.flights|
    && s.cache.Keys <= t.cache.Keys
    && (caller.Some? && caller.value < |s.callers| ==> t.callers[caller.value] == s.callers[caller.value])
    && (led.Some? && led.value < |s.flights| ==> t.flights[led.value] == s.flights[led.value])
  }

  lemma StepKeepsOthers<K(!new), V(!new)>(c: Config<K>, s: State<K, V>, a: Action<K, V>, caller: Option<nat>, led: Option<nat>)
    requires Enabled(c, s, a) && Foreign(a, caller, led)
    ensures Kept(s, Apply(c, s, a), caller, led)
  {
  }

  /** What the outside decides about one call: what a lookup of its own returns, and what everyone else does meanwhile. */
  datatype Script<!K, !V> = Script(fetch: Option<V>, patience: nat, others: nat -> seq<Action<K, V>>)

  /** Nobody else acts during the call. */
  ghost predicate Quiet<K, V>(io: Script<K, V>) { forall n: nat :: io.others(n) == [] }

  ghost function EntryOf<K, V>(s: State<K, V>, k: K): Option<V> { if k in s.cache then Some(s.cache[k].value) else None }

  /** What a call in `s` that is left alone gets: a fresh entry, or else what its lookup returns, or else perhaps an old entry. */
  ghost predicate Answers<K, V>(s: State<K, V>, k: K, c: Config<K>, io: Script<K, V>, value: Option<V>) {
    value == if k in s.cache && s.now - s.cache[k].storedAt < c.ttl then EntryOf(s, k)
             else if io.fetch.Some? then io.fetch
             else if c.fallback then EntryOf(s, k)
             else None
  }

  class SharedCache<K(==,!new), V(==,!new)> {
    const config: Config<K>
    var now: int
    var cache: map<K, Entry<V>>
    var fetches: seq<Fetch<K, V>>
    var flights: seq<Flight<K, V>>
    var current: map<string, nat>
    var callers: seq<Caller<K, V>>

    function View(): State<K, V>
      reads this
    {
      State(now, cache, fetches, flights, current, callers)
    }

    constructor (config: Config<K>, now: int)
      ensures this.config == config && View() == Initial(now)
    {
      this.config, this.now := config, now;
      cache, fetches, flights, current, callers := map[], [], [], map[], [];
    }

    /** One step of the machine. `start` is where the enclosing call set out from. */
    method Step(a: Action<K, V>, ghost start: State<K, V>)
      requires Enabled(config, View(), a) && Leads(config, start, View())
      modifies this
      ensures View() == Apply(config, old(View()), a)
      ensures Leads(config, start, View())
    {
      LeadsStep(config, start, View(), a);
      var t := Apply(config, View(), a);
      now, cache, fetches, flights, current, callers := t.now, t.cache, t.fetches, t.flights, t.current, t.callers;
    }

    /** Everyone else acts. */
    method Interfere(script: seq<Action<K, V>>, caller: Option<nat>, led: Option<nat>, ghost start: State<K, V>)
      requires Leads(config, start, View())
      requires (caller.Some? ==> caller.value < |callers|) && (led.Some? ==> led.value < |flights|)
      modifies this
      ensures Leads(config, start, View())
      ensures Kept(old(View()), View(), caller, led) && (script == [] ==> View() == old(View()))
    {
      for k := 0 to |script|
        invariant Leads(config, start, View())
        invariant Kept(old(View()), View(), caller, led) && (script == [] ==> View() == old(View()))
      {
        if Enabled(config, View(), script[k]) && Foreign(script[k], caller, led) {
          StepKeepsOthers(config, View(), script[k], caller, led);
          Step(script[k], start);
        }
      }
    }

    /** The lookup itself, and what becomes of its outcome: the cache takes a success, a failure may fall back on it. */
    method LookUp(i: nat, n: nat, io: Script<K, V>, ghost start: State<K, V>)
      requires Leads(config, start, View()) && i < |callers| && FlightAt(View(), n, Fetching)
      modifies this
      ensures Leads(config, start, View())
      ensures |old(callers)| <= |callers| && callers[i] == old(callers[i])
      ensures n < |flights| && flights[n].open && flights[n].pc.Settled?
      ensures io.fetch.Some? ==> flights[n].pc.answer.value == io.fetch
      ensures io.fetch.None? && Quiet(io) ==> flights[n].pc.answer.value == if config.fallback then EntryOf(old(View()), old(flights[n].key)) else None
    {
      Interfere(io.others(4), Some(i), Some(n), start);
      Step(Finish(n, io.fetch), start);
      Interfere(io.others(5), Some(i), Some(n), start);
      if flights[n].pc.Storing? {
        Step(Store(n), start);
      } else if flights[n].pc.FallingBack? {
        Step(FallBack(n), start);
      }
    }

    /** The shared function: check again, else look up and store, or fall back; then hand the result to all who wait. */
    method Lead(i: nat, n: nat, io: Script<K, V>, ghost start: State<K, V>)
      requires Leads(config, start, View()) && i < |callers| && FlightAt(View(), n, Checking)
      modifies this
      ensures Leads(config, start, View())
      ensures |old(callers)| <= |callers| && callers[i] == old(callers[i])
      ensures n < |flights| && !flights[n].open
      ensures Quiet(io) ==> flights[n].pc.Settled? && Answers(old(View()), old(flights[n].key), config, io, flights[n].pc.answer.value)
    {
      Interfere(io.others(3), Some(i), Some(n), start);
      Step(Recheck(n), start);
      if flights[n].pc.Fetching? { LookUp(i, n, io, start); }
      Interfere(io.others(6), Some(i), Some(n), start);
      Step(Close(n), start);
    }

    /** Waits for a flight that another caller leads, for as long as the script has patience. */
    method Wait(i: nat, n: nat, io: Script<K, V>, ghost start: State<K, V>)
      requires Leads(config, start, View()) && i < |callers| && n < |flights|
      modifies this
      ensures Leads(config, start, View())
      ensures |old(callers)| <= |callers| && callers[i] == old(callers[i]) && n < |flights|
    {
      for w := 0 to io.patience
        invariant Leads(config, start, View())
        invariant |old(callers)| <= |callers| && callers[i] == old(callers[i]) && n < |flights|
      {
        if !flights[n].open { return; }
        Interfere(io.others(7 + w), Some(i), None, start);
      }
    }

    /** Joins the flight under way for the caller's key, or leads a new one. */
    method Join(i: nat, io: Script<K, V>, ghost start: State<K, V>) returns (done: bool)
      requires Leads(config, start, View()) && CallerAt(View(), i, Missed)
      requires forall name | name in current :: current[name] < |flights|
      modifies this
      ensures Leads(config, start, View())
      ensures i < |callers| && callers[i].key == old(callers[i].key) && callers[i].known == old(callers[i].known)
      ensures if done then callers[i].stage.Returned? else callers[i].stage.Waiting?
      ensures Quiet(io) && config.flightKey(old(callers[i].key)) !in old(current) ==>
        done && Answers(old(View()), old(callers[i].key), config, io, callers[i].stage.answer.value)
    {
      var name := config.flightKey(callers[i].key);
      var leading := name !in current;
      Step(Enter(i), start);
      var n := callers[i].stage.flight;
      if leading {
        Lead(i, n, io, start);
      } else {
        Wait(i, n, io, start);
      }
      done := !flights[n].open;
      if done { Step(Return(i), start); }
    }

    /** A call begins, and the cache is looked at. */
    method Begin(key: K, io: Script<K, V>, ghost start: State<K, V>) returns (i: nat)
      requires config.valid(key) && Leads(config, start, View())
      modifies this
      ensures Leads(config, start, View())
      ensures |old(callers)| <= i < |callers| && callers[i].key == key && (key in old(cache) ==> callers[i].known)
      ensures callers[i].stage.Missed? || callers[i].stage.Returned?
      ensures Quiet(io) ==> View() == old(View()).(callers := callers)
      ensures Quiet(io) ==> if Fresh(config, old(View()), key) then callers[i].stage == Returned(FromCache(old(View()), key)) else callers[i].stage.Missed?
    {
      Interfere(io.others(0), None, None, start);
      i := |callers|;
      Step(Call(key), start);
      Interfere(io.others(1), Some(i), None, start);
      Step(Check(i), start);
    }

    /** A whole call: the cache first, then the shared lookup. Not done means that it still waits for another's flight. */
    method Get(key: K, io: Script<K, V>) returns (i: nat, done: bool)
      requires config.valid(key) && Separate(config) && Reachable(config, View())
      modifies this
      ensures Leads(config, old(View()), View())
      ensures |old(callers)| <= i < |callers| && callers[i].key == key && (key in old(cache) ==> callers[i].known)
      ensures if done then callers[i].stage.Returned? else callers[i].stage.Waiting?
      ensures Quiet(io) && (Fresh(config, old(View()), key) || config.flightKey(key) !in old(current)) ==>
        done && Answers(old(View()), key, config, io, callers[i].stage.answer.value)
    {
      ghost var start := View();
      LeadsNowhere(config, start);
      i := Begin(key, io, start);
      if callers[i].stage.Returned? { return i, true; }
      Interfere(io.others(2), Some(i), None, start);
      LeadsKeepsReachable(config, start, View());
      ReachableInv(config, View());
      done := Join(i, io, start);
    }
  }

  /** Caller `i` asked for `key`, and this is how its call stands: finished with `value`, or waiting for another's flight. */
  ghost predicate Stands<K, V>(s: State<K, V>, i: nat, key: K, done: bool, value: Option<V>) {
    && i < |s.callers| && s.callers[i].key == key
    && if done then s.callers[i].stage.Returned? && s.callers[i].stage.answer.value == value else s.callers[i].stage.Waiting?
  }

  class ManifestSource {
    const cacheTTL: int
    const shared: SharedCache<ManifestKey, string>

    constructor (cacheTTL: int, now: int)
      ensures this.cacheTTL == cacheTTL && shared.config == ManifestConfig(cacheTTL) && fresh(shared)
      ensures shared.View() == Initial(now)
    {
      this.cacheTTL := cacheTTL;
      shared := new SharedCache(ManifestConfig(cacheTTL), now);
    }

    /**
     With everyone else interleaved: data that is returned was fetched from this repository, path and branch, by the
     flight waited for or less than the time to live before the check that served it.
     */
    method Get(key: ManifestKey, io: Script<ManifestKey, string>) returns (done: bool, data: Option<string>, ghost via: Via)
      requires shared.config == ManifestConfig(cacheTTL) && NulFree(key) && Reachable(shared.config, shared.View())
      modifies shared
      ensures Reachable(shared.config, shared.View()) && Leads(shared.config, old(shared.View()), shared.View())
      ensures done && data.Some? ==>
        && (via.Fetched? || (via.Cached? && 0 <= via.checkedAt - via.storedAt < shared.config.ttl))
        && FetchedAs(shared.fetches, via.serial, key, data.value)
      ensures exists i: nat :: |old(shared.callers)| <= i && Stands(shared.View(), i, key, done, data)
      ensures Quiet(io) && (Fresh(shared.config, old(shared.View()), key) || shared.config.flightKey(key) !in old(shared.current)) ==>
        done && Answers(old(shared.View()), key, shared.config, io, data)
    {
      InstancesAreSeparate(cacheTTL);
      var i;
      ghost var start := shared.View();
      i, done := shared.Get(key, io);
      LeadsKeepsReachable(shared.config, start, shared.View());
      data, via := None, Failed;
      if done {
        data, via := shared.callers[i].stage.answer.value, shared.callers[i].stage.answer.via;
        ManifestsAreTheirOwn(cacheTTL, shared.View(), i);
        ReachableInv(shared.config, shared.View());
        assert CallerSound(shared.config, shared.View(), i);
      }
      assert Stands(shared.View(), i, key, done, data);
    }
  }

  class FolderResolver {
    const cacheTTL: int
    const shared: SharedCache<string, seq<string>>

    constructor (cacheTTL: int, now: int)
      ensures this.cacheTTL == cacheTTL && shared.config == FolderConfig(cacheTTL) && fresh(shared)
      ensures shared.View() == Initial(now)
    {
      this.cacheTTL := cacheTTL;
      shared := new SharedCache(FolderConfig(cacheTTL), now);
    }

    /**
     The same for a folder's projects, with the fallback: a call that finishes does not fail once the folder has an entry,
     and a stale listing is the latest one that any lookup had returned when it was read.
     */
    method ProjectsInFolder(id: string, io: Script<string, seq<string>>) returns (done: bool, projects: Option<seq<string>>, ghost via: Via)
      requires shared.config == FolderConfig(cacheTTL) && Reachable(shared.config, shared.View())
      modifies shared
      ensures Reachable(shared.config, shared.View()) && Leads(shared.config, old(shared.View()), shared.View())
      ensures done && projects.Some? ==>
        && !via.Failed? && FetchedAs(shared.fetches, via.serial, id, projects.value)
        && (via.Cached? ==> 0 <= via.checkedAt - via.storedAt < shared.config.ttl)
        && (via.Stale? ==> NoSuccess(shared.fetches, id, via.serial + 1, via.upto))
      ensures done && id in old(shared.cache) ==> projects.Some?
      ensures exists i: nat :: |old(shared.callers)| <= i && Stands(shared.View(), i, id, done, projects)
      ensures Quiet(io) && (Fresh(shared.config, old(shared.View()), id) || id !in old(shared.current)) ==>
        done && Answers(old(shared.View()), id, shared.config, io, projects)
    {
      InstancesAreSeparate(cacheTTL);
      var i;
      ghost var start := shared.View();
      i, done := shared.Get(id, io);
      LeadsKeepsReachable(shared.config, start, shared.View());
      projects, via := None, Failed;
      if done {
        projects, via := shared.callers[i].stage.answer.value, shared.callers[i].stage.answer.via;
        ServedValuesWereFetched(shared.config, shared.View(), i);
        ReachableInv(shared.config, shared.View());
        assert CallerSound(shared.config, shared.View(), i);
      }
      assert Stands(shared.View(), i, id, done, projects);
    }
  }
}
