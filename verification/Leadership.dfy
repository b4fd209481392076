/**
 One replica's side of leader election: the renewal loop, the loop that restarts it after errors, and
 the context that in-flight work holds for the length of one leadership term.
 */
module Leadership {
  import opened Wrappers
  import opened Lease

  /** A cancellable context; cancellation of the parent counts as well. */
  class Context {
    const parent: Context?
    var cancelled: bool

    constructor (parent: Context?, cancelled: bool)
      ensures this.parent == parent && this.cancelled == cancelled
    {
      this.parent := parent;
      this.cancelled := cancelled;
    }

    predicate Err()
      reads this, parent
    {
      cancelled || (parent != null && parent.cancelled)
    }
  }

  class LeadershipContext {
    var ctx: Context
    ghost var terms: set<Context>  // every context this object has ever handed out

    ghost predicate Valid()
      reads this, terms
    {
      && ctx in terms
      && forall c | c in terms && c != ctx :: c.cancelled
    }

    /** newLeadershipContext: not the leader yet. */
    constructor (parent: Context)
      ensures Valid() && fresh(terms) && ctx.cancelled
    {
      ctx := new Context(parent, true);
      new;
      terms := {ctx};
    }

    /** Ends the running term and starts the next one; contexts of earlier terms stay cancelled. */
    method Set(parent: Context, leading: bool)
      requires Valid()
      modifies this, ctx
      ensures Valid() && fresh(ctx) && terms == old(terms) + {ctx}
      ensures ctx.parent == parent && ctx.cancelled == !leading
      ensures parent != old(ctx) ==> (ctx.Err() <==> !leading || old(parent.cancelled))
      ensures forall c | c in old(terms) :: c.cancelled
    {
      ctx.cancelled := true;
      ctx := new Context(parent, !leading);
      terms := terms + {ctx};
    }

    method Current() returns (c: Context)
      requires Valid()
      ensures c == ctx && c in terms
    {
      c := ctx;
    }
  }

  /** What ends an iteration of Run's select: a tick, with the outcome of its claim, or the context. */
  datatype Event = Ticked(outcome: Outcome) | Cancelled

  datatype Exit = StillRunning | ClaimError | ContextDone

  /** Reports strictly alternate, starting with true. */
  ghost predicate Alternates(reports: seq<bool>) {
    forall i | 0 <= i < |reports| :: reports[i] == (i % 2 == 0)
  }

  ghost predicate LastReport(reports: seq<bool>) {
    reports != [] && reports[|reports| - 1]
  }

  lemma AlternatesConcat(a: seq<bool>, b: seq<bool>)
    requires Alternates(a) && Alternates(b) && !LastReport(a)
    ensures Alternates(a + b)
    ensures LastReport(a + b) == LastReport(b)
  {
    assert |a| % 2 == 0;
  }

  /** What one select iteration amounts to for leadership: an ended context counts as a failure. */
  function OutcomeOf(e: Event): Outcome {
    match e
    case Ticked(outcome) => outcome
    case Cancelled => Failed
  }

  function Outcomes(first: Outcome, events: seq<Event>): seq<Outcome> {
    [first] + seq(|events|, i requires 0 <= i < |events| => OutcomeOf(events[i]))
  }

  /** The outcome in force after `n` events. */
  function Latest(first: Outcome, events: seq<Event>, n: nat): Outcome
    requires n <= |events|
  {
    if n == 0 then first else OutcomeOf(events[n - 1])
  }

  /** The changes of "the latest outcome was a granted claim", starting from not leading. */
  ghost function Changes(outcomes: seq<Outcome>): seq<bool> {
    if outcomes == [] then []
    else
      var before := Changes(outcomes[..|outcomes| - 1]);
      var now := outcomes[|outcomes| - 1] == Answered(true);
      if now != LastReport(before) then before + [now] else before
  }

  lemma AlternatesSnoc(reports: seq<bool>, now: bool)
    requires Alternates(reports) && now != LastReport(reports)
    ensures Alternates(reports + [now]) && LastReport(reports + [now]) == now
  {
  }

  /** The callback sees a strict alternation that starts with true and ends on the latest outcome. */
  lemma {:induction false} ChangesAlternate(outcomes: seq<Outcome>)
    ensures Alternates(Changes(outcomes))
    ensures LastReport(Changes(outcomes)) <==> outcomes != [] && outcomes[|outcomes| - 1] == Answered(true)
  {
    if outcomes != [] {
      var before := Changes(outcomes[..|outcomes| - 1]);
      ChangesAlternate(outcomes[..|outcomes| - 1]);
      var now := outcomes[|outcomes| - 1] == Answered(true);
      if now != LastReport(before) { AlternatesSnoc(before, now); }
    }
  }

  lemma NoneSeen(first: Outcome, events: seq<Event>)
    ensures Outcomes(first, events[..0]) == [] + [first]
  {
  }


  /** The callback has seen the changes of `outcomes`, and leadership is what it was last told. */
  ghost predicate InStep(reports: seq<bool>, outcomes: seq<Outcome>, leader: bool) {
    reports == Changes(outcomes) && Alternates(reports) && leader == LastReport(reports)
  }

  lemma StepsOn(reports: seq<bool>, outcomes: seq<Outcome>, leader: bool, outcome: Outcome)
    requires InStep(reports, outcomes, leader)
    ensures
      var (next, report) := AfterAttempt(leader, outcome);
      InStep(if report.Some? then reports + [report.value] else reports, outcomes + [outcome], next) && next == (outcome == Answered(true))
  {
    assert (outcomes + [outcome])[..|outcomes|] == outcomes;
  }

  /** None of the first `n` outcomes is a failure. */
  ghost predicate NoFailure(first: Outcome, events: seq<Event>, n: nat)
    requires n <= |events| + 1
  {
    forall i | 0 <= i < n :: !Latest(first, events, i).Failed?
  }

  /** A run sees `used` events: it goes on until an outcome is a failure. */
  ghost predicate RanFor(first: Outcome, events: seq<Event>, used: nat) {
    && used <= |events| && NoFailure(first, events, used)
    && (used < |events| ==> Latest(first, events, used).Failed?)
  }

  function ExitAfter(first: Outcome, events: seq<Event>, used: nat): Exit
    requires used <= |events|
  {
    if !Latest(first, events, used).Failed? then StillRunning
    else if used > 0 && events[used - 1].Cancelled? then ContextDone
    else ClaimError
  }

  /** One more event: an outcome more, and the end of the run if it is a failure. */
  lemma OneMoreSeen(first: Outcome, events: seq<Event>, n: nat)
    requires n < |events| && NoFailure(first, events, n + 1)
    ensures Outcomes(first, events[..n + 1]) == Outcomes(first, events[..n]) + [OutcomeOf(events[n])]
    ensures if OutcomeOf(events[n]).Failed? then RanFor(first, events, n + 1) && ExitAfter(first, events, n + 1) == (if events[n].Cancelled? then ContextDone else ClaimError)
            else NoFailure(first, events, n + 2)
  {
  }

  lemma RanForIsUnique(first: Outcome, events: seq<Event>, m: nat, n: nat)
    requires RanFor(first, events, m) && RanFor(first, events, n)
    ensures m == n
  {
  }

  /** The closure `attempt`, after its claim: reports a change to `lc` and to the caller's record. */
  method Attempt(wasLeader: bool, outcome: Outcome, parent: Context, lc: LeadershipContext, ghost outcomes: seq<Outcome>, reports: seq<bool>)
    returns (leader: bool, reports': seq<bool>)
    requires lc.Valid() && InStep(reports, outcomes, wasLeader) && wasLeader == !lc.ctx.cancelled
    modifies lc, lc.ctx
    ensures lc.Valid() && old(lc.terms) <= lc.terms && fresh(lc.terms - old(lc.terms))
    ensures lc.ctx == old(lc.ctx) || fresh(lc.ctx)
    ensures InStep(reports', outcomes + [outcome], leader) && leader == !lc.ctx.cancelled
    ensures leader == (outcome == Answered(true))
  {
    StepsOn(reports, outcomes, wasLeader, outcome);
    reports' := reports;
    var (next, report) := AfterAttempt(wasLeader, outcome);
    if report.Some? {
      lc.Set(parent, report.value);
      reports' := reports' + [report.value];
    }
    leader := next;
  }

  /**
   Lease.Run: claim at once, then at every tick, until a claim fails or the context ends. `reports`
   are the values passed to the callback, which forwards them to `lc`; `used` counts the events seen.
   */
  method Run(first: Outcome, events: seq<Event>, parent: Context, lc: LeadershipContext)
    returns (reports: seq<bool>, exit: Exit, used: nat)
    requires lc.Valid() && lc.ctx.cancelled
    modifies lc, lc.ctx
    ensures lc.Valid() && old(lc.terms) <= lc.terms && fresh(lc.terms - old(lc.terms))
    ensures lc.ctx == old(lc.ctx) || fresh(lc.ctx)
    ensures RanFor(first, events, used) && exit == ExitAfter(first, events, used)
    ensures reports == Changes(Outcomes(first, events[..used]))
    ensures Alternates(reports) && lc.ctx.cancelled == !LastReport(reports)
    ensures exit != StillRunning ==> !LastReport(reports)
  {
    used, exit := 0, StillRunning;
    NoneSeen(first, events);
    var wasLeader;
    wasLeader, reports := Attempt(false, first, parent, lc, [], []);
    if first.Failed? {
      return reports, ClaimError, 0;
    }
    while used < |events|
      invariant used <= |events| && exit == StillRunning
      invariant lc.Valid() && old(lc.terms) <= lc.terms && fresh(lc.terms - old(lc.terms))
      invariant lc.ctx == old(lc.ctx) || fresh(lc.ctx)
      invariant InStep(reports, Outcomes(first, events[..used]), wasLeader) && wasLeader == !lc.ctx.cancelled
      invariant NoFailure(first, events, used + 1)
    {
      OneMoreSeen(first, events, used);
      ghost var seen := Outcomes(first, events[..used]);
      var event := events[used];
      used := used + 1;
      // an ended context makes the deferred report exactly like a failed claim does
      wasLeader, reports := Attempt(wasLeader, OutcomeOf(event), parent, lc, seen, reports);
      if event.Cancelled? {
        return reports, ContextDone, used;
      }
      if event.outcome.Failed? {
        return reports, ClaimError, used;
      }
    }
  }

  const INITIAL_BACKOFF := SECOND
  const MAX_BACKOFF := 30 * SECOND
  const RESET_BACKOFF_AFTER := 120 * SECOND

  /** One call of Run inside the restart loop, how long it lasted, and whether the process is then stopping. */
  datatype Term = Term(first: Outcome, events: seq<Event>, lasted: int, stopping: bool)

  /** What the callback is told during the first |used| runs. */
  ghost function Told(terms: seq<Term>, used: seq<nat>): seq<bool>
    requires |used| <= |terms|
    decreases |used|
  {
    if used == [] then [] else
      var last := |used| - 1;
      Told(terms, used[..last]) + if used[last] <= |terms[last].events| then Changes(Outcomes(terms[last].first, terms[last].events[..used[last]])) else []
  }

  lemma ToldOneMore(terms: seq<Term>, used: seq<nat>, n: nat)
    requires |used| < |terms| && n <= |terms[|used|].events|
    ensures Told(terms, used + [n]) == Told(terms, used) + Changes(Outcomes(terms[|used|].first, terms[|used|].events[..n]))
  {
    assert (used + [n])[..|used|] == used;
  }

  ghost predicate RanIn(term: Term, used: nat) { RanFor(term.first, term.events, used) }

  /** Run `k` is followed by another one. */
  ghost predicate Restarts(terms: seq<Term>, used: seq<nat>, k: nat)
    requires k < |used| <= |terms|
  {
    RanIn(terms[k], used[k]) && ExitAfter(terms[k].first, terms[k].events, used[k]) == ClaimError && !terms[k].stopping
  }

  /** The runs that are made and how the loop ends: restarted after every error until the process stops or a run ends otherwise. */
  ghost predicate Elected(terms: seq<Term>, used: seq<nat>, exit: Exit) {
    && |used| <= |terms|
    && (forall k | 0 <= k < |used| - 1 :: Restarts(terms, used, k))
    && if exit == ClaimError then |used| == |terms| && (used != [] ==> Restarts(terms, used, |used| - 1))
       else
         && used != []
         && var last := |used| - 1;
         && RanIn(terms[last], used[last]) && !Restarts(terms, used, last)
         && var how := ExitAfter(terms[last].first, terms[last].events, used[last]);
         && exit == if how == ClaimError then ContextDone else how
  }

  /** The script leaves the loop no choice. */
  lemma ElectionIsDetermined(terms: seq<Term>, used: seq<nat>, exit: Exit, used': seq<nat>, exit': Exit)
    requires Elected(terms, used, exit) && Elected(terms, used', exit')
    ensures used == used' && exit == exit'
  {
    forall k: nat | k < |used| && k < |used'| ensures used[k] == used'[k] {
      assert RanIn(terms[k], used[k]) && RanIn(terms[k], used'[k]) by {
        assert k < |used| - 1 ==> Restarts(terms, used, k);
        assert k < |used'| - 1 ==> Restarts(terms, used', k);
      }
      RanForIsUnique(terms[k].first, terms[k].events, used[k], used'[k]);
    }
    assert |used| < |used'| && used != [] ==> Restarts(terms, used', |used| - 1);
    assert |used'| < |used| && used' != [] ==> Restarts(terms, used, |used'| - 1);
  }

  /** The pause after the k-th run. */
  ghost function Backoff(terms: seq<Term>, k: nat): int
    requires k < |terms|
  {
    if k == 0 || terms[k].lasted >= RESET_BACKOFF_AFTER then INITIAL_BACKOFF
    else
      var doubled := 2 * Backoff(terms, k - 1);
      if doubled > MAX_BACKOFF then MAX_BACKOFF else doubled
  }

  /** Pauses double from one second up to thirty, and every pause is at least the initial one. */
  lemma {:induction false} BackoffIsBounded(terms: seq<Term>, k: nat)
    requires k < |terms|
    ensures 1_000_000_000 <= Backoff(terms, k) <= 30_000_000_000
    ensures k == 0 || terms[k].lasted >= 120_000_000_000 ==> Backoff(terms, k) == 1_000_000_000
    ensures k > 0 && terms[k].lasted < 120_000_000_000 ==>
      Backoff(terms, k) == var doubled := 2 * Backoff(terms, k - 1); if doubled < 30_000_000_000 then doubled else 30_000_000_000
  {
    if k > 0 {
      BackoffIsBounded(terms, k - 1);
    }
  }

  /** The pauses made so far, and the next one to come. */
  ghost predicate Paused(terms: seq<Term>, pauses: seq<int>, backoff: int) {
    && |pauses| <= |terms| && (forall k | 0 <= k < |pauses| :: pauses[k] == Backoff(terms, k))
    && backoff == if pauses == [] then INITIAL_BACKOFF
                  else if 2 * pauses[|pauses| - 1] > MAX_BACKOFF then MAX_BACKOFF else 2 * pauses[|pauses| - 1]
  }

  lemma PausedOneMore(terms: seq<Term>, pauses: seq<int>, backoff: int)
    requires Paused(terms, pauses, backoff) && |pauses| < |terms|
    ensures
      var pause := if terms[|pauses|].lasted >= RESET_BACKOFF_AFTER then INITIAL_BACKOFF else backoff;
      Paused(terms, pauses + [pause], if 2 * pause > MAX_BACKOFF then MAX_BACKOFF else 2 * pause)
  {
  }

  ghost predicate AllRestarted(terms: seq<Term>, used: seq<nat>) {
    |used| <= |terms| && forall k | 0 <= k < |used| :: Restarts(terms, used, k)
  }

  lemma RestartsKept(terms: seq<Term>, used: seq<nat>, seen: nat)
    requires AllRestarted(terms, used) && |used| < |terms|
    ensures forall k | 0 <= k < |used| :: Restarts(terms, used + [seen], k)
  {
    forall k | 0 <= k < |used| ensures Restarts(terms, used + [seen], k) {
      assert Restarts(terms, used, k) && (used + [seen])[k] == used[k];
    }
  }

  /** How the loop goes on, or ends, after one more run. */
  lemma ElectedOneMore(terms: seq<Term>, used: seq<nat>, seen: nat, how: Exit)
    requires AllRestarted(terms, used) && |used| < |terms| && RanIn(terms[|used|], seen)
    requires how == ExitAfter(terms[|used|].first, terms[|used|].events, seen)
    ensures how == ClaimError && !terms[|used|].stopping ==> AllRestarted(terms, used + [seen])
    ensures how != ClaimError || terms[|used|].stopping ==> Elected(terms, used + [seen], if how == ClaimError then ContextDone else how)
  {
    RestartsKept(terms, used, seen);
    assert (used + [seen])[|used|] == seen;
  }

  /**
   runLeaderElection: restart Run after every error, with a pause after each run that is followed by another. `used`
   counts the events seen by each run made. Across all runs the reports alternate and the context mirrors the last one,
   so between runs this replica never looks like the leader.
   */
  method RunLeaderElection(terms: seq<Term>, parent: Context, lc: LeadershipContext)
    returns (reports: seq<bool>, pauses: seq<int>, exit: Exit, used: seq<nat>)
    requires lc.Valid() && lc.ctx.cancelled
    modifies lc, lc.ctx
    ensures lc.Valid() && old(lc.terms) <= lc.terms
    ensures forall c | c in old(lc.terms) && c != lc.ctx :: c.cancelled
    ensures Elected(terms, used, exit) && reports == Told(terms, used)
    ensures Alternates(reports) && lc.ctx.cancelled == !LastReport(reports)
    ensures exit != StillRunning ==> !LastReport(reports)
    ensures |pauses| == if exit == ClaimError then |used| else |used| - 1
    ensures |pauses| <= |terms| && forall k | 0 <= k < |pauses| :: pauses[k] == Backoff(terms, k)
  {
    reports, pauses, exit, used := [], [], ClaimError, [];
    var backoff := INITIAL_BACKOFF;
    var i := 0;
    while i < |terms|
      invariant 0 <= i <= |terms| && exit == ClaimError
      invariant lc.Valid() && lc.ctx.cancelled && old(lc.terms) <= lc.terms && fresh(lc.terms - old(lc.terms))
      invariant lc.ctx == old(lc.ctx) || fresh(lc.ctx)
      invariant Alternates(reports) && !LastReport(reports)
      invariant |used| == i && reports == Told(terms, used) && AllRestarted(terms, used)
      invariant |pauses| == i && Paused(terms, pauses, backoff)
    {
      var told, how, seen := Run(terms[i].first, terms[i].events, parent, lc);
      AlternatesConcat(reports, told);
      ToldOneMore(terms, used, seen);
      ElectedOneMore(terms, used, seen, how);
      PausedOneMore(terms, pauses, backoff);
      reports := reports + told;
      used := used + [seen];
      if how != ClaimError {
        return reports, pauses, how, used;
      }
      if terms[i].stopping {
        return reports, pauses, ContextDone, used;
      }
      if terms[i].lasted >= RESET_BACKOFF_AFTER {
        backoff := INITIAL_BACKOFF;
      }
      pauses := pauses + [backoff];
      backoff := backoff * 2;
      if backoff > MAX_BACKOFF {
        backoff := MAX_BACKOFF;
      }
      i := i + 1;
    }
  }
}
