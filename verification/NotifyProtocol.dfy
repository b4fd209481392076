/**
 Debounced notifications as a machine over the `notification_debounce` rows. A delivery claims its
 row, sends, then confirms or reverts; a recovery claims the marker row of a healthDegraded rule,
 runs a whole delivery on its own row, and only then clears or frees the marker. Any number of
 attempts interleave with each other and the clock, lose replies and crash anywhere.

 Assumptions built into the machine: one clock; a confirm, revert, clear or release that commits does
 so within the claim TTL of its attempt; the rows of healthDegraded rules are used by no other rule.
 */
module NotifyProtocol {
  import opened Wrappers

  datatype Key = Key(app: string, project: string, rule: string)

  const EPOCH := 0

  /** `last` is when a notification was last confirmed, `claim` when the current claim expires. */
  datatype Row = Row(last: int, claim: Option<int>)

  /** Debounce interval, claim TTL, and the rows that belong to healthDegraded rules. */
  datatype Config = Config(interval: int, ttl: int, markers: set<Key>)

  predicate Sane(c: Config) {
    0 <= c.interval && 0 <= c.ttl
  }

  datatype Pc =
    | ClaimingMarker
    | Claiming
    | Sending
    | Confirming
    | Reverting
    | ClearingMarker
    | FreeingMarker
    | Done
    | Crashed

  /** One call of maybeNotify on `row`, wrapped in the recovery protocol when `marker` is set. */
  datatype Attempt = Attempt(
    marker: Option<Key>,
    row: Key,
    pc: Pc,
    markerUntil: Option<int>,  // expiry of its claim on the marker
    rowUntil: Option<int>,     // expiry of its claim on the row
    claimedAt: int,
    sent: bool,                // the sink accepted the message
    confirmed: bool)           // and the confirmation committed and was acknowledged

  datatype Entry =
    | Delivered(key: Key, who: nat, claimedAt: int, at: int)
    | Cleared(key: Key, who: nat, at: int)

  datatype State = State(now: int, rows: map<Key, Row>, attempts: seq<Attempt>, log: seq<Entry>)

  datatype Fate = Applied | Unacknowledged | Rejected

  datatype Action =
    | Tick(now: int)
    | Start(marker: Option<Key>, row: Key)
    | ClaimMarker(id: nat, fate: Fate)
    | Claim(id: nat, fate: Fate)
    | Send(id: nat, ok: bool)
    | Confirm(id: nat, fate: Fate)
    | Revert(id: nat, fate: Fate)
    | ClearMarker(id: nat, fate: Fate)
    | FreeMarker(id: nat, fate: Fate)
    | Crash(id: nat)

  // ---------------------------------------------------------------- statements

  predicate Unclaimed(r: Row, now: int) {
    r.claim.None? || r.claim.value < now
  }

  /** maybeNotify's INSERT ... ON CONFLICT: the row is new, or neither debounced nor claimed. */
  predicate MayClaim(c: Config, rows: map<Key, Row>, k: Key, now: int) {
    k in rows ==> rows[k].last < now - c.interval && Unclaimed(rows[k], now)
  }

  function ClaimRow(c: Config, rows: map<Key, Row>, k: Key, now: int): map<Key, Row> {
    rows[k := Row(if k in rows then rows[k].last else EPOCH, Some(now + c.ttl))]
  }

  /** claimRecoveryClear's UPDATE: only a row that was notified and is not claimed. */
  predicate MayClaimMarker(rows: map<Key, Row>, k: Key, now: int) {
    k in rows && rows[k].last > EPOCH && Unclaimed(rows[k], now)
  }

  function Unclaim(rows: map<Key, Row>, k: Key): map<Key, Row> {
    if k in rows then rows[k := rows[k].(claim := None)] else rows
  }

  /** Confirming sets `last` to now, clearing sets it back to the epoch; both drop the claim. */
  function Finish(rows: map<Key, Row>, k: Key, last: int): map<Key, Row> {
    if k in rows then rows[k := Row(last, None)] else rows
  }

  // ---------------------------------------------------------------- transitions

  predicate At(s: State, id: nat, pc: Pc) {
    id < |s.attempts| && s.attempts[id].pc == pc
  }

  predicate Within(until: Option<int>, now: int) {
    until.Some? && now <= until.value
  }

  predicate Enabled(c: Config, s: State, act: Action) {
    match act
    case Tick(t) => s.now <= t
    case Start(marker, row) => (row in c.markers ==> marker.None?) && (marker.Some? ==> marker.value in c.markers)
    case ClaimMarker(id, _) => At(s, id, ClaimingMarker)
    case Claim(id, _) => At(s, id, Claiming)
    case Send(id, _) => At(s, id, Sending)
    case Confirm(id, fate) => At(s, id, Confirming) && (fate.Rejected? || Within(s.attempts[id].rowUntil, s.now))
    case Revert(id, fate) => At(s, id, Reverting) && (fate.Rejected? || Within(s.attempts[id].rowUntil, s.now))
    case ClearMarker(id, fate) => At(s, id, ClearingMarker) && (fate.Rejected? || Within(s.attempts[id].markerUntil, s.now))
    case FreeMarker(id, fate) => At(s, id, FreeingMarker) && (fate.Rejected? || Within(s.attempts[id].markerUntil, s.now))
    case Crash(id) => id < |s.attempts| && !s.attempts[id].pc.Done?
  }

  function Put(s: State, id: nat, a: Attempt): State
    requires id < |s.attempts|
  {
    s.(attempts := s.attempts[id := a])
  }

  /** Where the enclosing protocol continues once maybeNotify has returned. */
  function AfterDelivery(a: Attempt): Pc {
    if a.marker.None? then Done else if a.confirmed then ClearingMarker else FreeingMarker
  }

  function Apply(c: Config, s: State, act: Action): State
    requires Enabled(c, s, act)
  {
    match act
    case Tick(t) => s.(now := t)
    case Start(marker, row) =>
      s.(attempts := s.attempts + [Attempt(marker, row, if marker.None? then Claiming else ClaimingMarker, None, None, 0, false, false)])
    case ClaimMarker(id, fate) => ApplyClaimMarker(c, s, id, fate)
    case Claim(id, fate) => ApplyClaim(c, s, id, fate)
    case Send(id, ok) => Put(s, id, s.attempts[id].(pc := if ok then Confirming else Reverting, sent := ok))
    case Confirm(id, fate) =>
      var a := s.attempts[id];
      var b := a.(rowUntil := if fate.Rejected? then a.rowUntil else None, confirmed := fate.Applied?);
      var t := Put(s, id, b.(pc := AfterDelivery(b)));
      if fate.Rejected? then t
      else t.(rows := Finish(s.rows, a.row, s.now), log := s.log + [Delivered(a.row, id, a.claimedAt, s.now)])
    case Revert(id, fate) =>
      var a := s.attempts[id];
      var b := a.(rowUntil := if fate.Rejected? then a.rowUntil else None);
      var t := Put(s, id, b.(pc := AfterDelivery(b)));
      if fate.Rejected? then t else t.(rows := Unclaim(s.rows, a.row))
    case ClearMarker(id, fate) => ApplyEndMarker(s, id, fate, true)
    case FreeMarker(id, fate) => ApplyEndMarker(s, id, fate, false)
    case Crash(id) => Put(s, id, s.attempts[id].(pc := Crashed))
  }

  function ApplyClaimMarker(c: Config, s: State, id: nat, fate: Fate): State
    requires id < |s.attempts|
  {
    var a := s.attempts[id];
    if fate.Rejected? || a.marker.None? || !MayClaimMarker(s.rows, a.marker.value, s.now) then Put(s, id, a.(pc := Done))
    else
      var k := a.marker.value;
      var t := s.(rows := s.rows[k := s.rows[k].(claim := Some(s.now + c.ttl))]);
      if fate.Unacknowledged? then Put(t, id, a.(pc := Done))
      else Put(t, id, a.(pc := Claiming, markerUntil := Some(s.now + c.ttl)))
  }

  function ApplyClaim(c: Config, s: State, id: nat, fate: Fate): State
    requires id < |s.attempts|
  {
    var a := s.attempts[id];
    if fate.Rejected? || !MayClaim(c, s.rows, a.row, s.now) then Put(s, id, a.(pc := AfterDelivery(a)))
    else
      var t := s.(rows := ClaimRow(c, s.rows, a.row, s.now));
      if fate.Unacknowledged? then Put(t, id, a.(pc := AfterDelivery(a)))
      else Put(t, id, a.(pc := Sending, rowUntil := Some(s.now + c.ttl), claimedAt := s.now))
  }

  function ApplyEndMarker(s: State, id: nat, fate: Fate, clear: bool): State
    requires id < |s.attempts|
  {
    var a := s.attempts[id];
    if fate.Rejected? || a.marker.None? then Put(s, id, a.(pc := Done))
    else
      var k := a.marker.value;
      var t := Put(s, id, a.(pc := Done, markerUntil := None));
      if clear then t.(rows := Finish(s.rows, k, EPOCH), log := s.log + [Cleared(k, id, s.now)])
      else t.(rows := Unclaim(s.rows, k))
  }

  predicate CanRun(c: Config, s: State, acts: seq<Action>)
    decreases |acts|
  {
    acts == [] || (Enabled(c, s, acts[0]) && CanRun(c, Apply(c, s, acts[0]), acts[1..]))
  }

  function Run(c: Config, s: State, acts: seq<Action>): State
    requires CanRun(c, s, acts)
    decreases |acts|
  {
    if acts == [] then s else Run(c, Apply(c, s, acts[0]), acts[1..])
  }

  lemma {:induction false} RunConcat(c: Config, s: State, xs: seq<Action>, ys: seq<Action>)
    requires CanRun(c, s, xs) && CanRun(c, Run(c, s, xs), ys)
    ensures CanRun(c, s, xs + ys) && Run(c, s, xs + ys) == Run(c, Run(c, s, xs), ys)
    decreases |xs|
  {
    if xs == [] {
      assert xs + ys == ys;
    } else {
      RunConcat(c, Apply(c, s, xs[0]), xs[1..], ys);
      assert (xs + ys)[1..] == xs[1..] + ys;
    }
  }

  // ---------------------------------------------------------------- invariant

  /** The attempt's claim on `k` is still running. */
  predicate Holds(a: Attempt, k: Key, now: int) {
    (a.marker == Some(k) && Within(a.markerUntil, now)) || (a.row == k && Within(a.rowUntil, now))
  }

  ghost predicate Ids(s: State, i: int, j: int) {
    0 <= i < |s.attempts| && 0 <= j < |s.attempts| && i != j
  }

  ghost predicate Exclusive(s: State) {
    forall i, j, k | Ids(s, i, j) && Holds(s.attempts[i], k, s.now) :: !Holds(s.attempts[j], k, s.now)
  }

  /** Inside maybeNotify. */
  predicate InDelivery(a: Attempt) {
    a.pc.Claiming? || a.pc.Sending? || a.pc.Confirming? || a.pc.Reverting?
  }

  /** A running claim of an attempt is what its row says. */
  ghost predicate Backed(c: Config, s: State, a: Attempt) {
    && (a.marker.Some? ==> a.marker.value in c.markers && a.row !in c.markers)
    && (a.marker.None? ==> a.markerUntil.None?)
    && (Within(a.markerUntil, s.now) ==>
          a.marker.value in s.rows && s.rows[a.marker.value].claim == a.markerUntil && s.rows[a.marker.value].last > EPOCH)
    && (Within(a.rowUntil, s.now) ==>
          a.row in s.rows && s.rows[a.row].claim == a.rowUntil && s.rows[a.row].last + c.interval < a.claimedAt)
    && (a.pc.Sending? || a.pc.Confirming? || a.pc.Reverting? ==> a.rowUntil.Some? && a.claimedAt <= s.now)
    && (a.pc.ClaimingMarker? || a.pc.Claiming? ==> a.rowUntil.None?)
    && (a.pc.ClaimingMarker? ==> a.markerUntil.None?)
    && (a.marker.Some? && InDelivery(a) ==> a.markerUntil.Some?)
    && (a.pc.ClaimingMarker? || InDelivery(a) ==> !a.confirmed)
    && (a.pc.ClearingMarker? ==> a.confirmed && a.markerUntil.Some?)
    && (a.pc.Confirming? ==> a.sent)
    && (a.confirmed ==> a.sent)
  }

  /** What the log says the row's `last` column must be. */
  function Marker(log: seq<Entry>, k: Key): int {
    if log == [] then EPOCH
    else
      var e := log[|log| - 1];
      if e.key != k then Marker(log[..|log| - 1], k) else if e.Delivered? then e.at else EPOCH
  }

  /** Confirmed deliveries on one row, not separated by a clear, are more than the interval apart. */
  ghost predicate Spaced(c: Config, log: seq<Entry>) {
    forall i, j | 0 <= i < j < |log| && log[i].Delivered? && log[j].Delivered? && log[i].key == log[j].key
      && !ClearedBetween(log, log[i].key, i, j) ::
      log[i].at + c.interval < log[j].claimedAt <= log[j].at
  }

  ghost predicate ClearedBetween(log: seq<Entry>, k: Key, i: int, j: int) {
    exists m | i < m < j && 0 <= m < |log| :: log[m].Cleared? && log[m].key == k
  }

  ghost predicate DeliveredBetween(log: seq<Entry>, k: Key, i: int, j: int) {
    exists m | i < m < j && 0 <= m < |log| :: log[m].Delivered? && log[m].key == k
  }

  /** Between two clears of a marker there is a confirmed delivery on it, and before the first one too. */
  ghost predicate ClearsEarned(log: seq<Entry>) {
    forall j | 0 <= j < |log| && log[j].Cleared? ::
      forall i | -1 <= i < j && (i == -1 || (log[i].Cleared? && log[i].key == log[j].key)) :: DeliveredBetween(log, log[j].key, i, j)
  }

  ghost predicate LogTimes(s: State) {
    && (forall i, j | 0 <= i <= j < |s.log| :: s.log[i].at <= s.log[j].at)
    && (forall i | 0 <= i < |s.log| :: EPOCH < s.log[i].at <= s.now)
  }

  ghost predicate RowsMatchLog(c: Config, s: State) {
    && (forall k :: Marker(s.log, k) == if k in s.rows then s.rows[k].last else EPOCH)
    && (forall k | k in s.rows && s.rows[k].claim.Some? :: s.rows[k].claim.value <= s.now + c.ttl)
  }

  ghost predicate Inv(c: Config, s: State) {
    && EPOCH + c.interval < s.now && 0 <= c.interval
    && Exclusive(s)
    && (forall i | 0 <= i < |s.attempts| :: Backed(c, s, s.attempts[i]))
    && LogTimes(s) && RowsMatchLog(c, s)
    && Spaced(c, s.log) && ClearsEarned(s.log)
  }

  // ---------------------------------------------------------------- preservation

  ghost predicate Moves(s: State, t: State, id: nat) {
    && id < |s.attempts| && |t.attempts| == |s.attempts| && t.now == s.now
    && (forall i | 0 <= i < |s.attempts| && i != id :: t.attempts[i] == s.attempts[i])
    && t.attempts[id].marker == s.attempts[id].marker && t.attempts[id].row == s.attempts[id].row
  }

  /** Rows other than `k` are untouched. */
  ghost predicate Touches(s: State, t: State, k: Key) {
    forall x | x != k :: (x in t.rows <==> x in s.rows) && (x in s.rows ==> t.rows[x] == s.rows[x])
  }

  ghost predicate NoOther(s: State, id: nat, k: Key) {
    forall i | 0 <= i < |s.attempts| && i != id :: !Holds(s.attempts[i], k, s.now)
  }

  ghost predicate AllBacked(c: Config, s: State) {
    forall i | 0 <= i < |s.attempts| :: Backed(c, s, s.attempts[i])
  }

  lemma ExclusiveKept(s: State, t: State, id: nat)
    requires Exclusive(s) && Moves(s, t, id)
    requires forall k | Holds(t.attempts[id], k, t.now) :: Holds(s.attempts[id], k, s.now) || NoOther(s, id, k)
    ensures Exclusive(t)
  {
    forall i, j, k | Ids(t, i, j) && Holds(t.attempts[i], k, t.now) ensures !Holds(t.attempts[j], k, t.now) {
      assert Ids(s, i, j) && Ids(s, j, i);
    }
  }

  lemma BackedKept(c: Config, s: State, t: State, id: nat, k: Key)
    requires AllBacked(c, s) && Moves(s, t, id) && Touches(s, t, k) && NoOther(s, id, k) && Backed(c, t, t.attempts[id])
    ensures AllBacked(c, t)
  {
    forall i | 0 <= i < |t.attempts| ensures Backed(c, t, t.attempts[i]) {
      if i != id {
        assert Backed(c, s, s.attempts[i]) && !Holds(s.attempts[i], k, s.now);
      }
    }
  }

  /** A row whose claim is absent or expired has no holder; a held row has no second one. */
  lemma UnclaimedMeansFree(c: Config, s: State, id: nat, k: Key)
    requires AllBacked(c, s) && (k in s.rows ==> Unclaimed(s.rows[k], s.now))
    ensures NoOther(s, id, k)
  {
    forall i | 0 <= i < |s.attempts| && i != id ensures !Holds(s.attempts[i], k, s.now) {
      assert Backed(c, s, s.attempts[i]);
    }
  }

  lemma HolderIsAlone(s: State, id: nat, k: Key)
    requires Exclusive(s) && id < |s.attempts| && Holds(s.attempts[id], k, s.now)
    ensures NoOther(s, id, k)
  {
    forall i | 0 <= i < |s.attempts| && i != id ensures !Holds(s.attempts[i], k, s.now) {
      assert Ids(s, id, i);
    }
  }

  /** A step that touches neither rows nor log. */
  lemma QuietStep(c: Config, s: State, t: State, id: nat)
    requires Inv(c, s) && Moves(s, t, id) && t.rows == s.rows && t.log == s.log && Backed(c, t, t.attempts[id])
    requires forall k | Holds(t.attempts[id], k, t.now) :: Holds(s.attempts[id], k, s.now)
    ensures Inv(c, t)
  {
    ExclusiveKept(s, t, id);
    forall i | 0 <= i < |t.attempts| ensures Backed(c, t, t.attempts[i]) {
      assert Backed(c, s, s.attempts[i]);
    }
  }

  /** A step on one row that leaves its `last` column, and so the log, alone. */
  lemma ClaimColumnStep(c: Config, s: State, t: State, id: nat, k: Key)
    requires Inv(c, s) && Moves(s, t, id) && Touches(s, t, k) && NoOther(s, id, k) && t.log == s.log
    requires Backed(c, t, t.attempts[id])
    requires k in t.rows ==> t.rows[k].last == if k in s.rows then s.rows[k].last else EPOCH
    requires k in s.rows ==> k in t.rows
    requires k in t.rows && t.rows[k].claim.Some? ==> t.rows[k].claim.value <= t.now + c.ttl
    requires forall x | Holds(t.attempts[id], x, t.now) :: Holds(s.attempts[id], x, s.now) || x == k
    ensures Inv(c, t)
  {
    ExclusiveKept(s, t, id);
    BackedKept(c, s, t, id, k);
  }

  // ---------------------------------------------------------------- the log

  lemma {:induction false} MarkerBounds(log: seq<Entry>, k: Key, i: int)
    requires 0 <= i < |log| && log[i].Delivered? && log[i].key == k && !ClearedBetween(log, k, i, |log|)
    requires forall p, q | 0 <= p <= q < |log| :: log[p].at <= log[q].at
    ensures log[i].at <= Marker(log, k)
  {
    var n := |log| - 1;
    if log[n].key != k {
      assert log[..n][i] == log[i];
      forall m | i < m < n && 0 <= m < n ensures !(log[..n][m].Cleared? && log[..n][m].key == k) {
        assert log[m] == log[..n][m];
      }
      MarkerBounds(log[..n], k, i);
    }
  }

  lemma {:induction false} MarkerNeedsDelivery(log: seq<Entry>, k: Key, i: int)
    requires -1 <= i < |log| && (i == -1 || (log[i].Cleared? && log[i].key == k)) && Marker(log, k) > EPOCH
    ensures DeliveredBetween(log, k, i, |log|)
  {
    if log != [] {
      var n := |log| - 1;
      if log[n].key != k {
        MarkerNeedsDelivery(log[..n], k, i);
        var m :| i < m < n && 0 <= m < n && log[..n][m].Delivered? && log[..n][m].key == k;
        assert log[m] == log[..n][m];
      } else {
        assert log[n].Delivered? && i < n;
      }
    }
  }

  lemma MarkerSnoc(log: seq<Entry>, e: Entry, k: Key)
    ensures Marker(log + [e], k) == if e.key != k then Marker(log, k) else if e.Delivered? then e.at else EPOCH
  {
    assert (log + [e])[..|log|] == log;
  }

  lemma BetweenPrefix(log: seq<Entry>, e: Entry, k: Key, i: int, j: int)
    requires 0 <= j <= |log|
    ensures ClearedBetween(log + [e], k, i, j) == ClearedBetween(log, k, i, j)
    ensures DeliveredBetween(log + [e], k, i, j) == DeliveredBetween(log, k, i, j)
  {
    forall m | 0 <= m < |log| ensures (log + [e])[m] == log[m] {}
    if ClearedBetween(log, k, i, j) {
      var m :| i < m < j && 0 <= m < |log| && log[m].Cleared? && log[m].key == k;
      assert (log + [e])[m].Cleared?;
    }
    if DeliveredBetween(log, k, i, j) {
      var m :| i < m < j && 0 <= m < |log| && log[m].Delivered? && log[m].key == k;
      assert (log + [e])[m].Delivered?;
    }
  }

  /** Appending a delivery whose claim saw the marker long enough ago keeps the spacing. */
  lemma SpacedSnoc(c: Config, s: State, e: Entry)
    requires Spaced(c, s.log) && LogTimes(s) && e.at == s.now
    requires e.Delivered? ==> Marker(s.log, e.key) + c.interval < e.claimedAt <= e.at
    ensures Spaced(c, s.log + [e])
  {
    var log := s.log + [e];
    forall i, j | 0 <= i < j < |log| && log[i].Delivered? && log[j].Delivered? && log[i].key == log[j].key
      && !ClearedBetween(log, log[i].key, i, j)
      ensures log[i].at + c.interval < log[j].claimedAt <= log[j].at
    {
      BetweenPrefix(s.log, e, log[i].key, i, j);
      if j == |s.log| {
        MarkerBounds(s.log, e.key, i);
      }
    }
  }

  lemma ClearsEarnedSnoc(s: State, e: Entry)
    requires ClearsEarned(s.log)
    requires e.Cleared? ==> Marker(s.log, e.key) > EPOCH
    ensures ClearsEarned(s.log + [e])
  {
    var log := s.log + [e];
    forall j | 0 <= j < |log| && log[j].Cleared?
      ensures forall i | -1 <= i < j && (i == -1 || (log[i].Cleared? && log[i].key == log[j].key)) :: DeliveredBetween(log, log[j].key, i, j)
    {
      forall i | -1 <= i < j && (i == -1 || (log[i].Cleared? && log[i].key == log[j].key))
        ensures DeliveredBetween(log, log[j].key, i, j)
      {
        BetweenPrefix(s.log, e, log[j].key, i, j);
        if j == |s.log| {
          MarkerNeedsDelivery(s.log, e.key, i);
        } else {
          assert s.log[j] == log[j];
        }
      }
    }
  }

  /** The history part of a step that finishes row `e.key` and logs it. */
  lemma FinishLogs(c: Config, s: State, t: State, e: Entry)
    requires LogTimes(s) && RowsMatchLog(c, s) && Spaced(c, s.log) && ClearsEarned(s.log)
    requires EPOCH < s.now == t.now == e.at && e.key in s.rows && t.log == s.log + [e]
    requires t.rows == Finish(s.rows, e.key, if e.Delivered? then s.now else EPOCH)
    requires e.Delivered? ==> s.rows[e.key].last + c.interval < e.claimedAt <= e.at
    requires e.Cleared? ==> s.rows[e.key].last > EPOCH
    ensures LogTimes(t) && RowsMatchLog(c, t) && Spaced(c, t.log) && ClearsEarned(t.log)
  {
    assert Marker(s.log, e.key) == s.rows[e.key].last;
    SpacedSnoc(c, s, e);
    ClearsEarnedSnoc(s, e);
    forall k ensures Marker(t.log, k) == if k in t.rows then t.rows[k].last else EPOCH {
      MarkerSnoc(s.log, e, k);
      assert Marker(s.log, k) == if k in s.rows then s.rows[k].last else EPOCH;
    }
  }

  lemma FinishStep(c: Config, s: State, t: State, id: nat, e: Entry)
    requires Inv(c, s) && Moves(s, t, id) && Holds(s.attempts[id], e.key, s.now) && e.at == s.now && e.key in s.rows
    requires Backed(c, t, t.attempts[id]) && t.log == s.log + [e]
    requires t.rows == Finish(s.rows, e.key, if e.Delivered? then s.now else EPOCH)
    requires forall x | Holds(t.attempts[id], x, t.now) :: Holds(s.attempts[id], x, s.now)
    requires e.Delivered? ==> s.rows[e.key].last + c.interval < e.claimedAt <= e.at
    requires e.Cleared? ==> s.rows[e.key].last > EPOCH
    ensures Inv(c, t)
  {
    HolderIsAlone(s, id, e.key);
    ExclusiveKept(s, t, id);
    BackedKept(c, s, t, id, e.key);
    FinishLogs(c, s, t, e);
  }

  lemma ClaimMarkerStep(c: Config, s: State, id: nat, fate: Fate)
    requires Inv(c, s) && Sane(c) && Enabled(c, s, ClaimMarker(id, fate))
    ensures Inv(c, Apply(c, s, ClaimMarker(id, fate)))
  {
    var t := ApplyClaimMarker(c, s, id, fate);
    var a := s.attempts[id];
    assert Backed(c, s, a);
    if fate.Rejected? || a.marker.None? || !MayClaimMarker(s.rows, a.marker.value, s.now) {
      QuietStep(c, s, t, id);
    } else {
      UnclaimedMeansFree(c, s, id, a.marker.value);
      ClaimColumnStep(c, s, t, id, a.marker.value);
    }
  }

  lemma ClaimStep(c: Config, s: State, id: nat, fate: Fate)
    requires Inv(c, s) && Sane(c) && Enabled(c, s, Claim(id, fate))
    ensures Inv(c, Apply(c, s, Claim(id, fate)))
  {
    var t := ApplyClaim(c, s, id, fate);
    var a := s.attempts[id];
    assert Backed(c, s, a);
    if fate.Rejected? || !MayClaim(c, s.rows, a.row, s.now) {
      assert Backed(c, t, t.attempts[id]);
      QuietStep(c, s, t, id);
    } else {
      UnclaimedMeansFree(c, s, id, a.row);
      assert Backed(c, t, t.attempts[id]);
      ClaimColumnStep(c, s, t, id, a.row);
    }
  }

  lemma ConfirmStep(c: Config, s: State, id: nat, fate: Fate)
    requires Inv(c, s) && Sane(c) && Enabled(c, s, Confirm(id, fate))
    ensures Inv(c, Apply(c, s, Confirm(id, fate)))
  {
    var t := Apply(c, s, Confirm(id, fate));
    var a := s.attempts[id];
    assert Backed(c, s, a);
    assert Backed(c, t, t.attempts[id]);
    if fate.Rejected? {
      QuietStep(c, s, t, id);
    } else {
      FinishStep(c, s, t, id, Delivered(a.row, id, a.claimedAt, s.now));
    }
  }

  lemma RevertStep(c: Config, s: State, id: nat, fate: Fate)
    requires Inv(c, s) && Sane(c) && Enabled(c, s, Revert(id, fate))
    ensures Inv(c, Apply(c, s, Revert(id, fate)))
  {
    var t := Apply(c, s, Revert(id, fate));
    var a := s.attempts[id];
    assert Backed(c, s, a);
    assert Backed(c, t, t.attempts[id]);
    if fate.Rejected? {
      QuietStep(c, s, t, id);
    } else {
      HolderIsAlone(s, id, a.row);
      ClaimColumnStep(c, s, t, id, a.row);
    }
  }

  lemma ClearMarkerStep(c: Config, s: State, id: nat, fate: Fate)
    requires Inv(c, s) && Sane(c) && Enabled(c, s, ClearMarker(id, fate))
    ensures Inv(c, Apply(c, s, ClearMarker(id, fate)))
  {
    var t := Apply(c, s, ClearMarker(id, fate));
    var a := s.attempts[id];
    assert Backed(c, s, a);
    assert Backed(c, t, t.attempts[id]);
    if fate.Rejected? {
      QuietStep(c, s, t, id);
    } else {
      FinishStep(c, s, t, id, Cleared(a.marker.value, id, s.now));
    }
  }

  lemma FreeMarkerStep(c: Config, s: State, id: nat, fate: Fate)
    requires Inv(c, s) && Sane(c) && Enabled(c, s, FreeMarker(id, fate))
    ensures Inv(c, Apply(c, s, FreeMarker(id, fate)))
  {
    var t := Apply(c, s, FreeMarker(id, fate));
    var a := s.attempts[id];
    assert Backed(c, s, a);
    assert Backed(c, t, t.attempts[id]);
    if fate.Rejected? {
      QuietStep(c, s, t, id);
    } else {
      HolderIsAlone(s, id, a.marker.value);
      ClaimColumnStep(c, s, t, id, a.marker.value);
    }
  }

  lemma LocalStep(c: Config, s: State, act: Action)
    requires Inv(c, s) && Enabled(c, s, act) && (act.Send? || act.Crash?)
    ensures Inv(c, Apply(c, s, act))
  {
    assert Backed(c, s, s.attempts[act.id]);
    QuietStep(c, s, Apply(c, s, act), act.id);
  }

  lemma OutsideStep(c: Config, s: State, act: Action)
    requires Inv(c, s) && Sane(c) && Enabled(c, s, act) && (act.Tick? || act.Start?)
    ensures Inv(c, Apply(c, s, act))
  {
    var t := Apply(c, s, act);
    forall i, j, k | Ids(t, i, j) && Holds(t.attempts[i], k, t.now) ensures !Holds(t.attempts[j], k, t.now) {
      if i < |s.attempts| && j < |s.attempts| {
        assert Ids(s, i, j) && t.attempts[i] == s.attempts[i] && t.attempts[j] == s.attempts[j];
        assert Holds(s.attempts[i], k, s.now);
      }
    }
    forall i | 0 <= i < |t.attempts| ensures Backed(c, t, t.attempts[i]) {
      if i < |s.attempts| {
        assert t.attempts[i] == s.attempts[i] && Backed(c, s, s.attempts[i]);
      }
    }
  }

  lemma StepKeepsInv(c: Config, s: State, act: Action)
    requires Inv(c, s) && Sane(c) && Enabled(c, s, act)
    ensures Inv(c, Apply(c, s, act))
  {
    match act {
      case Tick(_) => OutsideStep(c, s, act);
      case Start(_, _) => OutsideStep(c, s, act);
      case ClaimMarker(id, fate) => ClaimMarkerStep(c, s, id, fate);
      case Claim(id, fate) => ClaimStep(c, s, id, fate);
      case Send(_, _) => LocalStep(c, s, act);
      case Confirm(id, fate) => ConfirmStep(c, s, id, fate);
      case Revert(id, fate) => RevertStep(c, s, id, fate);
      case ClearMarker(id, fate) => ClearMarkerStep(c, s, id, fate);
      case FreeMarker(id, fate) => FreeMarkerStep(c, s, id, fate);
      case Crash(_) => LocalStep(c, s, act);
    }
  }

  lemma {:induction false} RunKeepsInv(c: Config, s: State, acts: seq<Action>)
    requires Inv(c, s) && Sane(c) && CanRun(c, s, acts)
    ensures Inv(c, Run(c, s, acts))
    decreases |acts|
  {
    if acts != [] {
      StepKeepsInv(c, s, acts[0]);
      RunKeepsInv(c, Apply(c, s, acts[0]), acts[1..]);
    }
  }

  // ---------------------------------------------------------------- reachable states

  /** An empty table, at a time when the epoch is more than one debounce interval ago. */
  predicate Initial(c: Config, s: State) {
    EPOCH + c.interval < s.now && s.rows == map[] && s.attempts == [] && s.log == []
  }

  ghost predicate Reachable(c: Config, s: State) {
    exists s0, acts | Initial(c, s0) && CanRun(c, s0, acts) :: Run(c, s0, acts) == s
  }

  lemma ReachableInv(c: Config, s: State)
    requires Sane(c) && Reachable(c, s)
    ensures Inv(c, s)
  {
    var s0, acts :| Initial(c, s0) && CanRun(c, s0, acts) && Run(c, s0, acts) == s;
    RunKeepsInv(c, s0, acts);
  }

  lemma ReachableStep(c: Config, s: State, acts: seq<Action>)
    requires Reachable(c, s) && CanRun(c, s, acts)
    ensures Reachable(c, Run(c, s, acts))
  {
    var s0, before :| Initial(c, s0) && CanRun(c, s0, before) && Run(c, s0, before) == s;
    RunConcat(c, s0, before, acts);
  }
}
