/** What the notification protocol guarantees in every run. */
module NotifySafety {
  import opened Wrappers
  import opened NotifyProtocol

  /** At most one attempt holds a running claim on a row, whether as a delivery or as a recovery. */
  lemma OneClaimHolder(c: Config, s: State, a: nat, b: nat, k: Key)
    requires Sane(c) && Reachable(c, s) && a < |s.attempts| && b < |s.attempts|
    requires Holds(s.attempts[a], k, s.now) && Holds(s.attempts[b], k, s.now)
    ensures a == b
  {
    ReachableInv(c, s);
    assert a != b ==> Ids(s, a, b);
  }

  /** Two confirmed deliveries on a row with no clear between them are more than the interval apart. */
  lemma DeliveriesAreDebounced(c: Config, s: State, i: nat, j: nat)
    requires Sane(c) && Reachable(c, s) && i < j < |s.log|
    requires s.log[i].Delivered? && s.log[j].Delivered? && s.log[i].key == s.log[j].key
    requires forall m | i < m < j :: !(s.log[m].Cleared? && s.log[m].key == s.log[i].key)
    ensures s.log[i].at + c.interval < s.log[j].claimedAt <= s.log[j].at
  {
    ReachableInv(c, s);
    assert !ClearedBetween(s.log, s.log[i].key, i, j);
  }

  /**
   Whatever happened to the attempts before, once one claim TTL has passed the row can be claimed
   again as soon as its last confirmed delivery is old enough.
   */
  lemma InterruptionsHeal(c: Config, s: State, k: Key, at: int)
    requires Sane(c) && Reachable(c, s) && s.now + c.ttl < at
    ensures MayClaim(c, s.rows, k, at) <==> Marker(s.log, k) < at - c.interval || k !in s.rows
    ensures MayClaimMarker(s.rows, k, at) <==> Marker(s.log, k) > EPOCH
  {
    ReachableInv(c, s);
    assert Marker(s.log, k) == if k in s.rows then s.rows[k].last else EPOCH;
  }

  /** The row for `k` says that the attempt's claim runs for one claim TTL from now, and is as old as it was. */
  ghost predicate ClaimedNow(c: Config, s: State, t: State, k: Key) {
    t.rows == s.rows[k := Row(if k in s.rows then s.rows[k].last else EPOCH, Some(s.now + c.ttl))]
  }

  /** A delivery may go ahead exactly if its row is new, or neither debounced nor claimed; then it holds the row for one TTL. */
  lemma DeliveryClaimIsExact(c: Config, s: State, id: nat)
    requires At(s, id, Claiming)
    ensures
      var (k, t) := (s.attempts[id].row, Apply(c, s, Claim(id, Applied)));
      var free := k in s.rows ==> s.rows[k].last + c.interval < s.now && (s.rows[k].claim.Some? ==> s.rows[k].claim.value < s.now);
      && (t.attempts[id].pc.Sending? <==> free)
      && if free then ClaimedNow(c, s, t, k) && t.attempts[id].rowUntil == Some(s.now + c.ttl) && t.attempts[id].claimedAt == s.now
         else t.rows == s.rows && t.attempts[id].pc == if s.attempts[id].marker.None? then Done else if s.attempts[id].confirmed then ClearingMarker else FreeingMarker
  {
  }

  /** A recovery may go ahead exactly if its marker is set and not claimed; then it holds the marker for one TTL. */
  lemma RecoveryClaimIsExact(c: Config, s: State, id: nat)
    requires At(s, id, ClaimingMarker) && s.attempts[id].marker.Some?
    ensures
      var (k, t) := (s.attempts[id].marker.value, Apply(c, s, ClaimMarker(id, Applied)));
      var free := k in s.rows && s.rows[k].last > EPOCH && (s.rows[k].claim.Some? ==> s.rows[k].claim.value < s.now);
      && (t.attempts[id].pc.Claiming? <==> free)
      && if free then ClaimedNow(c, s, t, k) && t.attempts[id].markerUntil == Some(s.now + c.ttl)
         else t.rows == s.rows && t.attempts[id].pc.Done?
  {
  }

  /** Confirming stamps the row, clearing resets it, and either way, or when a claim is given back, the row is free at once. */
  lemma EndsAreExact(c: Config, s: State, act: Action)
    requires Enabled(c, s, act)
    ensures
      var t := Apply(c, s, act);
      match act
      case Confirm(id, fate) => t.rows == (if !fate.Rejected? && s.attempts[id].row in s.rows then s.rows[s.attempts[id].row := Row(s.now, None)] else s.rows)
      case Revert(id, fate) => t.rows == if fate.Rejected? then s.rows else GivenBack(s, Some(s.attempts[id].row))
      case ClearMarker(id, fate) =>
        t.rows == (var k := s.attempts[id].marker; if !fate.Rejected? && k.Some? && k.value in s.rows then s.rows[k.value := Row(EPOCH, None)] else s.rows)
      case FreeMarker(id, fate) => t.rows == if fate.Rejected? then s.rows else GivenBack(s, s.attempts[id].marker)
      case _ => true
  {
  }

  ghost function GivenBack(s: State, k: Option<Key>): map<Key, Row> {
    if k.Some? && k.value in s.rows then s.rows[k.value := Row(s.rows[k.value].last, None)] else s.rows
  }

  /** Only a confirmation or a clear moves the marker: a failed or debounced send leaves it alone. */
  lemma MarkerMovesOnlyOnFinish(c: Config, s: State, act: Action, k: Key)
    requires Inv(c, s) && Sane(c) && Enabled(c, s, act)
    ensures var t := Apply(c, s, act);
            Marker(t.log, k) != Marker(s.log, k) ==>
              (act.Confirm? && s.attempts[act.id].row == k) || (act.ClearMarker? && s.attempts[act.id].marker == Some(k))
  {
    if act.Confirm? {
      MarkerSnoc(s.log, Delivered(s.attempts[act.id].row, act.id, s.attempts[act.id].claimedAt, s.now), k);
    } else if act.ClearMarker? && s.attempts[act.id].marker.Some? {
      MarkerSnoc(s.log, Cleared(s.attempts[act.id].marker.value, act.id, s.now), k);
    }
  }

  /**
   A marker returns to the epoch only in the clearing step of an attempt that holds the marker's
   claim and whose own recovery message was sent and confirmed.
   */
  lemma MarkerClearedOnlyAfterRecoverySent(c: Config, s: State, act: Action, k: Key)
    requires Sane(c) && Reachable(c, s) && Enabled(c, s, act)
    requires Marker(s.log, k) > EPOCH && Marker(Apply(c, s, act).log, k) == EPOCH
    ensures act.ClearMarker? && Holds(s.attempts[act.id], k, s.now) && k in c.markers
    ensures s.attempts[act.id].sent && s.attempts[act.id].confirmed
  {
    ReachableInv(c, s);
    MarkerMovesOnlyOnFinish(c, s, act, k);
    assert Backed(c, s, s.attempts[act.id]);
    if act.Confirm? {
      MarkerSnoc(s.log, Delivered(k, act.id, s.attempts[act.id].claimedAt, s.now), k);
    }
  }

  /** Every clear is paid for: a confirmed delivery on that marker since the previous clear. */
  lemma ClearNeedsDelivery(c: Config, s: State, i: int, j: nat)
    requires Sane(c) && Reachable(c, s) && -1 <= i < j < |s.log| && s.log[j].Cleared?
    requires i == -1 || (s.log[i].Cleared? && s.log[i].key == s.log[j].key)
    ensures exists m | i < m < j && 0 <= m :: s.log[m].Delivered? && s.log[m].key == s.log[j].key
  {
    ReachableInv(c, s);
    assert DeliveredBetween(s.log, s.log[j].key, i, j);
  }

  /** The column the SQL tests and the history of confirmations and clears always agree. */
  lemma ColumnIsHistory(c: Config, s: State, k: Key)
    requires Sane(c) && Reachable(c, s) && k in s.rows
    ensures s.rows[k].last == Marker(s.log, k)
    ensures s.rows[k].last > EPOCH <==> exists i | 0 <= i < |s.log| :: s.log[i].Delivered? && s.log[i].key == k && !ClearedBetween(s.log, k, i, |s.log|)
  {
    ReachableInv(c, s);
    assert Marker(s.log, k) == s.rows[k].last;
    if exists i | 0 <= i < |s.log| :: s.log[i].Delivered? && s.log[i].key == k && !ClearedBetween(s.log, k, i, |s.log|) {
      var i :| 0 <= i < |s.log| && s.log[i].Delivered? && s.log[i].key == k && !ClearedBetween(s.log, k, i, |s.log|);
      MarkerBounds(s.log, k, i);
    }
    if s.rows[k].last > EPOCH {
      var _ := MarkerWitness(s.log, k);
    }
  }

  lemma {:induction false} MarkerWitness(log: seq<Entry>, k: Key) returns (i: nat)
    requires Marker(log, k) > EPOCH
    ensures i < |log| && log[i].Delivered? && log[i].key == k && !ClearedBetween(log, k, i, |log|)
  {
    var n := |log| - 1;
    if log[n].key == k {
      i := n;
    } else {
      i := MarkerWitness(log[..n], k);
      forall m | i < m < |log| ensures !(log[m].Cleared? && log[m].key == k) {
        assert m < n ==> log[..n][m] == log[m];
      }
    }
  }
}
