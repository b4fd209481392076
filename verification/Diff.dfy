/** Comparing desired with live state on the managed fields only. */
module Diff {
  import opened Wrappers
  import opened EnvVars

  /** `None` stands for Go's nil: the field is not part of this state. */
  datatype ServiceState = ServiceState(
    imageDigest: string,
    traffic: Option<int>,
    envVars: Option<Vars>,
    secretRefs: Option<Secrets>)

  datatype ResourceType = Service | Job | WorkerPool

  datatype Status = Synced | OutOfSync

  /** stringMapEqual and secretMapEqual: equal sizes, and every entry of one found in the other. */
  predicate MapEqual<V(==)>(a: Option<map<string, V>>, b: Option<map<string, V>>) {
    var (m, n) := (Elems(a), Elems(b));
    |m| == |n| && forall k | k in m :: k in n && n[k] == m[k]
  }

  predicate TrafficEqual(a: Option<int>, b: Option<int>) {
    if a.None? || b.None? then a == b else a.value == b.value
  }

  function Compute(desired: ServiceState, live: ServiceState, managedFields: seq<string>, resourceType: ResourceType): Status {
    if managedFields == [] then Synced
    else
      var rest := Compute(desired, live, managedFields[1..], resourceType);
      match managedFields[0]
      case "image" =>
        if desired.imageDigest != live.imageDigest then OutOfSync else rest
      case "traffic" =>
        if resourceType != Service || desired.traffic.None? then rest
        else if !TrafficEqual(desired.traffic, live.traffic) then OutOfSync
        else rest
      case "env" =>
        if resourceType == Job || (desired.envVars.None? && desired.secretRefs.None?) then rest
        else if !MapEqual(desired.envVars, live.envVars) || !MapEqual(desired.secretRefs, live.secretRefs) then OutOfSync
        else rest
      case _ => rest
  }

  /** What it means for one managed field to agree; fields outside the three known ones always do. */
  ghost predicate Agrees(field: string, desired: ServiceState, live: ServiceState, resourceType: ResourceType) {
    && (field == "image" ==> desired.imageDigest == live.imageDigest)
    && (field == "traffic" && resourceType == Service && desired.traffic.Some? ==> desired.traffic == live.traffic)
    && (field == "env" && resourceType != Job && (desired.envVars.Some? || desired.secretRefs.Some?) ==>
          Elems(desired.envVars) == Elems(live.envVars) && Elems(desired.secretRefs) == Elems(live.secretRefs))
  }

  /** Equal size plus inclusion is equality of the maps, so a renamed empty variable is noticed. */
  lemma MapEqualIsEquality<V>(a: Option<map<string, V>>, b: Option<map<string, V>>)
    ensures MapEqual(a, b) <==> Elems(a) == Elems(b)
  {
    var (m, n) := (Elems(a), Elems(b));
    if MapEqual(a, b) {
      assert m.Keys <= n.Keys;
      SubsetOfSameSize(m.Keys, n.Keys);
    }
  }

  lemma SubsetOfSameSize(x: set<string>, y: set<string>)
    requires x <= y && |x| == |y|
    ensures x == y
  {
    assert y == x + (y - x);
  }

  /** Synced exactly when every managed field agrees, in any order and with any repetition. */
  lemma {:induction false} ComputeIsAgreement(desired: ServiceState, live: ServiceState, managedFields: seq<string>, resourceType: ResourceType)
    ensures Compute(desired, live, managedFields, resourceType) == Synced <==>
            forall f | f in managedFields :: Agrees(f, desired, live, resourceType)
  {
    if managedFields != [] {
      ComputeIsAgreement(desired, live, managedFields[1..], resourceType);
      MapEqualIsEquality(desired.envVars, live.envVars);
      MapEqualIsEquality(desired.secretRefs, live.secretRefs);
      var f := managedFields[0];
      assert forall g :: g in managedFields <==> g == f || g in managedFields[1..];
      assert Compute(desired, live, managedFields, resourceType) == Synced <==>
             Agrees(f, desired, live, resourceType) && Compute(desired, live, managedFields[1..], resourceType) == Synced;
    }
  }
}
