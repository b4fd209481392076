/**
 Cloud Run as the deploy path sees it: a store that holds the spec last written, and whose calls may
 fail. A deploy reads a resource, edits the fields it manages and writes it back.
 */
module CloudRun {
  import opened Wrappers
  import opened EnvVars
  import opened Diff
  import opened Manifest
  import opened ImageRef

  datatype TrafficTarget = TrafficTarget(latest: bool, percent: int)

  datatype Container = Container(image: string, env: seq<EnvVar>)

  /** Services and worker pools; a worker pool has no traffic. */
  datatype Resource =
    | ServiceSpec(containers: seq<Container>, targets: seq<TrafficTarget>)
    | WorkerPoolSpec(containers: seq<Container>)

  datatype JobSpec = JobSpec(containers: seq<Container>)

  datatype Name = Name(project: string, region: string, name: string)

  datatype Error = NotProvisioned | NoContainers | UnsupportedPercent | Unavailable | ResolveFailed(why: ImageRef.Error)

  /** What goes wrong outside: reading fails, or writing fails, possibly after it took effect. */
  datatype Fault = NoFault | ReadFails | WriteFails(applied: bool)

  /** latestRevisionPercent: the total over the targets of the latest revision. */
  function LatestPercent(targets: seq<TrafficTarget>): int {
    if targets == [] then 0
    else (if targets[0].latest then targets[0].percent else 0) + LatestPercent(targets[1..])
  }

  function FirstImage(containers: seq<Container>): string {
    if containers == [] then "" else containers[0].image
  }

  function FirstEnv(containers: seq<Container>): seq<EnvVar> {
    if containers == [] then [] else containers[0].env
  }

  /** liveServiceFromService and liveServiceFromWorkerPool: the managed part of a resource. */
  function ReadBack(registry: Registry, r: Resource): Result<ServiceState, ImageRef.Error> {
    match ResolveImageDigest(registry, FirstImage(r.containers))
    case Err(e) => Err(e)
    case Ok(digest) =>
      var env := FirstEnv(r.containers);
      Ok(ServiceState(digest, if r.ServiceSpec? then Some(LatestPercent(r.targets)) else None,
                      NilIfEmpty(VarsOf(env)), NilIfEmpty(SecretsOf(env))))
  }

  /** GetJob reads nothing but the image. */
  function ReadJob(registry: Registry, j: JobSpec): Result<ServiceState, ImageRef.Error> {
    match ResolveImageDigest(registry, FirstImage(j.containers))
    case Err(e) => Err(e)
    case Ok(digest) => Ok(ServiceState(digest, None, None, None))
  }

  /** `c` is `b` with the managed parts of the container replaced, the others untouched. */
  ghost predicate ContainerDeployed(b: Container, d: ServiceState, c: Container) {
    && c.image == WithDigest(b.image, d.imageDigest)
    && (if d.envVars.Some? || d.secretRefs.Some? then Lists(c.env, Elems(d.envVars), Elems(d.secretRefs)) else c.env == b.env)
  }

  /** The spec `after` that a successful deploy of `d` leaves where it found `before`. */
  ghost predicate Deployed(before: Resource, d: ServiceState, after: Resource) {
    && before.containers != [] && after.containers != []
    && after.containers[1..] == before.containers[1..]
    && ContainerDeployed(before.containers[0], d, after.containers[0])
    && before.ServiceSpec? == after.ServiceSpec?
    && (before.ServiceSpec? ==>
          after.targets == if d.traffic.Some? then [TrafficTarget(true, d.traffic.value)] else before.targets)
    && (before.ServiceSpec? && d.traffic.Some? ==> d.traffic.value == 100)
  }

  ghost predicate JobDeployed(before: JobSpec, d: ServiceState, after: JobSpec) {
    && before.containers != [] && after.containers != []
    && after.containers[1..] == before.containers[1..]
    && after.containers[0] == before.containers[0].(image := WithDigest(before.containers[0].image, d.imageDigest))
  }

  class Store {
    var services: map<Name, Resource>
    var pools: map<Name, Resource>
    var jobs: map<Name, JobSpec>

    ghost predicate Valid()
      reads this
    {
      && (forall n | n in services :: services[n].ServiceSpec?)
      && (forall n | n in pools :: pools[n].WorkerPoolSpec?)
    }

    /** The resource a service call reaches: the service of that name, else the worker pool. */
    ghost function Find(n: Name): Option<Resource>
      reads this
    {
      if n in services then Some(services[n]) else if n in pools then Some(pools[n]) else None
    }

    /** The edit both kinds share: the first container's image and, if managed, its environment. */
    method EditContainer(containers: seq<Container>, desired: ServiceState) returns (out: seq<Container>)
      requires containers != []
      ensures out != [] && out[1..] == containers[1..] && ContainerDeployed(containers[0], desired, out[0])
    {
      var c := containers[0].(image := WithDigest(containers[0].image, desired.imageDigest));
      if desired.envVars.Some? || desired.secretRefs.Some? {
        var env := BuildEnvVars(Elems(desired.envVars), Elems(desired.secretRefs));
        c := c.(env := env);
      }
      out := containers[0 := c];
    }

    method DeployService(n: Name, desired: ServiceState, fault: Fault) returns (r: Result<(), Error>)
      requires Valid()
      modifies this
      ensures Valid() && jobs == old(jobs)
      ensures r.Ok? ==> old(Find(n)).Some? && Find(n).Some? && Deployed(old(Find(n)).value, desired, Find(n).value)
      ensures r.Err? && !(fault.WriteFails? && fault.applied) ==> services == old(services) && pools == old(pools)
      ensures services - {n} == old(services) - {n} && pools - {n} == old(pools) - {n}
      ensures services.Keys == old(services.Keys) && pools.Keys == old(pools.Keys)
      ensures n in old(services) ==> pools == old(pools)
      ensures r == if fault.ReadFails? then Err(Unavailable)
                   else if old(Find(n)).None? then Err(NotProvisioned)
                   else if old(Find(n)).value.containers == [] then Err(NoContainers)
                   else if n in old(services) && desired.traffic.Some? && desired.traffic.value != 100 then Err(UnsupportedPercent)
                   else if fault.WriteFails? then Err(Unavailable) else Ok(())
      ensures r == Err(Unavailable) && fault.WriteFails? && fault.applied ==> Deployed(old(Find(n)).value, desired, Find(n).value)
    {
      if fault.ReadFails? {
        return Err(Unavailable);
      }
      if n !in services {
        r := DeployWorkerPool(n, desired, fault);
        return;
      }
      var svc := services[n];
      if svc.containers == [] {
        return Err(NoContainers);
      }
      var containers := EditContainer(svc.containers, desired);
      svc := svc.(containers := containers);
      if desired.traffic.Some? {
        if desired.traffic.value != 100 {
          return Err(UnsupportedPercent);
        }
        svc := svc.(targets := [TrafficTarget(true, desired.traffic.value)]);
      }
      if fault.NoFault? || fault.applied {
        services := services[n := svc];
      }
      r := if fault.NoFault? then Ok(()) else Err(Unavailable);
    }

    method DeployWorkerPool(n: Name, desired: ServiceState, fault: Fault) returns (r: Result<(), Error>)
      requires Valid() && n !in services && !fault.ReadFails?
      modifies `pools
      ensures Valid()
      ensures r.Ok? ==> n in old(pools) && n in pools && Deployed(old(pools)[n], desired, pools[n])
      ensures r.Err? && !(fault.WriteFails? && fault.applied) ==> pools == old(pools)
      ensures pools - {n} == old(pools) - {n} && pools.Keys == old(pools.Keys)
      ensures r == if n !in old(pools) then Err(NotProvisioned)
                   else if old(pools)[n].containers == [] then Err(NoContainers)
                   else if fault.WriteFails? then Err(Unavailable) else Ok(())
      ensures r == Err(Unavailable) && fault.applied ==> Deployed(old(pools)[n], desired, pools[n])
    {
      if n !in pools {
        return Err(NotProvisioned);
      }
      var wp := pools[n];
      if wp.containers == [] {
        return Err(NoContainers);
      }
      var containers := EditContainer(wp.containers, desired);
      if fault.NoFault? || fault.applied {
        pools := pools[n := WorkerPoolSpec(containers)];
      }
      r := if fault.NoFault? then Ok(()) else Err(Unavailable);
    }

    method DeployJob(n: Name, desired: ServiceState, fault: Fault) returns (r: Result<(), Error>)
      requires Valid()
      modifies `jobs
      ensures r.Ok? ==> n in old(jobs) && n in jobs && JobDeployed(old(jobs)[n], desired, jobs[n])
      ensures r.Err? && !(fault.WriteFails? && fault.applied) ==> jobs == old(jobs)
      ensures jobs - {n} == old(jobs) - {n} && jobs.Keys == old(jobs.Keys)
      ensures r == if fault.ReadFails? then Err(Unavailable)
                   else if n !in old(jobs) then Err(NotProvisioned)
                   else if old(jobs)[n].containers == [] then Err(NoContainers)
                   else if fault.WriteFails? then Err(Unavailable) else Ok(())
      ensures r == Err(Unavailable) && fault.WriteFails? && fault.applied ==> JobDeployed(old(jobs)[n], desired, jobs[n])
    {
      if fault.ReadFails? {
        return Err(Unavailable);
      }
      if n !in jobs {
        return Err(NotProvisioned);
      }
      var job := jobs[n];
      if job.containers == [] {
        return Err(NoContainers);
      }
      var image := WithDigest(job.containers[0].image, desired.imageDigest);
      job := job.(containers := job.containers[0 := job.containers[0].(image := image)]);
      if fault.NoFault? || fault.applied {
        jobs := jobs[n := job];
      }
      r := if fault.NoFault? then Ok(()) else Err(Unavailable);
    }

    /** GetService: the service of that name, else the worker pool. */
    method GetService(n: Name, registry: Registry, fault: Fault) returns (r: Result<ServiceState, Error>)
      requires Valid()
      ensures r == if fault.ReadFails? then Err(Unavailable)
                   else if Find(n).None? then Err(NotProvisioned)
                   else match ReadBack(registry, Find(n).value) case Ok(state) => Ok(state) case Err(e) => Err(ResolveFailed(e))
      ensures r.Ok? ==> Reads(registry, Find(n).value, r.value)
    {
      forall resource, state ensures ReadBack(registry, resource) == Ok(state) <==> Reads(registry, resource, state) {
        ReadBackReads(registry, resource, state);
      }
      if fault.ReadFails? {
        return Err(Unavailable);
      }
      if n !in services && n !in pools {
        return Err(NotProvisioned);
      }
      var containers := if n in services then services[n].containers else pools[n].containers;
      var digest := ResolveImageDigest(registry, FirstImage(containers));
      if digest.Err? {
        return Err(ResolveFailed(digest.error));
      }
      var vars, secrets := EnvState(FirstEnv(containers));
      var percent := None;
      if n in services {
        var total := SumLatest(services[n].targets);
        percent := Some(total);
      }
      r := Ok(ServiceState(digest.value, percent, vars, secrets));
    }
  }

  /** A share is what the targets of the latest revision have, whichever way the list is split. */
  lemma {:induction false} LatestPercentAdds(a: seq<TrafficTarget>, t: TrafficTarget, b: seq<TrafficTarget>)
    ensures LatestPercent(a + [t] + b) == LatestPercent(a) + LatestPercent(b) + (if t.latest then t.percent else 0)
    ensures LatestPercent([]) == 0
  {
    if a == [] {
      assert (a + [t] + b)[0] == t && (a + [t] + b)[1..] == b;
    } else {
      assert (a + [t] + b)[1..] == a[1..] + [t] + b;
      LatestPercentAdds(a[1..], t, b);
    }
  }

  /** What reading a resource means: its first image resolved, its own share if it is a service, and the last entry of each name. */
  ghost predicate Reads(registry: Registry, r: Resource, state: ServiceState) {
    var env := if r.containers == [] then [] else r.containers[0].env;
    && ResolveImageDigest(registry, if r.containers == [] then "" else r.containers[0].image) == Ok(state.imageDigest)
    && (if r.ServiceSpec? then state.traffic == Some(LatestPercent(r.targets)) else state.traffic.None?)
    && ListsLast(env, state.envVars, state.secretRefs)
  }

  lemma ReadBackReads(registry: Registry, r: Resource, state: ServiceState)
    ensures ReadBack(registry, r) == Ok(state) <==> Reads(registry, r, state)
  {
    LastEntriesAreRead(FirstEnv(r.containers), state.envVars, state.secretRefs);
  }

  /** Of a job only the image is read. */
  lemma ReadJobReads(registry: Registry, j: JobSpec, state: ServiceState)
    ensures ReadJob(registry, j) == Ok(state) <==>
      && ResolveImageDigest(registry, if j.containers == [] then "" else j.containers[0].image) == Ok(state.imageDigest)
      && state == ServiceState(state.imageDigest, None, None, None)
  {
  }

  method SumLatest(targets: seq<TrafficTarget>) returns (total: int)
    ensures total == LatestPercent(targets)
  {
    total := 0;
    for n := 0 to |targets|
      invariant total + LatestPercent(targets[n..]) == LatestPercent(targets)
    {
      if targets[n].latest {
        total := total + targets[n].percent;
      }
    }
  }

  // ---------------------------------------------------------------- convergence

  /** The only way a deploy can succeed and still not satisfy the next diff. */
  predicate TrafficOnWorkerPool(r: Resource, d: ServiceState, managedFields: seq<string>, resourceType: ResourceType) {
    resourceType == Service && r.WorkerPoolSpec? && FieldManaged(managedFields, "traffic") && d.traffic.Some?
  }

  /** After a successful deploy the digest, and everything that was managed, reads back as desired. */
  lemma DeployReadsBack(registry: Registry, before: Resource, d: ServiceState, after: Resource)
    requires Deployable(d) && Deployed(before, d, after)
    ensures ReadBack(registry, after).Ok?
    ensures var live := ReadBack(registry, after).value;
            && live.imageDigest == d.imageDigest
            && (d.envVars.Some? ==> Elems(live.envVars) == Elems(d.envVars) && Elems(live.secretRefs) == Elems(d.secretRefs))
            && (before.ServiceSpec? && d.traffic.Some? ==> live.traffic == d.traffic)
  {
    PinnedDigestReadsBack(before.containers[0].image, d.imageDigest, registry);
    if d.envVars.Some? {
      var env := after.containers[0].env;
      BuiltEnvReadsBack(env, Elems(d.envVars), Elems(d.secretRefs));
      ElemsOfNilIfEmpty(VarsOf(env));
      ElemsOfNilIfEmpty(SecretsOf(env));
    }
    if d.traffic.Some? && before.ServiceSpec? {
      assert after.targets[1..] == [] && LatestPercent(after.targets[1..]) == 0;
    }
  }

  /** Exactly when a deploy converges, for every resource it can have started from. */
  lemma DeployConverges(registry: Registry, before: Resource, d: ServiceState, after: Resource, managedFields: seq<string>, resourceType: ResourceType)
    requires Deployable(d) && Deployed(before, d, after)
    ensures ReadBack(registry, after).Ok?
    ensures Compute(d, ReadBack(registry, after).value, managedFields, resourceType) == Synced <==>
            !TrafficOnWorkerPool(before, d, managedFields, resourceType)
  {
    DeployReadsBack(registry, before, d, after);
    var live := ReadBack(registry, after).value;
    ComputeIsAgreement(d, live, managedFields, resourceType);
    if TrafficOnWorkerPool(before, d, managedFields, resourceType) {
      assert !Agrees("traffic", d, live, resourceType);
    }
  }

  lemma JobDeployConverges(registry: Registry, before: JobSpec, d: ServiceState, after: JobSpec, managedFields: seq<string>)
    requires '@' !in d.imageDigest && JobDeployed(before, d, after)
    ensures ReadJob(registry, after).Ok?
    ensures Compute(d, ReadJob(registry, after).value, managedFields, Job) == Synced
  {
    PinnedDigestReadsBack(before.containers[0].image, d.imageDigest, registry);
    ComputeIsAgreement(d, ReadJob(registry, after).value, managedFields, Job);
  }

  /**
   Fields that are not managed read back as before the deploy: traffic and environment because the
   spec is untouched, the image because the live digest is substituted for the manifest's.
   */
  lemma UnmanagedFieldsUnchanged(registry: Registry, before: Resource, d: ServiceState, after: Resource)
    requires Deployable(d) && Deployed(before, d, after) && BareDigests(registry) && ReadBack(registry, before).Ok?
    ensures ReadBack(registry, after).Ok?
    ensures var (was, now) := (ReadBack(registry, before).value, ReadBack(registry, after).value);
            && (d.imageDigest == was.imageDigest ==> now.imageDigest == was.imageDigest)
            && (d.traffic.None? ==> now.traffic == was.traffic)
            && (d.envVars.None? ==> now.envVars == was.envVars && now.secretRefs == was.secretRefs)
  {
    DeployReadsBack(registry, before, d, after);
  }

  lemma ContainersAgree(registry: Registry, before: Container, d: ServiceState, x: Container, y: Container)
    requires Deployable(d) && ContainerDeployed(before, d, x)
    requires ContainerDeployed(before, d, y) || ContainerDeployed(x, d, y)
    ensures x == y
  {
    LastPinWins(before.image, d.imageDigest, d.imageDigest, registry);
    if d.envVars.Some? {
      ListingIsUnique(x.env, y.env, Elems(d.envVars), Elems(d.secretRefs));
    }
  }

  /**
   Deploying the same state twice leaves the spec that deploying once left, and the outcome of one
   deploy does not depend on map iteration order.
   */
  lemma DeployIsIdempotent(registry: Registry, before: Resource, d: ServiceState, once: Resource, again: Resource)
    requires Deployable(d) && Deployed(before, d, once)
    requires Deployed(once, d, again) || Deployed(before, d, again)
    ensures again == once
  {
    ContainersAgree(registry, before.containers[0], d, once.containers[0], again.containers[0]);
    SameHeadAndTail(once.containers, again.containers);
  }

  lemma SameHeadAndTail<T>(s: seq<T>, t: seq<T>)
    requires s != [] && t != [] && s[0] == t[0] && s[1..] == t[1..]
    ensures s == t
  {
    assert s == [s[0]] + s[1..] && t == [t[0]] + t[1..];
  }

  /**
   The whole path for a validated manifest of a service or worker pool: derive, substitute the unmanaged digest, deploy,
   read, compare. The diff is Synced exactly outside the one family that cannot converge.
   */
  lemma ManifestConverges(registry: Registry, sd: ServiceDefinition, digest: string, managedFields: seq<string>,
                          before: Resource, after: Resource)
    requires Valid(sd) && '@' !in digest && BareDigests(registry) && ReadBack(registry, before).Ok?
    requires Deployed(before, DeployTarget(DesiredState(sd, digest, managedFields), ReadBack(registry, before).value, managedFields), after)
    ensures ReadBack(registry, after).Ok?
    ensures Compute(DesiredState(sd, digest, managedFields), ReadBack(registry, after).value, managedFields, sd.resourceType) == Synced <==>
            !TrafficOnWorkerPool(before, DesiredState(sd, digest, managedFields), managedFields, sd.resourceType)
    ensures !FieldManaged(managedFields, "image") ==> ReadBack(registry, after).value.imageDigest == ReadBack(registry, before).value.imageDigest
  {
    var live := ReadBack(registry, before).value;
    var d := DeployTarget(DesiredState(sd, digest, managedFields), live, managedFields);
    ValidManifestIsDeployable(sd, digest, managedFields);
    ResolvedDigestIsBare(registry, FirstImage(before.containers));
    DeployReadsBack(registry, before, d, after);
    DeployConverges(registry, before, d, after, managedFields, sd.resourceType);
    ComputeIsAgreement(d, ReadBack(registry, after).value, managedFields, sd.resourceType);
    ComputeIsAgreement(DesiredState(sd, digest, managedFields), ReadBack(registry, after).value, managedFields, sd.resourceType);
  }

  /** The same path for a job, which has its own spec, read and deploy; it always converges. */
  lemma JobManifestConverges(registry: Registry, sd: ServiceDefinition, digest: string, managedFields: seq<string>, before: JobSpec, after: JobSpec)
    requires sd.resourceType.Job? && '@' !in digest && BareDigests(registry) && ReadJob(registry, before).Ok?
    requires JobDeployed(before, DeployTarget(DesiredState(sd, digest, managedFields), ReadJob(registry, before).value, managedFields), after)
    ensures ReadJob(registry, after).Ok?
    ensures Compute(DesiredState(sd, digest, managedFields), ReadJob(registry, after).value, managedFields, Job) == Synced
    ensures !FieldManaged(managedFields, "image") ==> ReadJob(registry, after).value.imageDigest == ReadJob(registry, before).value.imageDigest
  {
    var d := DeployTarget(DesiredState(sd, digest, managedFields), ReadJob(registry, before).value, managedFields);
    ResolvedDigestIsBare(registry, FirstImage(before.containers));
    PinnedDigestReadsBack(before.containers[0].image, d.imageDigest, registry);
    JobDeployConverges(registry, before, d, after, managedFields);
    ComputeIsAgreement(d, ReadJob(registry, after).value, managedFields, Job);
    ComputeIsAgreement(DesiredState(sd, digest, managedFields), ReadJob(registry, after).value, managedFields, Job);
  }

  /** A member of the family that does not converge: a service's traffic, managed and declared, on a worker pool. */
  lemma TrafficOnWorkerPoolStaysOutOfSync(registry: Registry) returns (before: Resource, d: ServiceState, after: Resource)
    ensures Deployable(d) && Deployed(before, d, after) && TrafficOnWorkerPool(before, d, ["traffic"], Service)
    ensures ReadBack(registry, after).Ok? && Compute(d, ReadBack(registry, after).value, ["traffic"], Service) == OutOfSync
  {
    before := WorkerPoolSpec([Container("repo:v1", [])]);
    d := ServiceState("sha256:0", Some(100), None, None);
    after := WorkerPoolSpec([Container(WithDigest("repo:v1", d.imageDigest), [])]);
    assert after.containers[1..] == before.containers[1..];
    DeployConverges(registry, before, d, after, ["traffic"], Service);
  }
}
