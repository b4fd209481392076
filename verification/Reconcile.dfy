/**
 What one reconcile pass decides about a unit, as a function of the answers it gets from outside, and what those
 decisions guarantee: the deploy gate, and the honesty of the reported status.
 */
module Reconcile {
  import opened Wrappers
  import opened Diff
  import opened Manifest
  import ImageRef
  import Registry
  import CloudRun
  import Config
  import SyncWindow
  import Applications
  import opened Expander

  datatype ManifestAnswer = Unfetched | Undecodable | Decoded(sd: ServiceDefinition)

  datatype LiveAnswer = Absent | Unreadable | Live(state: ServiceState, health: string)

  /**
   Everything a pass learns from outside before it may deploy. `tags` is `None` without a tag resolver, and
   `Some(None)` when listing failed; `holds` answers each precondition check.
   */
  datatype World = World(manifest: ManifestAnswer, tags: Option<Option<seq<ImageRef.Tag>>>, holds: Precondition -> bool, live: LiveAnswer)

  datatype Options = Options(force: bool, dryRun: bool, now: int)

  datatype Verdict = Unset | Invalid | Missing | Diffed(status: Status)

  datatype PassError =
    | ManifestUnfetched | ManifestInvalid
    | NoRepository | NoTagResolver | TagsUnlisted | OverrideUnresolved
    | PreconditionFailed(p: Precondition)
    | EnvUnsupported
    | NotProvisioned | LiveUnreadable
    | ObserveMode
    | LockFailed | SyncInProgress | RowUnwritten | EventUnwritten
    | DeployFailed(auditLost: bool) | PostCheckFailed(auditLost: bool) | AuditUpdateFailed
    | UpsertFailed

  /** The result record that a pass fills in field by field. */
  datatype Pass = Pass(
    unit: SyncUnit,
    desiredImage: string,
    liveImage: string,
    track: string,
    version: string,
    repository: string,
    resourceType: string,
    status: Verdict,
    health: string,
    deployFailed: bool,
    err: Option<PassError>,
    observing: bool)

  function TypeText(rt: ResourceType): string {
    match rt case Service => "service" case Job => "job" case WorkerPool => "workerPool"
  }

  function StatusText(v: Verdict): string {
    match v
    case Unset => ""
    case Invalid => "Invalid"
    case Missing => "Missing"
    case Diffed(Synced) => "Synced"
    case Diffed(OutOfSync) => "OutOfSync"
  }

  /** What the upsert of a result writes. */
  function WriteOf(res: Pass): Applications.Write {
    Applications.Write(res.desiredImage, res.liveImage, res.track, res.version, res.repository, res.resourceType, StatusText(res.status), res.health)
  }

  predicate Enabled(setting: Option<bool>) { setting == Some(true) }

  function OrElse(err: Option<PassError>, e: PassError): Option<PassError> { if err.None? then Some(e) else err }

  // ---------------------------------------------------------------- small loops

  /** `base` without the fields in `ignore`, in order. */
  function Subtract(base: seq<string>, ignore: seq<string>): seq<string> {
    if base == [] then [] else
      Subtract(base[..|base| - 1], ignore) + if base[|base| - 1] in ignore then [] else [base[|base| - 1]]
  }

  method EffectiveManagedFields(base: seq<string>, ignore: seq<string>) returns (out: seq<string>)
    ensures out == Subtract(base, ignore)
  {
    if ignore == [] {
      NothingSubtracted(base);
      return base;
    }
    var skip := set f | f in ignore;
    out := [];
    for i := 0 to |base|
      invariant out == Subtract(base[..i], ignore)
    {
      assert base[..i + 1][..i] == base[..i];
      if base[i] !in skip { out := out + [base[i]]; }
    }
    assert base[..|base|] == base;
  }

  lemma {:induction false} NothingSubtracted(base: seq<string>)
    ensures Subtract(base, []) == base
  {
    if base != [] { NothingSubtracted(base[..|base| - 1]); }
  }

  /** A field is managed for the unit exactly when it is managed and not ignored. */
  lemma {:induction false} SubtractContents(base: seq<string>, ignore: seq<string>)
    ensures forall f :: f in Subtract(base, ignore) <==> f in base && f !in ignore
  {
    if base != [] {
      SubtractContents(base[..|base| - 1], ignore);
      assert base == base[..|base| - 1] + [base[|base| - 1]];
    }
  }

  function PreconditionName(p: Precondition): string { p.kind + ":" + p.name }

  /** The preconditions not ignored, in order. */
  function Required(requirements: seq<Precondition>, ignore: seq<string>): seq<Precondition> {
    if requirements == [] then [] else
      var n := |requirements| - 1;
      Required(requirements[..n], ignore) + if PreconditionName(requirements[n]) in ignore then [] else [requirements[n]]
  }

  method FilterPreconditions(requirements: seq<Precondition>, ignore: seq<string>) returns (out: seq<Precondition>)
    ensures out == Required(requirements, ignore)
  {
    if ignore == [] {
      NothingIgnored(requirements);
      return requirements;
    }
    var skip := set s | s in ignore;
    out := [];
    for i := 0 to |requirements|
      invariant out == Required(requirements[..i], ignore)
    {
      assert requirements[..i + 1][..i] == requirements[..i];
      if PreconditionName(requirements[i]) !in skip { out := out + [requirements[i]]; }
    }
    assert requirements[..|requirements|] == requirements;
  }

  lemma {:induction false} NothingIgnored(requirements: seq<Precondition>)
    ensures Required(requirements, []) == requirements
  {
    if requirements != [] { NothingIgnored(requirements[..|requirements| - 1]); }
  }

  lemma {:induction false} RequiredContents(requirements: seq<Precondition>, ignore: seq<string>)
    ensures forall p :: p in Required(requirements, ignore) <==> p in requirements && PreconditionName(p) !in ignore
  {
    if requirements != [] {
      RequiredContents(requirements[..|requirements| - 1], ignore);
      assert requirements == requirements[..|requirements| - 1] + [requirements[|requirements| - 1]];
    }
  }

  /** The first precondition that does not hold; an unknown kind never holds. */
  function FirstFailure(required: seq<Precondition>, holds: Precondition -> bool): (r: Option<Precondition>)
    ensures r.None? <==> forall p | p in required :: Holds(p, holds)
    ensures r.Some? ==> r.value in required && !Holds(r.value, holds)
  {
    if required == [] then None
    else if !Holds(required[0], holds) then Some(required[0])
    else FirstFailure(required[1..], holds)
  }

  predicate Holds(p: Precondition, holds: Precondition -> bool) {
    (p.kind == "pubsubTopic" || p.kind == "pubsubSubscription") && holds(p)
  }

  method CheckPreconditions(required: seq<Precondition>, holds: Precondition -> bool) returns (err: Option<PassError>)
    ensures err == FailureOf(required, holds)
  {
    for i := 0 to |required|
      invariant FirstFailure(required, holds) == FirstFailure(required[i..], holds)
    {
      assert required[i..][1..] == required[i + 1..];
      if !Holds(required[i], holds) { return Some(PreconditionFailed(required[i])); }
    }
    err := None;
  }

  function FailureOf(required: seq<Precondition>, holds: Precondition -> bool): Option<PassError> {
    match FirstFailure(required, holds)
    case None => None
    case Some(p) => Some(PreconditionFailed(p))
  }

  // ---------------------------------------------------------------- the desired digest

  function TrimSlashes(p: string): string {
    if p != "" && p[|p| - 1] == '/' then TrimSlashes(p[..|p| - 1]) else p
  }

  /** The last element of a slash-separated path. */
  function Base(p: string): string {
    if p == "" then "."
    else
      var trimmed := TrimSlashes(p);
      if trimmed == "" then "/" else LastElement(trimmed)
  }

  function LastElement(p: string): string { p[ImageRef.LastIndex(p, '/') + 1..] }

  lemma TrimTrailing(p: string)
    requires p != "" && p[|p| - 1] != '/'
    ensures TrimSlashes(p) == p && TrimSlashes(p + "/") == p
  {
    assert (p + "/")[..|p|] == p;
  }

  lemma AfterLastSlash(p: string, at: int)
    requires -1 <= at < |p| && (at >= 0 ==> p[at] == '/') && '/' !in p[at + 1..]
    ensures LastElement(p) == p[at + 1..]
  {
    forall i | at < i < |p| ensures p[i] != '/' {
      assert p[at + 1..][i - at - 1] == p[i];
    }
    ImageRef.LastIndexIsUnique(p, '/', at);
  }

  lemma BaseOfTrimmed(p: string, q: string)
    requires q != "" && TrimSlashes(q) == p && p != ""
    ensures Base(q) == LastElement(p)
  {
  }

  /** The image's own name, however the repository path is written. */
  lemma BaseIsLastElement(dir: string, name: string)
    requires name != "" && '/' !in name
    ensures Base(name) == Base(name + "/") == name
    ensures Base(dir + "/" + name) == Base(dir + "/" + name + "/") == name
  {
    var p := dir + "/" + name;
    assert name[|name| - 1] in name && name[0..] == name && p[|dir| + 1..] == name;
    TrimTrailing(name);
    TrimTrailing(p);
    BaseOfTrimmed(name, name);
    BaseOfTrimmed(name, name + "/");
    BaseOfTrimmed(p, p);
    BaseOfTrimmed(p, p + "/");
    AfterLastSlash(name, -1);
    AfterLastSlash(p, |dir|);
    assert p + "/" == dir + "/" + name + "/";
  }

  predicate Overrides(unit: SyncUnit) { unit.track != "" || unit.version != "" }

  /** How a pass takes the registry's answer. */
  function Taken(answer: Result<string, Registry.ResolveError>): Result<string, PassError> {
    match answer
    case Ok(digest) => Ok(digest)
    case Err(_) => Err(OverrideUnresolved)
  }

  ghost function DesiredDigest(unit: SyncUnit, image: Image, tags: Option<Option<seq<ImageRef.Tag>>>): Result<string, PassError> {
    if !Overrides(unit) then Ok(image.digest)
    else if image.repository == "" then Err(NoRepository)
    else if tags.None? then Err(NoTagResolver)
    else if tags.value.None? then Err(TagsUnlisted)
    else Taken(Registry.Resolution(tags.value.value, unit.track, unit.version, Base(image.repository)))
  }

  // ---------------------------------------------------------------- the assessment

  function Blank(unit: SyncUnit): Pass {
    Pass(unit, "", "", "", "", "", "", Unset, "", false, None, Enabled(unit.sync.observe))
  }

  function Invalidated(res: Pass, e: PassError): Pass {
    res.(status := Invalid, health := "Invalid", err := Some(e))
  }

  function WithLive(res: Pass, live: LiveAnswer, desired: ServiceState, fields: seq<string>, rt: ResourceType): Pass {
    match live
    case Absent => res.(health := "Missing", status := if res.status.Unset? then Missing else res.status, err := OrElse(res.err, NotProvisioned))
    case Unreadable => res.(health := "Invalid", status := if res.status.Unset? then Invalid else res.status, err := OrElse(res.err, LiveUnreadable))
    case Live(state, health) =>
      res.(liveImage := state.imageDigest, health := health,
           status := if res.status.Unset? then Diffed(Compute(desired, state, fields, rt)) else res.status)
  }

  function Fields(base: seq<string>, unit: SyncUnit): seq<string> { Subtract(base, unit.ignoreFields) }

  /** The result of a pass just before it may deploy; what a dry run returns. */
  ghost function Assess(base: seq<string>, unit: SyncUnit, w: World): Pass {
    if w.manifest.Unfetched? then Invalidated(Blank(unit), ManifestUnfetched)
    else if w.manifest.Undecodable? || !Valid(w.manifest.sd) then Invalidated(Blank(unit), ManifestInvalid)
    else AssessDefinition(base, unit, w, w.manifest.sd)
  }

  function Described(unit: SyncUnit, sd: ServiceDefinition): Pass {
    Blank(unit).(resourceType := TypeText(sd.resourceType), track := sd.image.track, version := sd.image.version, repository := sd.image.repository)
  }

  ghost function AssessDefinition(base: seq<string>, unit: SyncUnit, w: World, sd: ServiceDefinition): Pass {
    match DesiredDigest(unit, sd.image, w.tags)
    case Err(e) => Invalidated(Described(unit, sd), e)
    case Ok(digest) =>
      var res := WithDigest(Described(unit, sd), unit, digest);
      var failure := FailureOf(Required(sd.requirements, unit.ignorePreconditions), w.holds);
      AssessLive(res, failure, w.live, sd, digest, Fields(base, unit))
  }

  function AssessLive(res: Pass, failure: Option<PassError>, live: LiveAnswer, sd: ServiceDefinition, digest: string, fields: seq<string>): Pass {
    var checked := if failure.Some? then res.(status := Invalid, err := failure) else res;
    if sd.resourceType.Job? && FieldManaged(fields, "env") && failure.None? then Invalidated(checked, EnvUnsupported)
    else WithLive(checked, live, DesiredState(sd, digest, fields), fields, sd.resourceType)
  }

  function WithDigest(res: Pass, unit: SyncUnit, digest: string): Pass {
    res.(desiredImage := digest,
         track := if Overrides(unit) then unit.track else res.track,
         version := if Overrides(unit) then unit.version else res.version)
  }

  ghost predicate AutoAllowed(unit: SyncUnit, now: int) {
    Enabled(unit.sync.auto) && SyncWindow.Permits(Config.WindowsOf(unit.sync), now)
  }

  ghost predicate WouldDeploy(res: Pass, opts: Options) {
    && !opts.dryRun && res.status.Diffed?
    && (opts.force || (res.status == Diffed(OutOfSync) && AutoAllowed(res.unit, opts.now)))
  }

  /** The result when the pass does not deploy: a forced sync of an observed unit says so. */
  ghost function Withheld(res: Pass, opts: Options): Pass {
    if WouldDeploy(res, opts) && res.observing && opts.force then res.(err := OrElse(res.err, ObserveMode)) else res
  }

  // ---------------------------------------------------------------- the deploy gate

  /** A precondition that counts and does not hold. */
  ghost predicate Unmet(p: Precondition, unit: SyncUnit, w: World) {
    p.kind + ":" + p.name !in unit.ignorePreconditions && !((p.kind == "pubsubTopic" || p.kind == "pubsubSubscription") && w.holds(p))
  }

  /** What has to be true, condition by condition, for a pass to compare desired and live state. */
  ghost predicate Comparable(base: seq<string>, unit: SyncUnit, w: World) {
    && w.manifest.Decoded? && Valid(w.manifest.sd)
    && OverrideResolved(unit, w)
    && (forall p | p in w.manifest.sd.requirements :: !Unmet(p, unit, w))
    && !(w.manifest.sd.resourceType.Job? && "env" in base && "env" !in unit.ignoreFields)
    && w.live.Live?
  }

  ghost predicate WindowsOpen(unit: SyncUnit, now: int) { unit.sync.windows.Some? ==> SyncWindow.Permits(unit.sync.windows.value, now) }

  /** And for it to reach the deploy section. */
  ghost predicate Gate(base: seq<string>, unit: SyncUnit, w: World, opts: Options) {
    && Comparable(base, unit, w)
    && unit.sync.observe != Some(true) && !opts.dryRun
    && (opts.force || (Drifted(base, unit, w) && unit.sync.auto == Some(true) && WindowsOpen(unit, opts.now)))
  }

  ghost predicate OverrideResolved(unit: SyncUnit, w: World)
    requires w.manifest.Decoded?
  {
    var image := w.manifest.sd.image;
    Overrides(unit) ==>
      && image.repository != "" && w.tags.Some? && w.tags.value.Some?
      && Registry.Resolution(w.tags.value.value, unit.track, unit.version, Base(image.repository)).Ok?
  }

  /** Some managed, not ignored field of the live resource differs from the desired state. */
  ghost predicate Drifted(base: seq<string>, unit: SyncUnit, w: World)
    requires w.manifest.Decoded? && OverrideResolved(unit, w) && w.live.Live?
  {
    exists f | f in base && f !in unit.ignoreFields :: !Agrees(f, Desired(base, unit, w), w.live.state, w.manifest.sd.resourceType)
  }

  /** The result says what `read` showed. */
  ghost predicate Backed(res: Pass, read: LiveAnswer, desired: ServiceState, fields: seq<string>, rt: ResourceType) {
    && read.Live?
    && res.status == Diffed(Compute(desired, read.state, fields, rt))
    && res.liveImage == read.state.imageDigest && res.health == read.health
  }

  /** What every assessment has in common. */
  ghost predicate Assessed(res: Pass, unit: SyncUnit) {
    && res.unit == unit && res.observing == Enabled(unit.sync.observe) && !res.deployFailed
    && !res.status.Unset? && res.err != Some(SyncInProgress)
    && (res.status.Diffed? <==> res.err.None?)
  }

  lemma LiveIsAssessed(res: Pass, failure: Option<PassError>, live: LiveAnswer, sd: ServiceDefinition, digest: string, fields: seq<string>)
    requires res.status.Unset? && res.err.None? && !res.deployFailed && res.observing == Enabled(res.unit.sync.observe)
    requires failure != Some(SyncInProgress)
    ensures
      var r := AssessLive(res, failure, live, sd, digest, fields);
      && Assessed(r, res.unit)
      && (r.status.Diffed? <==> failure.None? && !(sd.resourceType.Job? && "env" in fields) && live.Live?)
      && (r.status.Diffed? ==> Backed(r, live, DesiredState(sd, digest, fields), fields, sd.resourceType))
  {
  }

  /** `res` compares exactly when everything comparable is in place, and then reports the live read. */
  ghost predicate Exact(res: Pass, base: seq<string>, unit: SyncUnit, w: World) {
    && Assessed(res, unit)
    && (res.status.Diffed? <==> Comparable(base, unit, w))
    && (Comparable(base, unit, w) ==> Backed(res, w.live, Desired(base, unit, w), Fields(base, unit), w.manifest.sd.resourceType))
  }

  lemma AssessmentIsExact(base: seq<string>, unit: SyncUnit, w: World)
    ensures Exact(Assess(base, unit, w), base, unit, w)
  {
    if w.manifest.Decoded? && Valid(w.manifest.sd) {
      if OverrideResolved(unit, w) {
        DefinitionIsExact(base, unit, w, DesiredDigest(unit, w.manifest.sd.image, w.tags).value);
      } else {
        UnresolvedIsExact(base, unit, w);
      }
    }
  }

  lemma RefusedIsExact(res: Pass, e: PassError, base: seq<string>, unit: SyncUnit, w: World)
    requires w.manifest.Decoded? && res == Described(unit, w.manifest.sd) && e != SyncInProgress && !Comparable(base, unit, w)
    ensures Exact(Invalidated(res, e), base, unit, w)
  {
  }

  lemma UnresolvedHasNoDigest(unit: SyncUnit, w: World)
    requires w.manifest.Decoded? && !OverrideResolved(unit, w)
    ensures var digest := DesiredDigest(unit, w.manifest.sd.image, w.tags); digest.Err? && digest.error != SyncInProgress
  {
    if w.tags.Some? && w.tags.value.Some? {
      var answer := Registry.Resolution(w.tags.value.value, unit.track, unit.version, Base(w.manifest.sd.image.repository));
      assert w.manifest.sd.image.repository != "" ==> DesiredDigest(unit, w.manifest.sd.image, w.tags) == Taken(answer) && answer.Err?;
    }
  }

  lemma UnresolvedIsExact(base: seq<string>, unit: SyncUnit, w: World)
    requires w.manifest.Decoded? && Valid(w.manifest.sd) && !OverrideResolved(unit, w)
    ensures Exact(AssessDefinition(base, unit, w, w.manifest.sd), base, unit, w)
  {
    var digest := DesiredDigest(unit, w.manifest.sd.image, w.tags);
    UnresolvedHasNoDigest(unit, w);
    assert !Comparable(base, unit, w);
    RefusedIsExact(Described(unit, w.manifest.sd), digest.error, base, unit, w);
  }

  lemma DefinitionIsExact(base: seq<string>, unit: SyncUnit, w: World, digest: string)
    requires w.manifest.Decoded? && Valid(w.manifest.sd) && DesiredDigest(unit, w.manifest.sd.image, w.tags) == Ok(digest)
    ensures Exact(AssessDefinition(base, unit, w, w.manifest.sd), base, unit, w)
  {
    var sd := w.manifest.sd;
    var failure := FailureOf(Required(sd.requirements, unit.ignorePreconditions), w.holds);
    PreconditionsPass(sd, unit, w.holds);
    SubtractContents(base, unit.ignoreFields);
    LiveIsAssessed(WithDigest(Described(unit, sd), unit, digest), failure, w.live, sd, digest, Fields(base, unit));
  }

  /** A failed precondition is what the result reports, whatever else is wrong; live image and health are reported still. */
  lemma PreconditionFailureIsReported(base: seq<string>, unit: SyncUnit, w: World)
    requires w.manifest.Decoded? && Valid(w.manifest.sd) && OverrideResolved(unit, w)
    requires exists p | p in w.manifest.sd.requirements && PreconditionName(p) !in unit.ignorePreconditions :: !Holds(p, w.holds)
    ensures
      var res := Assess(base, unit, w);
      && res.status.Invalid? && res.err.Some? && res.err.value.PreconditionFailed?
      && res.err.value.p in w.manifest.sd.requirements && !Holds(res.err.value.p, w.holds)
      && PreconditionName(res.err.value.p) !in unit.ignorePreconditions
      && (w.live.Live? ==> res.liveImage == w.live.state.imageDigest && res.health == w.live.health)
  {
    var (sd, digest) := (w.manifest.sd, DesiredDigest(unit, w.manifest.sd.image, w.tags).value);
    var required := Required(sd.requirements, unit.ignorePreconditions);
    RequiredContents(sd.requirements, unit.ignorePreconditions);
    FailureSurvives(WithDigest(Described(unit, sd), unit, digest), FailureOf(required, w.holds), w.live, sd, digest, Fields(base, unit));
  }

  lemma FailureSurvives(res: Pass, failure: Option<PassError>, live: LiveAnswer, sd: ServiceDefinition, digest: string, fields: seq<string>)
    requires failure.Some?
    ensures
      var r := AssessLive(res, failure, live, sd, digest, fields);
      && r.status.Invalid? && r.err == failure
      && (live.Live? ==> r.liveImage == live.state.imageDigest && r.health == live.health)
  {
  }

  /** The desired state of a unit whose manifest decodes and whose override resolves. */
  ghost function Desired(base: seq<string>, unit: SyncUnit, w: World): ServiceState
    requires w.manifest.Decoded? && OverrideResolved(unit, w)
  {
    DesiredState(w.manifest.sd, DesiredDigest(unit, w.manifest.sd.image, w.tags).value, Fields(base, unit))
  }

  /** A pass goes on to deploy exactly when the gate is open. */
  lemma GateIsExact(base: seq<string>, unit: SyncUnit, w: World, opts: Options)
    ensures WouldDeploy(Assess(base, unit, w), opts) && !Assess(base, unit, w).observing <==> Gate(base, unit, w, opts)
  {
    AssessmentIsExact(base, unit, w);
    if Comparable(base, unit, w) {
      GateOfDrift(Assess(base, unit, w), base, unit, w, opts);
    }
  }

  lemma GateOfDrift(res: Pass, base: seq<string>, unit: SyncUnit, w: World, opts: Options)
    requires Comparable(base, unit, w) && Assessed(res, unit)
    requires Backed(res, w.live, Desired(base, unit, w), Fields(base, unit), w.manifest.sd.resourceType)
    ensures WouldDeploy(res, opts) && !res.observing <==> Gate(base, unit, w, opts)
  {
    DriftIsDiff(base, unit, w);
  }

  lemma PreconditionsPass(sd: ServiceDefinition, unit: SyncUnit, holds: Precondition -> bool)
    ensures FailureOf(Required(sd.requirements, unit.ignorePreconditions), holds).None?
      <==> forall p | p in sd.requirements && PreconditionName(p) !in unit.ignorePreconditions :: Holds(p, holds)
  {
    RequiredContents(sd.requirements, unit.ignorePreconditions);
  }

  lemma DriftIsDiff(base: seq<string>, unit: SyncUnit, w: World)
    requires w.manifest.Decoded? && OverrideResolved(unit, w) && w.live.Live?
    ensures Drifted(base, unit, w) <==> Compute(Desired(base, unit, w), w.live.state, Fields(base, unit), w.manifest.sd.resourceType) == OutOfSync
  {
    SubtractContents(base, unit.ignoreFields);
    ComputeIsAgreement(Desired(base, unit, w), w.live.state, Fields(base, unit), w.manifest.sd.resourceType);
  }

  // ---------------------------------------------------------------- what is asked for, and how it is reported

  /**
   The digest that a unit asks for. A track selects the first tag of that name, a version the earliest highest matching
   release or else per-service release, and without either it is the manifest's own.
   */
  ghost predicate AsksFor(unit: SyncUnit, image: Image, tags: Option<Option<seq<ImageRef.Tag>>>, digest: string) {
    if unit.track == "" && unit.version == "" then digest == image.digest
    else
      && image.repository != "" && tags.Some? && tags.value.Some?
      && Registry.Selects(tags.value.value, unit.track, unit.version, Base(image.repository), digest)
  }

  lemma DigestIsAskedFor(unit: SyncUnit, image: Image, tags: Option<Option<seq<ImageRef.Tag>>>)
    ensures forall digest :: AsksFor(unit, image, tags, digest) <==> DesiredDigest(unit, image, tags) == Ok(digest)
  {
    if Overrides(unit) && tags.Some? && tags.value.Some? {
      Registry.ResolutionSelects(tags.value.value, unit.track, unit.version, Base(image.repository));
    }
  }

  /** A unit's override is resolved exactly if it selects something, and then that is what the unit desires. */
  lemma DesiredIsAskedFor(base: seq<string>, unit: SyncUnit, w: World)
    requires w.manifest.Decoded?
    ensures OverrideResolved(unit, w) <==> exists digest :: AsksFor(unit, w.manifest.sd.image, w.tags, digest)
    ensures OverrideResolved(unit, w) ==>
      forall digest :: AsksFor(unit, w.manifest.sd.image, w.tags, digest) <==> digest == Desired(base, unit, w).imageDigest
  {
    DigestIsAskedFor(unit, w.manifest.sd.image, w.tags);
    if OverrideResolved(unit, w) { assert AsksFor(unit, w.manifest.sd.image, w.tags, Desired(base, unit, w).imageDigest); }
  }

  /** The state that a pass hands to deploy if it gets that far. */
  ghost function Handed(base: seq<string>, unit: SyncUnit, w: World): ServiceState {
    if w.manifest.Decoded? && OverrideResolved(unit, w) && w.live.Live? then DeployTarget(Desired(base, unit, w), w.live.state, Fields(base, unit))
    else ServiceState("", None, None, None)
  }

  /** It carries the digest asked for, or the live one if the image is not managed, and of the rest what the manifest asks for. */
  lemma HandedIsAskedFor(base: seq<string>, unit: SyncUnit, w: World)
    requires w.manifest.Decoded? && OverrideResolved(unit, w) && w.live.Live?
    ensures
      var (sd, target) := (w.manifest.sd, Handed(base, unit, w));
      && (if "image" in base && "image" !in unit.ignoreFields then AsksFor(unit, sd.image, w.tags, target.imageDigest)
          else target.imageDigest == w.live.state.imageDigest)
      && Asks(sd, target.imageDigest, Fields(base, unit), target)
  {
    var desired := Desired(base, unit, w);
    DesiredIsAskedFor(base, unit, w);
    SubtractContents(base, unit.ignoreFields);
    DesiredStateIsExact(w.manifest.sd, desired.imageDigest, Fields(base, unit), desired);
    DeployTargetIsExact(desired, w.live.state, Fields(base, unit));
  }

  /** The columns written for a result. */
  lemma WritesTheResult(res: Pass)
    ensures
      var w := WriteOf(res);
      && w.desiredImage == res.desiredImage && w.liveImage == res.liveImage && w.resourceType == res.resourceType && w.health == res.health
      && w.track == res.track && w.version == res.version && w.repository == res.repository
      && w.status == match res.status
           case Diffed(status) => if status.Synced? then "Synced" else "OutOfSync"
           case Invalid => "Invalid"
           case Missing => "Missing"
           case Unset => ""
  {
  }

  /** A result that names no image, because the manifest was not read or selects none. */
  ghost predicate NamesNothing(res: Pass) { res.desiredImage == "" && res.liveImage == "" && res.status.Invalid? && res.health == "Invalid" }

  /** What a result says about the manifest: its own selectors and repository, the override's selectors, and the digest asked for. */
  ghost predicate Reports(res: Pass, unit: SyncUnit, w: World) {
    && res.unit == unit && (res.observing <==> unit.sync.observe == Some(true))
    && if !(w.manifest.Decoded? && Valid(w.manifest.sd)) then
         NamesNothing(res) && res.resourceType == res.repository == res.track == res.version == ""
       else
         var (sd, overridden) := (w.manifest.sd, unit.track != "" || unit.version != "");
         && res.resourceType == (match sd.resourceType case Service => "service" case Job => "job" case WorkerPool => "workerPool")
         && res.repository == sd.image.repository
         && if OverrideResolved(unit, w) then
              && AsksFor(unit, sd.image, w.tags, res.desiredImage)
              && res.track == (if overridden then unit.track else sd.image.track)
              && res.version == (if overridden then unit.version else sd.image.version)
            else NamesNothing(res) && res.track == sd.image.track && res.version == sd.image.version
  }

  /** The part of a result that describes the unit and its manifest. */
  ghost predicate DescribedAlike(a: Pass, b: Pass) {
    && a.unit == b.unit && a.observing == b.observing && a.resourceType == b.resourceType && a.repository == b.repository
    && a.track == b.track && a.version == b.version && a.desiredImage == b.desiredImage
  }

  lemma LiveKeepsDescription(res: Pass, failure: Option<PassError>, live: LiveAnswer, sd: ServiceDefinition, digest: string, fields: seq<string>)
    ensures DescribedAlike(AssessLive(res, failure, live, sd, digest, fields), res)
  {
  }

  lemma UnresolvedReports(unit: SyncUnit, w: World, res: Pass, e: PassError)
    requires w.manifest.Decoded? && Valid(w.manifest.sd) && !OverrideResolved(unit, w)
    requires res == Invalidated(Described(unit, w.manifest.sd), e)
    ensures Reports(res, unit, w)
  {
  }

  lemma ResolvedReports(unit: SyncUnit, w: World, digest: string, res: Pass)
    requires w.manifest.Decoded? && Valid(w.manifest.sd) && OverrideResolved(unit, w) && AsksFor(unit, w.manifest.sd.image, w.tags, digest)
    requires DescribedAlike(res, WithDigest(Described(unit, w.manifest.sd), unit, digest))
    ensures Reports(res, unit, w)
  {
  }

  lemma AssessmentReports(base: seq<string>, unit: SyncUnit, w: World)
    ensures Reports(Assess(base, unit, w), unit, w)
  {
    if w.manifest.Decoded? && Valid(w.manifest.sd) {
      var sd := w.manifest.sd;
      DigestIsAskedFor(unit, sd.image, w.tags);
      match DesiredDigest(unit, sd.image, w.tags) {
        case Err(e) => UnresolvedReports(unit, w, Assess(base, unit, w), e);
        case Ok(digest) =>
          var failure := FailureOf(Required(sd.requirements, unit.ignorePreconditions), w.holds);
          LiveKeepsDescription(WithDigest(Described(unit, sd), unit, digest), failure, w.live, sd, digest, Fields(base, unit));
          ResolvedReports(unit, w, digest, Assess(base, unit, w));
      }
    }
  }

  lemma ReportsAlike(a: Pass, b: Pass, unit: SyncUnit, w: World)
    requires w.manifest.Decoded? && Valid(w.manifest.sd) && OverrideResolved(unit, w)
    requires Reports(a, unit, w) && DescribedAlike(b, a)
    ensures Reports(b, unit, w)
  {
  }

  lemma DeployKeepsDescription(res: Pass, desired: ServiceState, fields: seq<string>, rt: ResourceType, p: Progress, post: LiveAnswer)
    ensures DescribedAlike(AfterDeploy(res, desired, fields, rt, p, post), res)
  {
  }

  /** A pass that does not compare ends where its assessment did; one that does keeps what it reports about the manifest. */
  lemma ConcludedAlike(base: seq<string>, unit: SyncUnit, w: World, opts: Options, p: Option<Progress>, post: LiveAnswer)
    ensures Comparable(base, unit, w) ==> DescribedAlike(Concluded(base, unit, w, opts, p, post), Assess(base, unit, w))
    ensures !Comparable(base, unit, w) ==> Concluded(base, unit, w, opts, p, post) == Assess(base, unit, w)
  {
    AssessmentIsExact(base, unit, w);
    if p.Some? && Gate(base, unit, w, opts) {
      DeployKeepsDescription(Assess(base, unit, w), DeployTarget(Desired(base, unit, w), w.live.state, Fields(base, unit)), Fields(base, unit), w.manifest.sd.resourceType, p.value, post);
    }
  }

  /** Whatever happens later in a pass, its result describes the unit and its manifest truthfully. */
  lemma ResultReports(base: seq<string>, unit: SyncUnit, w: World, opts: Options, p: Option<Progress>, post: LiveAnswer)
    ensures Reports(Concluded(base, unit, w, opts, p, post), unit, w)
  {
    AssessmentReports(base, unit, w);
    ConcludedAlike(base, unit, w, opts, p, post);
    if Comparable(base, unit, w) {
      ReportsAlike(Assess(base, unit, w), Concluded(base, unit, w, opts, p, post), unit, w);
    }
  }

  /** Entry `i` is the first unmet precondition. */
  ghost predicate FirstUnmet(requirements: seq<Precondition>, i: nat, unit: SyncUnit, w: World) {
    i < |requirements| && Unmet(requirements[i], unit, w) && forall j | 0 <= j < i :: !Unmet(requirements[j], unit, w)
  }

  lemma {:induction false} FirstFailureIsFirst(requirements: seq<Precondition>, unit: SyncUnit, w: World)
    ensures match FirstFailure(Required(requirements, unit.ignorePreconditions), w.holds)
      case None => forall p | p in requirements :: !Unmet(p, unit, w)
      case Some(p) => exists i: nat :: FirstUnmet(requirements, i, unit, w) && requirements[i] == p
  {
    if requirements != [] {
      var n := |requirements| - 1;
      var init, last := requirements[..n], requirements[n];
      FirstFailureIsFirst(init, unit, w);
      assert requirements == init + [last];
      FirstFailureConcat(Required(init, unit.ignorePreconditions), if PreconditionName(last) in unit.ignorePreconditions then [] else [last], w.holds);
      match FirstFailure(Required(init, unit.ignorePreconditions), w.holds) {
        case Some(p) =>
          var i: nat :| FirstUnmet(init, i, unit, w) && init[i] == p;
          assert FirstUnmet(requirements, i, unit, w);
        case None =>
          assert forall j | 0 <= j < n :: init[j] in init;
          if Unmet(last, unit, w) { assert FirstUnmet(requirements, n, unit, w); }
      }
    }
  }

  lemma {:induction false} FirstFailureConcat(a: seq<Precondition>, b: seq<Precondition>, holds: Precondition -> bool)
    ensures FirstFailure(a + b, holds) == if FirstFailure(a, holds).Some? then FirstFailure(a, holds) else FirstFailure(b, holds)
  {
    if a == [] {
      assert a + b == b;
    } else {
      assert (a + b)[1..] == a[1..] + b;
      FirstFailureConcat(a[1..], b, holds);
    }
  }

  /** Why a pass stops before comparing: the reasons in the order in which they take precedence. */
  ghost predicate Blames(e: PassError, base: seq<string>, unit: SyncUnit, w: World) {
    if w.manifest.Unfetched? then e == ManifestUnfetched
    else if w.manifest.Undecodable? || !Valid(w.manifest.sd) then e == ManifestInvalid
    else
      var sd := w.manifest.sd;
      if !OverrideResolved(unit, w) then
        e == (if sd.image.repository == "" then NoRepository else if w.tags.None? then NoTagResolver else if w.tags.value.None? then TagsUnlisted else OverrideUnresolved)
      else if exists p | p in sd.requirements :: Unmet(p, unit, w) then
        exists i: nat :: FirstUnmet(sd.requirements, i, unit, w) && e == PreconditionFailed(sd.requirements[i])
      else if sd.resourceType.Job? && "env" in base && "env" !in unit.ignoreFields then e == EnvUnsupported
      else e == if w.live.Absent? then NotProvisioned else LiveUnreadable
  }

  lemma LiveBlames(res: Pass, failure: Option<PassError>, live: LiveAnswer, sd: ServiceDefinition, digest: string, fields: seq<string>)
    requires res.status.Unset? && res.err.None?
    ensures
      var r := AssessLive(res, failure, live, sd, digest, fields);
      r.err == if failure.Some? then failure else if sd.resourceType.Job? && "env" in fields then Some(EnvUnsupported)
               else match live case Absent => Some(NotProvisioned) case Unreadable => Some(LiveUnreadable) case Live(_, _) => None
  {
  }

  /** What a pass whose manifest is in order reports about the live resource when it does not compare. */
  ghost predicate ShowsLive(res: Pass, live: LiveAnswer, unmet: bool) {
    match live
    case Absent => res.liveImage == "" && res.health == "Missing" && res.status == (if unmet then Invalid else Missing)
    case Unreadable => res.liveImage == "" && res.health == "Invalid" && res.status == Invalid
    case Live(state, health) => res.liveImage == state.imageDigest && res.health == health && res.status == Invalid
  }

  lemma BlockedShowsLive(res: Pass, failure: Option<PassError>, live: LiveAnswer, sd: ServiceDefinition, digest: string, fields: seq<string>)
    requires res.status.Unset? && res.liveImage == "" && (failure.Some? || !live.Live?)
    ensures
      var r := AssessLive(res, failure, live, sd, digest, fields);
      if sd.resourceType.Job? && "env" in fields && failure.None? then r.liveImage == "" && r.health == "Invalid" && r.status == Invalid
      else ShowsLive(r, live, failure.Some?)
  {
  }

  /** A pass that is not comparable reports the first reason. */
  lemma AssessmentBlames(base: seq<string>, unit: SyncUnit, w: World)
    requires !Comparable(base, unit, w)
    ensures
      var res := Assess(base, unit, w);
      && res.err.Some? && Blames(res.err.value, base, unit, w)
      && if !(w.manifest.Decoded? && Valid(w.manifest.sd) && OverrideResolved(unit, w)) || res.err == Some(EnvUnsupported)
         then res.status == Invalid && res.health == "Invalid" && res.liveImage == ""
         else ShowsLive(res, w.live, res.err.value.PreconditionFailed?)
  {
    if w.manifest.Decoded? && Valid(w.manifest.sd) && OverrideResolved(unit, w) {
      var (sd, digest) := (w.manifest.sd, DesiredDigest(unit, w.manifest.sd.image, w.tags).value);
      var failure := FailureOf(Required(sd.requirements, unit.ignorePreconditions), w.holds);
      FirstFailureIsFirst(sd.requirements, unit, w);
      SubtractContents(base, unit.ignoreFields);
      PreconditionsPass(sd, unit, w.holds);
      LiveBlames(WithDigest(Described(unit, sd), unit, digest), failure, w.live, sd, digest, Fields(base, unit));
      if failure.Some? || !w.live.Live? {
        BlockedShowsLive(WithDigest(Described(unit, sd), unit, digest), failure, w.live, sd, digest, Fields(base, unit));
      }
    }
  }

  // ---------------------------------------------------------------- after the deploy section

  /** How far the deploy section got, and whether closing the audit row was confirmed. */
  datatype Progress =
    | LockErrored | LockHeld | RowFailed | EventFailed
    | DeployErrored(audited: bool)
    | Deployed(audited: bool)

  /** The result after the deploy section; `post` answers the read that follows a successful deploy. */
  function AfterDeploy(res: Pass, desired: ServiceState, fields: seq<string>, rt: ResourceType, p: Progress, post: LiveAnswer): Pass {
    match p
    case LockErrored => res.(err := Some(LockFailed))
    case LockHeld => res.(err := Some(SyncInProgress))
    case RowFailed => res.(err := Some(RowUnwritten))
    case EventFailed => res.(err := Some(EventUnwritten))
    case DeployErrored(audited) => res.(deployFailed := true, err := OrElse(res.err, DeployFailed(!audited)))
    case Deployed(audited) =>
      match post
      case Live(state, health) =>
        res.(liveImage := state.imageDigest, health := health, status := Diffed(Compute(desired, state, fields, rt)),
             err := if audited then res.err else OrElse(res.err, AuditUpdateFailed))
      case _ => res.(err := OrElse(res.err, PostCheckFailed(!audited)))
  }

  /** The last read of the live resource that succeeded in a pass that got as far as `p`. */
  function LastRead(before: LiveAnswer, p: Option<Progress>, post: LiveAnswer): LiveAnswer {
    if p.Some? && p.value.Deployed? && post.Live? then post else before
  }

  /** The result of a whole pass. */
  ghost function Concluded(base: seq<string>, unit: SyncUnit, w: World, opts: Options, p: Option<Progress>, post: LiveAnswer): Pass {
    var res := Assess(base, unit, w);
    if p.Some? && Gate(base, unit, w, opts) then
      AfterDeploy(res, DeployTarget(Desired(base, unit, w), w.live.state, Fields(base, unit)), Fields(base, unit), w.manifest.sd.resourceType, p.value, post)
    else Withheld(res, opts)
  }

  /** Putting the live digest in the place of one that is not managed does not change what a diff says. */
  lemma TargetDiffsAlike(desired: ServiceState, live: ServiceState, state: ServiceState, fields: seq<string>, rt: ResourceType)
    ensures Compute(DeployTarget(desired, live, fields), state, fields, rt) == Compute(desired, state, fields, rt)
  {
    ComputeIsAgreement(DeployTarget(desired, live, fields), state, fields, rt);
    ComputeIsAgreement(desired, state, fields, rt);
  }

  lemma AfterDeployIsBacked(res: Pass, desired: ServiceState, live: LiveAnswer, fields: seq<string>, rt: ResourceType, p: Progress, post: LiveAnswer)
    requires Backed(res, live, desired, fields, rt)
    ensures Backed(AfterDeploy(res, DeployTarget(desired, live.state, fields), fields, rt, p, post), LastRead(live, Some(p), post), desired, fields, rt)
  {
    if p.Deployed? && post.Live? {
      TargetDiffsAlike(desired, live.state, post.state, fields, rt);
    }
  }

  lemma ConcludedIsBacked(base: seq<string>, unit: SyncUnit, w: World, opts: Options, p: Option<Progress>, post: LiveAnswer)
    requires p.Some? ==> Gate(base, unit, w, opts)
    requires Comparable(base, unit, w)
    ensures Backed(Concluded(base, unit, w, opts, p, post), LastRead(w.live, p, post), Desired(base, unit, w), Fields(base, unit), w.manifest.sd.resourceType)
  {
    AssessmentIsExact(base, unit, w);
    if p.Some? {
      AfterDeployIsBacked(Assess(base, unit, w), Desired(base, unit, w), w.live, Fields(base, unit), w.manifest.sd.resourceType, p.value, post);
    }
  }

  /**
   Results are honest on every path: a reported Synced means that the last successful live read of the same pass agrees
   on every managed field, OutOfSync that it does not, and the reported live image and health come from that read.
   */
  lemma StatusIsBacked(base: seq<string>, unit: SyncUnit, w: World, opts: Options, p: Option<Progress>, post: LiveAnswer)
    requires p.Some? ==> Gate(base, unit, w, opts)
    ensures Concluded(base, unit, w, opts, p, post).status.Diffed? <==> Comparable(base, unit, w)
    ensures Comparable(base, unit, w) ==>
      var (res, read) := (Concluded(base, unit, w, opts, p, post), LastRead(w.live, p, post));
      && read.Live? && res.liveImage == read.state.imageDigest && res.health == read.health
      && (res.status == Diffed(Synced) <==>
            forall f | f in base && f !in unit.ignoreFields :: Agrees(f, Desired(base, unit, w), read.state, w.manifest.sd.resourceType))
  {
    AssessmentIsExact(base, unit, w);
    if Comparable(base, unit, w) {
      ConcludedIsBacked(base, unit, w, opts, p, post);
      SubtractContents(base, unit.ignoreFields);
      ComputeIsAgreement(Desired(base, unit, w), LastRead(w.live, p, post).state, Fields(base, unit), w.manifest.sd.resourceType);
    }
  }

  /** Which step a pass that entered the deploy section blames, if any. */
  ghost function StepBlamed(p: Progress, post: LiveAnswer): Option<PassError> {
    match p
    case LockErrored => Some(LockFailed)
    case LockHeld => Some(SyncInProgress)
    case RowFailed => Some(RowUnwritten)
    case EventFailed => Some(EventUnwritten)
    case DeployErrored(audited) => Some(DeployFailed(!audited))
    case Deployed(audited) => if !post.Live? then Some(PostCheckFailed(!audited)) else if audited then None else Some(AuditUpdateFailed)
  }

  lemma AfterDeploySaysWhy(res: Pass, desired: ServiceState, fields: seq<string>, rt: ResourceType, p: Progress, post: LiveAnswer)
    requires res.status.Diffed? && res.err.None? && !res.deployFailed
    ensures
      var r := AfterDeploy(res, desired, fields, rt, p, post);
      && r.status.Diffed?
      && r.err == StepBlamed(p, post)
      && (r.deployFailed <==> p.DeployErrored?)
      && (r.err == Some(SyncInProgress) <==> p.LockHeld?)
  {
  }

  lemma WithheldSaysWhy(res: Pass, opts: Options)
    requires !res.status.Unset? && res.err != Some(SyncInProgress) && (res.status.Diffed? <==> res.err.None?) && !res.deployFailed
    ensures
      var r := Withheld(res, opts);
      !r.status.Unset? && (!r.status.Diffed? ==> r.err.Some?) && !r.deployFailed && r.err != Some(SyncInProgress)
  {
  }

  /** A pass that ends with a status other than Synced or OutOfSync says why, and so does one whose deploy is unconfirmed. */
  lemma ConcludedSaysWhy(base: seq<string>, unit: SyncUnit, w: World, opts: Options, p: Option<Progress>, post: LiveAnswer)
    requires p.Some? ==> Gate(base, unit, w, opts)
    ensures
      var res := Concluded(base, unit, w, opts, p, post);
      && !res.status.Unset?
      && (!res.status.Diffed? ==> res.err.Some? && p.None?)
      && (p.Some? ==> res.err == StepBlamed(p.value, post))
      && (res.deployFailed <==> p.Some? && p.value.DeployErrored?)
      && (res.err == Some(SyncInProgress) <==> p == Some(LockHeld))
  {
    AssessmentIsExact(base, unit, w);
    if p.Some? {
      AfterDeploySaysWhy(Assess(base, unit, w), DeployTarget(Desired(base, unit, w), w.live.state, Fields(base, unit)), Fields(base, unit),
                         w.manifest.sd.resourceType, p.value, post);
    } else {
      WithheldSaysWhy(Assess(base, unit, w), opts);
    }
  }

  /** A pass that compares and does not enter the section has no error, unless it was forced on a unit that is only observed. */
  lemma ObservedIsWithheld(base: seq<string>, unit: SyncUnit, w: World, opts: Options, post: LiveAnswer)
    requires Comparable(base, unit, w)
    ensures
      var res := Concluded(base, unit, w, opts, None, post);
      && res.err == (if opts.force && !opts.dryRun && unit.sync.observe == Some(true) then Some(ObserveMode) else None)
      && res.(err := None) == Assess(base, unit, w)
  {
    AssessmentIsExact(base, unit, w);
  }

  /** A dry run returns the bare assessment; forcing opens the gate to exactly the comparable, unobserved units. */
  lemma DryRunPreviews(base: seq<string>, unit: SyncUnit, w: World, force: bool, now: int, post: LiveAnswer)
    ensures Concluded(base, unit, w, Options(force, true, now), None, post) == Assess(base, unit, w)
    ensures !Gate(base, unit, w, Options(force, true, now))
    ensures Gate(base, unit, w, Options(true, false, now)) <==> Assess(base, unit, w).status.Diffed? && !Assess(base, unit, w).observing
    ensures Gate(base, unit, w, Options(false, false, now)) <==>
      Gate(base, unit, w, Options(true, false, now)) && Assess(base, unit, w).status == Diffed(OutOfSync) && unit.sync.auto == Some(true) && WindowsOpen(unit, now)
  {
    AssessmentIsExact(base, unit, w);
    if Comparable(base, unit, w) { DriftIsDiff(base, unit, w); }
  }

  /** Digests of the listed tags never contain the separator. */
  ghost predicate BareTags(tags: Option<Option<seq<ImageRef.Tag>>>) {
    tags.Some? && tags.value.Some? ==> forall t | t in tags.value.value :: '@' !in t.digest
  }

  /** The desired digest can be pinned, whether the manifest gives it or an override resolves it. */
  lemma DesiredDigestIsBare(base: seq<string>, unit: SyncUnit, w: World)
    requires w.manifest.Decoded? && Valid(w.manifest.sd) && OverrideResolved(unit, w) && BareTags(w.tags)
    ensures '@' !in Desired(base, unit, w).imageDigest
  {
    var image := w.manifest.sd.image;
    if Overrides(unit) {
      var tags := w.tags.value.value;
      Registry.ResolvedDigestIsListed(tags, unit.track, unit.version, Base(image.repository));
      var t :| t in tags && t.digest == Registry.Resolution(tags, unit.track, unit.version, Base(image.repository)).value;
    } else {
      DigestHasNoSeparator(image.digest);
    }
  }

  /** A service or worker pool that read as `live` took a deploy of `target` and then read as `post`. */
  ghost predicate ResourceTook(registry: ImageRef.Registry, before: CloudRun.Resource, live: ServiceState, target: ServiceState,
                               after: CloudRun.Resource, post: ServiceState) {
    CloudRun.ReadBack(registry, before) == Ok(live) && CloudRun.Deployed(before, target, after) && CloudRun.ReadBack(registry, after) == Ok(post)
  }

  /** The same for a job. */
  ghost predicate JobTook(registry: ImageRef.Registry, before: CloudRun.JobSpec, live: ServiceState, target: ServiceState,
                          after: CloudRun.JobSpec, post: ServiceState) {
    CloudRun.ReadJob(registry, before) == Ok(live) && CloudRun.JobDeployed(before, target, after) && CloudRun.ReadJob(registry, after) == Ok(post)
  }

  /**
   What a pass ends with after a deploy that took effect and was read again: what it hands to deploy, the deploy itself,
   the read-back and the diff fit together. It ends Synced exactly unless a service's managed, declared traffic meets a
   worker pool; a digest that is not managed keeps its live value.
   */
  lemma DeployedPassConverges(base: seq<string>, unit: SyncUnit, w: World, opts: Options, audited: bool, post: LiveAnswer,
                              registry: ImageRef.Registry, before: CloudRun.Resource, after: CloudRun.Resource)
    requires Gate(base, unit, w, opts) && BareTags(w.tags) && ImageRef.BareDigests(registry) && post.Live?
    requires ResourceTook(registry, before, w.live.state, DeployTarget(Desired(base, unit, w), w.live.state, Fields(base, unit)), after, post.state)
    ensures Concluded(base, unit, w, opts, Some(Deployed(audited)), post).status == Diffed(Synced) <==>
            !CloudRun.TrafficOnWorkerPool(before, Desired(base, unit, w), Fields(base, unit), w.manifest.sd.resourceType)
    ensures "image" in unit.ignoreFields ==> post.state.imageDigest == w.live.state.imageDigest
  {
    var desired := Desired(base, unit, w);
    SubtractContents(base, unit.ignoreFields);
    DesiredDigestIsBare(base, unit, w);
    CloudRun.ManifestConverges(registry, w.manifest.sd, desired.imageDigest, Fields(base, unit), before, after);
    ConcludedIsBacked(base, unit, w, opts, Some(Deployed(audited)), post);
  }

  /** A job pass reads and writes the job's own spec, and always ends Synced. */
  lemma DeployedJobPassIsSynced(base: seq<string>, unit: SyncUnit, w: World, opts: Options, audited: bool, post: LiveAnswer,
                                registry: ImageRef.Registry, before: CloudRun.JobSpec, after: CloudRun.JobSpec)
    requires Gate(base, unit, w, opts) && BareTags(w.tags) && ImageRef.BareDigests(registry) && post.Live? && w.manifest.sd.resourceType.Job?
    requires JobTook(registry, before, w.live.state, DeployTarget(Desired(base, unit, w), w.live.state, Fields(base, unit)), after, post.state)
    ensures Concluded(base, unit, w, opts, Some(Deployed(audited)), post).status == Diffed(Synced)
    ensures "image" in unit.ignoreFields ==> post.state.imageDigest == w.live.state.imageDigest
  {
    var desired := Desired(base, unit, w);
    SubtractContents(base, unit.ignoreFields);
    DesiredDigestIsBare(base, unit, w);
    CloudRun.JobManifestConverges(registry, w.manifest.sd, desired.imageDigest, Fields(base, unit), before, after);
    ConcludedIsBacked(base, unit, w, opts, Some(Deployed(audited)), post);
  }
}
