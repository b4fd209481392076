/** Expansion of the configuration into the flat list of sync units. */
module Expander {
  import opened Wrappers
  import opened Sequences
  import opened Config
  import opened Folders

  datatype SyncUnit = SyncUnit(
    app: string,
    project: string,
    env: string,
    region: string,
    sync: SyncPolicy,
    source: Source,
    ignoreFields: seq<string>,
    ignorePreconditions: seq<string>,
    track: string,
    version: string)

  function Pick(first: string, otherwise: string): string { if first != "" then first else otherwise }

  function OverrideOf(app: App, project: string): Override {
    if project in app.overrides then app.overrides[project] else Override("", "", "")
  }

  /** The unit that `app` has in `project`. */
  function UnitOf(defaults: Defaults, app: App, env: Environment, project: string): SyncUnit {
    var over := OverrideOf(app, project);
    SyncUnit(
      app.name, project, app.env,
      Pick(over.region, Pick(env.region, defaults.region)),
      Merge(defaults.sync, env.sync),
      app.source, app.ignoreFields, app.ignorePreconditions, over.track, over.version)
  }

  ghost function UnitAt(root: Root, p: Position): SyncUnit
    requires Declared(root, p)
  {
    var app := root.apps[p.app];
    UnitOf(root.defaults, app, root.environments[app.env], ProjectsOf(root, p.app)[p.project])
  }

  ghost function UnitsAt(root: Root, ps: seq<Position>): (us: seq<SyncUnit>)
    requires forall p | p in ps :: Declared(root, p)
    ensures |us| == |ps| && forall k | 0 <= k < |ps| :: us[k] == UnitAt(root, ps[k])
  {
    seq(|ps|, k requires 0 <= k < |ps| => assert ps[k] in ps; UnitAt(root, ps[k]))
  }

  /** The units that the configuration declares, in its order. */
  ghost function Expansion(root: Root): seq<SyncUnit> { UnitsAt(root, AllPositions(root)) }

  ghost predicate OverridesKnown(app: App, env: Environment) {
    forall p | p in app.overrides :: p in env.projects
  }

  predicate Excludable(app: App, env: Environment, project: string) {
    project in env.projects && project !in app.overrides
  }

  ghost predicate ReferencesValid(app: App, env: Environment) {
    OverridesKnown(app, env) && forall p | p in app.exclude :: Excludable(app, env, p)
  }

  ghost predicate RegionKnown(root: Root, p: Position) {
    Declared(root, p) ==> UnitAt(root, p).region != ""
  }

  ghost predicate AppValidIn(root: Root, app: App) {
    app.env in root.environments && ReferencesValid(app, root.environments[app.env])
  }

  ghost predicate Expandable(root: Root) {
    && (forall a | a in root.apps :: AppValidIn(root, a))
    && (forall p :: RegionKnown(root, p))
    && CollisionFree(root)
  }

  datatype ExpandError =
    | UnknownEnvironment(app: App)
    | UnknownProject(app: App, project: string)
    | OverriddenAndExcluded(app: App, project: string)
    | NoRegion(app: App, project: string)
    | Collision(app: App, project: string)

  /** The error names something that is really wrong with the configuration. */
  ghost predicate Justified(root: Root, e: ExpandError) {
    match e
    case UnknownEnvironment(app) => app in root.apps && app.env !in root.environments
    case UnknownProject(app, project) =>
      app in root.apps && UnknownProjectIn(root, app, project)
    case OverriddenAndExcluded(app, project) => app in root.apps && project in app.overrides && project in app.exclude
    case NoRegion(app, project) => exists p :: !RegionKnown(root, p) && Names(root, p, app, project)
    case Collision(app, project) => exists p, q :: Collide(root, p, q) && Names(root, q, app, project)
  }

  ghost predicate UnknownProjectIn(root: Root, app: App, project: string) {
    && app.env in root.environments && project !in root.environments[app.env].projects
    && (project in app.overrides || project in app.exclude)
  }

  ghost predicate Names(root: Root, p: Position, app: App, project: string) {
    Declared(root, p) && root.apps[p.app] == app && ProjectsOf(root, p.app)[p.project] == project
  }

  /** The `overrides` loop, over a map whose order is arbitrary. */
  method CheckOverrides(root: Root, app: App) returns (err: Option<ExpandError>)
    requires app in root.apps && app.env in root.environments
    ensures err.None? <==> OverridesKnown(app, root.environments[app.env])
    ensures err.Some? ==> Justified(root, err.value)
  {
    var resolved := set p | p in root.environments[app.env].projects;
    var todo := app.overrides.Keys;
    while todo != {}
      invariant todo <= app.overrides.Keys
      invariant forall p | p in app.overrides.Keys - todo :: p in resolved
    {
      var project :| project in todo;
      if project !in resolved {
        assert UnknownProjectIn(root, app, project);
        return Some(UnknownProject(app, project));
      }
      todo := todo - {project};
    }
    assert app.overrides.Keys - todo == app.overrides.Keys;
    err := None;
  }

  method CheckExclude(root: Root, app: App) returns (err: Option<ExpandError>, excluded: set<string>)
    requires app in root.apps && app.env in root.environments
    ensures err.None? <==> forall p | p in app.exclude :: Excludable(app, root.environments[app.env], p)
    ensures err.Some? ==> Justified(root, err.value)
    ensures err.None? ==> excluded == set p | p in app.exclude
  {
    var env := root.environments[app.env];
    excluded := {};
    err := None;
    for i := 0 to |app.exclude|
      invariant forall p | p in app.exclude[..i] :: Excludable(app, env, p)
      invariant excluded == set p | p in app.exclude[..i]
    {
      var project := app.exclude[i];
      assert project in app.exclude;
      if project !in env.projects {
        assert UnknownProjectIn(root, app, project);
        return Some(UnknownProject(app, project)), excluded;
      }
      if project in app.overrides { return Some(OverriddenAndExcluded(app, project)), excluded; }
      assert app.exclude[..i + 1] == app.exclude[..i] + [project];
      excluded := excluded + {project};
    }
    assert app.exclude[..|app.exclude|] == app.exclude;
  }

  /** Every unit so far has a region, and `units` and `seen` hold what is declared before project `m` of app `i`. */
  ghost predicate ExpandedUpTo(root: Root, i: nat, m: nat, units: seq<SyncUnit>, seen: set<string>) {
    && i < |root.apps| && m <= |ProjectsOf(root, i)|
    && units == UnitsAt(root, PositionsUpTo(root, i, m))
    && SeenExactly(root, PositionsUpTo(root, i, m), seen)
    && forall p | p in PositionsUpTo(root, i, m) :: RegionKnown(root, p)
  }

  lemma ExpandOneMore(root: Root, i: nat, m: nat, units: seq<SyncUnit>, seen: set<string>)
    requires ExpandedUpTo(root, i, m, units, seen) && m < |ProjectsOf(root, i)|
    ensures
      var here := Position(i, m);
      if Declared(root, here) then
        UnitAt(root, here).region != "" && KeyAt(root, here) !in seen ==>
          ExpandedUpTo(root, i, m + 1, units + [UnitAt(root, here)], seen + {KeyAt(root, here)})
      else ExpandedUpTo(root, i, m + 1, units, seen)
  {
    var here := Position(i, m);
    if Declared(root, here) ==> KeyAt(root, here) !in seen {
      SeenOneMore(root, i, m, seen);
    }
  }

  /** The loop over the projects of one app. */
  method ExpandApp(root: Root, i: nat, units0: seq<SyncUnit>, seen0: set<string>, excluded: set<string>)
    returns (err: Option<ExpandError>, units: seq<SyncUnit>, seen: set<string>)
    requires ExpandedUpTo(root, i, 0, units0, seen0)
    requires root.apps[i].env in root.environments && excluded == set p | p in root.apps[i].exclude
    ensures err.Some? ==> (err.value.NoRegion? || err.value.Collision?) && Justified(root, err.value)
    ensures err.None? ==> ExpandedUpTo(root, i, |ProjectsOf(root, i)|, units, seen)
  {
    var app := root.apps[i];
    var env := root.environments[app.env];
    var sync := Merge(root.defaults.sync, env.sync);
    units, seen, err := units0, seen0, None;
    for m := 0 to |env.projects|
      invariant ExpandedUpTo(root, i, m, units, seen)
    {
      var project := env.projects[m];
      ghost var here := Position(i, m);
      ExpandOneMore(root, i, m, units, seen);
      if project !in excluded {
        var region := root.defaults.region;
        if env.region != "" { region := env.region; }
        var track, version := "", "";
        if project in app.overrides {
          var o := app.overrides[project];
          if o.region != "" { region := o.region; }
          track, version := o.track, o.version;
        }
        assert Names(root, here, app, project);
        if region == "" {
          assert !RegionKnown(root, here);
          return Some(NoRegion(app, project)), units, seen;
        }
        var key := Key(app.name, project);
        if key in seen {
          RepeatedKeyCollides(root, i, m, seen);
          return Some(Collision(app, project)), units, seen;
        }
        seen := seen + {key};
        units := units + [SyncUnit(app.name, project, app.env, region, sync, app.source, app.ignoreFields, app.ignorePreconditions, track, version)];
      }
    }
  }

  ghost predicate Expanded(root: Root, n: nat, units: seq<SyncUnit>, seen: set<string>) {
    && n <= |root.apps|
    && units == UnitsAt(root, Positions(root, n))
    && SeenExactly(root, Positions(root, n), seen)
    && forall p | p in Positions(root, n) :: RegionKnown(root, p)
  }

  lemma ExpandedAll(root: Root, units: seq<SyncUnit>, seen: set<string>)
    requires Expanded(root, |root.apps|, units, seen)
    ensures units == Expansion(root) && CollisionFree(root) && forall p :: RegionKnown(root, p)
  {
    PositionsExact(root, |root.apps|);
  }

  /** Succeeds exactly on an expandable configuration, with its expansion; every error is justified. */
  method Expand(root: Root) returns (r: Result<seq<SyncUnit>, ExpandError>)
    ensures r.Ok? <==> Expandable(root)
    ensures r.Ok? ==> r.value == Expansion(root)
    ensures r.Err? ==> Justified(root, r.error)
  {
    var units: seq<SyncUnit>, seen: set<string> := [], {};
    for i := 0 to |root.apps|
      invariant Expanded(root, i, units, seen)
      invariant forall a | a in root.apps[..i] :: AppValidIn(root, a)
    {
      var app := root.apps[i];
      assert app in root.apps;
      if app.env !in root.environments { return Err(ExpandError.UnknownEnvironment(app)); }
      var err := CheckOverrides(root, app);
      if err.Some? { return Err(err.value); }
      var excluded;
      err, excluded := CheckExclude(root, app);
      if err.Some? { return Err(err.value); }
      assert PositionsUpTo(root, i, 0) == Positions(root, i);
      err, units, seen := ExpandApp(root, i, units, seen, excluded);
      if err.Some? { return Err(err.value); }
      assert PositionsUpTo(root, i, |ProjectsOf(root, i)|) == Positions(root, i + 1);
      assert root.apps[..i + 1] == root.apps[..i] + [app];
    }
    assert root.apps[..|root.apps|] == root.apps;
    ExpandedAll(root, units, seen);
    r := Ok(units);
  }

  ghost predicate FirstSet<T>(r: Option<T>, first: Option<T>, second: Option<T>) { if first.Some? then r == first else r == second }

  /** What the configuration says about the unit of an app in a project: each field from the record that has the last word. */
  ghost predicate Describes(d: Defaults, app: App, env: Environment, project: string, u: SyncUnit) {
    var overridden := project in app.overrides;
    && u.app == app.name && u.project == project && u.env == app.env && u.source == app.source
    && u.ignoreFields == app.ignoreFields && u.ignorePreconditions == app.ignorePreconditions
    && (if overridden && app.overrides[project].region != "" then u.region == app.overrides[project].region
        else if env.region != "" then u.region == env.region
        else u.region == d.region)
    && (if overridden then u.track == app.overrides[project].track && u.version == app.overrides[project].version
        else u.track == u.version == "")
    && FirstSet(u.sync.auto, env.sync.auto, d.sync.auto) && FirstSet(u.sync.retry, env.sync.retry, d.sync.retry)
    && FirstSet(u.sync.selfHeal, env.sync.selfHeal, d.sync.selfHeal) && FirstSet(u.sync.windows, env.sync.windows, d.sync.windows)
    && FirstSet(u.sync.observe, env.sync.observe, d.sync.observe)
  }

  lemma UnitIsDescribed(d: Defaults, app: App, env: Environment, project: string, u: SyncUnit)
    ensures Describes(d, app, env, project, u) <==> u == UnitOf(d, app, env, project)
  {
  }

  /** Entry `k` of an expansion is the unit declared at place `k`, described by the records of the configuration. */
  ghost predicate ExpandedAt(root: Root, p: Position, u: SyncUnit) {
    && p.app < |root.apps| && root.apps[p.app].env in root.environments
    && var (app, env) := (root.apps[p.app], root.environments[root.apps[p.app].env]);
    && p.project < |env.projects| && env.projects[p.project] !in app.exclude
    && Describes(root.defaults, app, env, env.projects[p.project], u)
  }

  /** The units of an expansion are those declared, each described by the records that declare it, and all with a region. */
  lemma ExpansionIsDescribed(root: Root, us: seq<SyncUnit>)
    requires Expandable(root)
    ensures us == Expansion(root) <==>
      |us| == |AllPositions(root)| && forall k | 0 <= k < |us| :: ExpandedAt(root, AllPositions(root)[k], us[k])
    ensures forall u | u in Expansion(root) :: u.region != ""
  {
    var ps := AllPositions(root);
    forall k, u | 0 <= k < |ps| ensures ExpandedAt(root, ps[k], u) <==> u == UnitAt(root, ps[k]) {
      assert ps[k] in ps;
      var app := root.apps[ps[k].app];
      UnitIsDescribed(root.defaults, app, root.environments[app.env], ProjectsOf(root, ps[k].app)[ps[k].project], u);
    }
    forall u | u in Expansion(root) ensures u.region != "" {
      var k :| 0 <= k < |ps| && Expansion(root)[k] == u;
      assert ps[k] in ps && RegionKnown(root, ps[k]);
    }
  }

  /**
   Where the units of an expansion are declared: the declared positions, each once and in configuration order (a list that
   is unique), no two with one key.
   */
  lemma ExpansionIsExact(root: Root, ps: seq<Position>)
    requires Expandable(root)
    ensures Increasing(ps) && (forall p :: p in ps <==> Declared(root, p)) <==> ps == AllPositions(root)
    ensures forall p, q | Declared(root, p) && Declared(root, q) && p != q :: KeyAt(root, p) != KeyAt(root, q)
  {
    PositionsExact(root, |root.apps|);
    if Increasing(ps) && (forall p :: p in ps <==> Declared(root, p)) {
      IncreasingIsUnique(ps, AllPositions(root));
    }
    forall p, q | Declared(root, p) && Declared(root, q) && p != q
      ensures KeyAt(root, p) != KeyAt(root, q)
    {
      assert !Collide(root, p, q) && !Collide(root, q, p);
    }
  }

  function KeyOf(u: SyncUnit): string { Key(u.app, u.project) }

  ghost predicate KeysDistinct(us: seq<SyncUnit>) {
    forall i, j | 0 <= i < j < |us| :: KeyOf(us[i]) != KeyOf(us[j])
  }

  lemma ExpandedKeysAreDistinct(root: Root)
    requires Expandable(root)
    ensures KeysDistinct(Expansion(root))
  {
    PositionsExact(root, |root.apps|);
    var ps := AllPositions(root);
    forall i, j | 0 <= i < j < |ps| ensures KeyOf(Expansion(root)[i]) != KeyOf(Expansion(root)[j]) {
      assert ps[i] in ps && ps[j] in ps;
      assert !Collide(root, ps[i], ps[j]);
    }
  }

  /** Two units of one app cannot collide when its environment lists no project twice. */
  lemma CollisionIsBetweenApps(root: Root, p: Position, q: Position)
    requires Collide(root, p, q) && Distinct(ProjectsOf(root, p.app))
    ensures p.app < q.app
  {
    if p.app == q.app {
      KeyIsInjectiveInProject(root.apps[p.app].name, ProjectsOf(root, p.app)[p.project], ProjectsOf(root, p.app)[q.project]);
    }
  }

  lemma KeyIsInjectiveInProject(app: string, p: string, q: string)
    requires Key(app, p) == Key(app, q)
    ensures p == q
  {
    var n := |app| + 1;
    assert Key(app, p)[n..] == p && Key(app, q)[n..] == q;
  }

  /** Loading the configuration and merging folders leaves no environment with a repeated project. */
  lemma ParsedProjectsAreDistinct(root: Root, answers: Answers, e: string)
    requires WellFormed(root) && Covers(root, answers) && e in root.environments
    ensures Distinct(MergeFolders(root, answers).environments[e].projects)
    ensures root.environments[e].projects <= MergeFolders(root, answers).environments[e].projects
  {
    assert EnvironmentValid(root.environments[e]);
    if root.environments[e].folders != [] {
      MergedProjectsExact(root.environments[e], answers[e]);
    }
  }

  /**
   After loading and merging, a collision is always between two different app entries, and at least one of the two
   projects was contributed by a folder.
   */
  lemma CollisionNeedsFolder(root: Root, answers: Answers, p: Position, q: Position)
    requires WellFormed(root) && Covers(root, answers)
    requires Collide(MergeFolders(root, answers), p, q)
    ensures p.app < q.app
    ensures !Declared(root, p) || !Declared(root, q)
  {
    var merged := MergeFolders(root, answers);
    ParsedProjectsAreDistinct(root, answers, root.apps[p.app].env);
    ParsedProjectsAreDistinct(root, answers, root.apps[q.app].env);
    CollisionIsBetweenApps(merged, p, q);
    assert !Collide(root, p, q);
  }

  /** Merging folders only adds: a declared position stays declared and keeps its unit, and references stay valid. */
  lemma MergingKeepsUnits(root: Root, answers: Answers, p: Position)
    requires WellFormed(root) && Covers(root, answers) && Declared(root, p)
    ensures Declared(MergeFolders(root, answers), p)
    ensures UnitAt(MergeFolders(root, answers), p) == UnitAt(root, p)
  {
    ParsedProjectsAreDistinct(root, answers, root.apps[p.app].env);
  }

  lemma MergingKeepsReferences(root: Root, answers: Answers, app: App)
    requires WellFormed(root) && Covers(root, answers) && AppValidIn(root, app)
    ensures AppValidIn(MergeFolders(root, answers), app)
  {
    ParsedProjectsAreDistinct(root, answers, app.env);
  }
}
