/** The root configuration: which applications run in which projects, and the checks made when it is loaded. */
module Config {
  import opened Wrappers
  import opened Sequences
  import opened Strings
  import SyncWindow
  import Rules = NotifyRules

  datatype RetryPolicy = RetryPolicy(limit: int, backoffSeconds: int)

  /** Every field may be absent, which is what makes policies mergeable. */
  datatype SyncPolicy = SyncPolicy(
    auto: Option<bool>,
    retry: Option<RetryPolicy>,
    selfHeal: Option<bool>,
    windows: Option<seq<SyncWindow.Window>>,
    observe: Option<bool>)

  datatype Environment = Environment(projects: seq<string>, folders: seq<string>, region: string, sync: SyncPolicy, notify: Rules.Override)

  /** At most one of `track` and `version` may be non-empty. */
  datatype Override = Override(region: string, track: string, version: string)

  datatype Source = Source(repo: string, path: string, branch: string)

  datatype App = App(
    name: string,
    env: string,
    source: Source,
    overrides: map<string, Override>,
    exclude: seq<string>,
    ignoreFields: seq<string>,
    ignorePreconditions: seq<string>)

  datatype Defaults = Defaults(region: string, managedFields: seq<string>, sync: SyncPolicy)

  datatype Root = Root(environments: map<string, Environment>, defaults: Defaults, apps: seq<App>, notify: Rules.Notify)

  function Or<T>(over: Option<T>, base: Option<T>): Option<T> { if over.None? then base else over }

  /** `base` with every field that `over` sets replaced. */
  function Merge(base: SyncPolicy, over: SyncPolicy): SyncPolicy {
    SyncPolicy(
      Or(over.auto, base.auto),
      Or(over.retry, base.retry),
      Or(over.selfHeal, base.selfHeal),
      Or(over.windows, base.windows),
      Or(over.observe, base.observe))
  }

  const UNSET := SyncPolicy(None, None, None, None, None)

  predicate SetsAll(a: SyncPolicy) {
    a.auto.Some? && a.retry.Some? && a.selfHeal.Some? && a.windows.Some? && a.observe.Some?
  }

  /**
   Merging is an associative, idempotent operation whose unit is the policy that sets nothing; what is merged in last
   prevails, and what it leaves open shows the base.
   */
  lemma MergeIsMonoid(a: SyncPolicy, b: SyncPolicy, c: SyncPolicy)
    ensures Merge(Merge(a, b), c) == Merge(a, Merge(b, c))
    ensures Merge(a, a) == a && Merge(a, UNSET) == a && Merge(UNSET, a) == a
    ensures SetsAll(b) ==> Merge(a, b) == b
    ensures Merge(a, b.(auto := None)).auto == a.auto && Merge(a, b.(observe := None)).observe == a.observe
  {
  }

  /** How a sync unit is named in the unit map and in the collision checks. */
  function Key(app: string, project: string): string { app + "/" + project }

  ghost predicate EnvironmentsKnown(root: Root) {
    forall a | a in root.apps :: a.env in root.environments
  }

  /** Projects listed for app `i`; none if its environment is unknown. */
  function ProjectsOf(root: Root, i: nat): seq<string>
    requires i < |root.apps|
  {
    var env := root.apps[i].env;
    if env in root.environments then root.environments[env].projects else []
  }

  /** Where a sync unit is declared: an index into `apps` and one into that app's project list. */
  datatype Position = Position(app: nat, project: nat)

  predicate Before(p: Position, q: Position) {
    p.app < q.app || (p.app == q.app && p.project < q.project)
  }

  ghost predicate Declared(root: Root, p: Position)
  {
    && p.app < |root.apps|
    && p.project < |ProjectsOf(root, p.app)|
    && ProjectsOf(root, p.app)[p.project] !in root.apps[p.app].exclude
  }

  function KeyAt(root: Root, p: Position): string
    requires Declared(root, p)
  {
    Key(root.apps[p.app].name, ProjectsOf(root, p.app)[p.project])
  }

  /** Declared positions of app `i` among its first `m` projects. */
  ghost function AppPositions(root: Root, i: nat, m: nat): (ps: seq<Position>)
    requires i < |root.apps| && m <= |ProjectsOf(root, i)|
    ensures forall p | p in ps :: Declared(root, p)
  {
    if m == 0 then [] else
      AppPositions(root, i, m - 1) + if ProjectsOf(root, i)[m - 1] in root.apps[i].exclude then [] else [Position(i, m - 1)]
  }

  /** Declared positions of the first `n` apps. */
  ghost function Positions(root: Root, n: nat): (ps: seq<Position>)
    requires n <= |root.apps|
    ensures forall p | p in ps :: Declared(root, p)
  {
    if n == 0 then [] else Positions(root, n - 1) + AppPositions(root, n - 1, |ProjectsOf(root, n - 1)|)
  }

  ghost function AllPositions(root: Root): seq<Position>
  {
    Positions(root, |root.apps|)
  }

  ghost predicate Increasing(ps: seq<Position>) {
    forall i, j | 0 <= i < j < |ps| :: Before(ps[i], ps[j])
  }

  lemma {:induction false} AppPositionsExact(root: Root, i: nat, m: nat)
    requires i < |root.apps| && m <= |ProjectsOf(root, i)|
    ensures Increasing(AppPositions(root, i, m))
    ensures forall p :: p in AppPositions(root, i, m) <==> p.app == i && p.project < m && Declared(root, p)
  {
    if m > 0 {
      AppPositionsExact(root, i, m - 1);
    }
  }

  lemma IncreasingConcat(ps: seq<Position>, qs: seq<Position>, n: nat)
    requires Increasing(ps) && Increasing(qs)
    requires (forall p | p in ps :: p.app < n) && (forall q | q in qs :: q.app == n)
    ensures Increasing(ps + qs)
  {
  }

  lemma {:induction false} PositionsExact(root: Root, n: nat)
    requires n <= |root.apps|
    ensures Increasing(Positions(root, n))
    ensures forall p :: p in Positions(root, n) <==> p.app < n && Declared(root, p)
  {
    if n > 0 {
      PositionsExact(root, n - 1);
      AppPositionsExact(root, n - 1, |ProjectsOf(root, n - 1)|);
      IncreasingConcat(Positions(root, n - 1), AppPositions(root, n - 1, |ProjectsOf(root, n - 1)|), n - 1);
    }
  }

  /** A list in configuration order is determined by what it contains. */
  lemma {:induction false} IncreasingIsUnique(ps: seq<Position>, qs: seq<Position>)
    requires Increasing(ps) && Increasing(qs)
    requires forall p :: p in ps <==> p in qs
    ensures ps == qs
    decreases |ps|
  {
    assert forall k | 0 <= k < |ps| :: ps[k] in qs;
    assert forall k | 0 <= k < |qs| :: qs[k] in ps;
    if ps != [] && qs != [] {
      assert ps[0] == qs[0];
      TailContents(ps);
      TailContents(qs);
      IncreasingIsUnique(ps[1..], qs[1..]);
      assert ps == [ps[0]] + ps[1..] && qs == [qs[0]] + qs[1..];
    }
  }

  lemma TailContents(ps: seq<Position>)
    requires Increasing(ps) && ps != []
    ensures Increasing(ps[1..])
    ensures forall p :: p in ps[1..] <==> p in ps && p != ps[0]
  {
    assert ps == [ps[0]] + ps[1..];
    assert forall k | 0 <= k < |ps[1..]| :: ps[1..][k] == ps[k + 1];
  }

  ghost predicate Collide(root: Root, p: Position, q: Position)
  {
    Declared(root, p) && Declared(root, q) && Before(p, q) && KeyAt(root, p) == KeyAt(root, q)
  }

  ghost predicate CollisionFree(root: Root)
  {
    forall p, q :: !Collide(root, p, q)
  }

  /** The keys used by a list of declared positions. */
  ghost function KeysOf(root: Root, ps: seq<Position>): set<string>
    requires forall p | p in ps :: Declared(root, p)
  {
    set p | p in ps :: KeyAt(root, p)
  }

  /** What remains of the collision check while `ps`, a prefix of the declared positions, is done. */
  ghost predicate SeenExactly(root: Root, ps: seq<Position>, seen: set<string>)
    requires forall p | p in ps :: Declared(root, p)
  {
    && seen == KeysOf(root, ps)
    && forall p, q | p in ps && q in ps :: !Collide(root, p, q)
  }

  /** Positions declared before project `m` of app `i`. */
  ghost function PositionsUpTo(root: Root, i: nat, m: nat): (ps: seq<Position>)
    requires i < |root.apps| && m <= |ProjectsOf(root, i)|
    ensures forall p | p in ps :: Declared(root, p)
  {
    Positions(root, i) + AppPositions(root, i, m)
  }

  lemma SeenOneMore(root: Root, i: nat, m: nat, seen: set<string>)
    requires i < |root.apps| && m < |ProjectsOf(root, i)|
    requires SeenExactly(root, PositionsUpTo(root, i, m), seen)
    requires Declared(root, Position(i, m)) ==> KeyAt(root, Position(i, m)) !in seen
    ensures PositionsUpTo(root, i, m + 1) == PositionsUpTo(root, i, m) + if Declared(root, Position(i, m)) then [Position(i, m)] else []
    ensures SeenExactly(root, PositionsUpTo(root, i, m + 1), if Declared(root, Position(i, m)) then seen + {KeyAt(root, Position(i, m))} else seen)
  {
    var ps, p := PositionsUpTo(root, i, m), Position(i, m);
    forall q | q in ps ensures KeyAt(root, q) in seen {}
  }

  /** A repeated key is a collision between the position reached and an earlier one. */
  lemma RepeatedKeyCollides(root: Root, i: nat, m: nat, seen: set<string>)
    requires i < |root.apps| && m < |ProjectsOf(root, i)|
    requires SeenExactly(root, PositionsUpTo(root, i, m), seen)
    requires Declared(root, Position(i, m)) && KeyAt(root, Position(i, m)) in seen
    ensures exists p :: Collide(root, p, Position(i, m))
  {
    var ps := PositionsUpTo(root, i, m);
    var p :| p in ps && KeyAt(root, p) == KeyAt(root, Position(i, m));
    PositionsExact(root, i);
    AppPositionsExact(root, i, m);
    assert Collide(root, p, Position(i, m));
  }

  const MANAGED_FIELDS := {"image", "traffic", "env"}

  function WindowsOf(sync: SyncPolicy): seq<SyncWindow.Window> {
    if sync.windows.None? then [] else sync.windows.value
  }

  /** Neither of the two settings that nothing consumes is set. */
  ghost predicate Implemented(sync: SyncPolicy) { sync.retry.None? && sync.selfHeal.None? }

  ghost predicate EnvironmentValid(env: Environment) {
    && Distinct(env.projects) && Distinct(env.folders)
    && (forall w | w in WindowsOf(env.sync) :: SyncWindow.Valid(w))
    && Implemented(env.sync)
  }

  ghost predicate OneSelector(o: Override) { o.track == "" || o.version == "" }

  ghost predicate Manageable(field: string) { field == "image" || field == "traffic" || field == "env" }

  const PRECONDITION_TYPES := {"pubsubTopic", "pubsubSubscription"}

  /** An ignored precondition is written "type:name". */
  predicate IgnoreValid(entry: string) {
    var parts := Cut(entry, ':');
    parts.Some? && parts.value.1 != "" && parts.value.0 in PRECONDITION_TYPES
  }

  /** The kinds of precondition that a pass knows how to check. */
  ghost predicate Checkable(kind: string) { kind == "pubsubTopic" || kind == "pubsubSubscription" }

  /** It is accepted exactly if it names a precondition that could be checked. */
  lemma IgnoreValidIffNamesPrecondition(entry: string)
    ensures IgnoreValid(entry) <==> exists kind, name :: Checkable(kind) && name != "" && entry == kind + ":" + name
  {
    if kind, name :| Checkable(kind) && name != "" && entry == kind + ":" + name {
      CutOf(kind, ':', name);
    }
    if IgnoreValid(entry) {
      var (kind, name) := Cut(entry, ':').value;
      assert Checkable(kind) && entry == kind + ":" + name;
    }
  }

  ghost predicate AppValid(app: App) {
    && (forall p | p in app.overrides :: OneSelector(app.overrides[p]))
    && (forall f | f in app.ignoreFields :: Manageable(f))
    && (forall p | p in app.ignorePreconditions :: IgnoreValid(p))
  }

  ghost predicate DefaultsValid(d: Defaults) {
    && (forall f | f in d.managedFields :: Manageable(f))
    && (forall w | w in WindowsOf(d.sync) :: SyncWindow.Valid(w))
    && Implemented(d.sync)
  }

  ghost predicate WellFormed(root: Root) {
    && EnvironmentsKnown(root)
    && CollisionFree(root)
    && (forall e | e in root.environments :: EnvironmentValid(root.environments[e]))
    && (forall a | a in root.apps :: AppValid(a))
    && DefaultsValid(root.defaults)
  }

  datatype ParseError =
    | UnknownEnvironment(app: App)
    | DeclaredTwice(app: App, project: string)
    | EnvironmentInvalid(env: string)
    | AppInvalid(app: App)
    | DefaultsInvalid
    | NotifyInvalid
    | SubscriptionInvalid(env: string)

  /** The error names something that is really wrong with the configuration. */
  ghost predicate Justified(root: Root, urlOk: string -> bool, e: ParseError) {
    match e
    case UnknownEnvironment(app) => app in root.apps && app.env !in root.environments
    case DeclaredTwice(app, project) => CollidesAt(root, app, project)
    case EnvironmentInvalid(env) => env in root.environments && !EnvironmentValid(root.environments[env])
    case AppInvalid(app) => app in root.apps && !AppValid(app)
    case DefaultsInvalid => !DefaultsValid(root.defaults)
    case NotifyInvalid => !Rules.NotifyValid(root.notify, urlOk)
    case SubscriptionInvalid(env) => env in root.environments && !Rules.OverrideValid(root.environments[env].notify, root.notify)
  }

  /** The notify section is usable, and every environment's choice of sink and rules is unambiguous. */
  ghost predicate NotifyWellFormed(root: Root, urlOk: string -> bool) {
    && Rules.NotifyValid(root.notify, urlOk)
    && forall e | e in root.environments :: Rules.OverrideValid(root.environments[e].notify, root.notify)
  }

  ghost predicate CollidesAt(root: Root, app: App, project: string) {
    exists p, q :: Collide(root, p, q) && root.apps[q.app] == app && ProjectsOf(root, q.app)[q.project] == project
  }

  ghost predicate Checked(root: Root, i: nat, m: nat, seen: set<string>) {
    i < |root.apps| && m <= |ProjectsOf(root, i)| && SeenExactly(root, PositionsUpTo(root, i, m), seen)
  }

  lemma CheckOneMore(root: Root, i: nat, m: nat, seen: set<string>)
    requires Checked(root, i, m, seen) && m < |ProjectsOf(root, i)|
    requires Declared(root, Position(i, m)) ==> KeyAt(root, Position(i, m)) !in seen
    ensures Checked(root, i, m + 1, if Declared(root, Position(i, m)) then seen + {KeyAt(root, Position(i, m))} else seen)
  {
    SeenOneMore(root, i, m, seen);
  }

  method CheckApp(root: Root, i: nat, seen0: set<string>) returns (err: Option<ParseError>, seen: set<string>)
    requires i < |root.apps| && root.apps[i].env in root.environments
    requires Checked(root, i, 0, seen0)
    ensures err.None? ==> Checked(root, i, |ProjectsOf(root, i)|, seen)
    ensures err.Some? ==> err.value.DeclaredTwice? && CollidesAt(root, err.value.app, err.value.project)
  {
    var app := root.apps[i];
    var projects := root.environments[app.env].projects;
    err, seen := None, seen0;
    for m := 0 to |projects|
      invariant Checked(root, i, m, seen)
    {
      if projects[m] !in app.exclude {
        var key := Key(app.name, projects[m]);
        if key in seen {
          RepeatedKeyCollides(root, i, m, seen);
          return Some(DeclaredTwice(app, projects[m])), seen;
        }
        CheckOneMore(root, i, m, seen);
        seen := seen + {key};
      } else {
        CheckOneMore(root, i, m, seen);
      }
    }
  }

  method CheckCollisions(root: Root) returns (err: Option<ParseError>)
    requires EnvironmentsKnown(root)
    ensures err.None? <==> CollisionFree(root)
    ensures err.Some? ==> err.value.DeclaredTwice? && CollidesAt(root, err.value.app, err.value.project)
  {
    var seenAppProject: set<string> := {};
    for i := 0 to |root.apps|
      invariant SeenExactly(root, Positions(root, i), seenAppProject)
    {
      assert PositionsUpTo(root, i, 0) == Positions(root, i);
      assert root.apps[i] in root.apps;
      err, seenAppProject := CheckApp(root, i, seenAppProject);
      if err.Some? { return; }
      assert PositionsUpTo(root, i, |ProjectsOf(root, i)|) == Positions(root, i + 1);
    }
    PositionsExact(root, |root.apps|);
    err := None;
  }

  method HasDuplicate(items: seq<string>) returns (found: bool)
    ensures found <==> !Distinct(items)
  {
    var seen: set<string> := {};
    for i := 0 to |items|
      invariant seen == set x | x in items[..i]
      invariant Distinct(items[..i])
    {
      if items[i] in seen {
        assert items[i] in items[..i];
        return true;
      }
      assert items[..i + 1] == items[..i] + [items[i]];
      seen := seen + {items[i]};
    }
    assert items[..|items|] == items;
    found := false;
  }

  method WindowsValid(sync: SyncPolicy) returns (ok: bool)
    ensures ok <==> forall w | w in WindowsOf(sync) :: SyncWindow.Valid(w)
  {
    var windows := WindowsOf(sync);
    for i := 0 to |windows|
      invariant forall w | w in windows[..i] :: SyncWindow.Valid(w)
    {
      ok := SyncWindow.Validate(windows[i]);
      if !ok {
        assert windows[i] in windows;
        return;
      }
      assert windows[..i + 1] == windows[..i] + [windows[i]];
    }
    assert windows[..|windows|] == windows;
    ok := true;
  }

  method CheckEnvironments(root: Root) returns (err: Option<ParseError>)
    ensures err.None? <==> forall e | e in root.environments :: EnvironmentValid(root.environments[e])
    ensures err.Some? ==> err.value.EnvironmentInvalid? && err.value.env in root.environments && !EnvironmentValid(root.environments[err.value.env])
  {
    var todo := root.environments.Keys;
    while todo != {}
      invariant todo <= root.environments.Keys
      invariant forall e | e in root.environments.Keys - todo :: EnvironmentValid(root.environments[e])
    {
      var name :| name in todo;
      var env := root.environments[name];
      var twice := HasDuplicate(env.projects);
      var folderTwice := HasDuplicate(env.folders);
      var windows := WindowsValid(env.sync);
      if twice || folderTwice || !windows || env.sync.retry.Some? || env.sync.selfHeal.Some? {
        return Some(EnvironmentInvalid(name));
      }
      todo := todo - {name};
    }
    err := None;
  }

  method AppIsValid(app: App) returns (ok: bool)
    ensures ok <==> AppValid(app)
  {
    var todo := app.overrides.Keys;
    while todo != {}
      invariant todo <= app.overrides.Keys
      invariant forall p | p in app.overrides.Keys - todo :: OneSelector(app.overrides[p])
    {
      var project :| project in todo;
      if app.overrides[project].track != "" && app.overrides[project].version != "" { return false; }
      todo := todo - {project};
    }
    ok := AllManaged(app.ignoreFields);
    if !ok { return; }
    for i := 0 to |app.ignorePreconditions|
      invariant forall p | p in app.ignorePreconditions[..i] :: IgnoreValid(p)
    {
      if !IgnoreValid(app.ignorePreconditions[i]) { return false; }
      assert app.ignorePreconditions[..i + 1] == app.ignorePreconditions[..i] + [app.ignorePreconditions[i]];
    }
    assert app.ignorePreconditions[..|app.ignorePreconditions|] == app.ignorePreconditions;
  }

  method AllManaged(fields: seq<string>) returns (ok: bool)
    ensures ok <==> forall f | f in fields :: Manageable(f)
  {
    for i := 0 to |fields|
      invariant forall f | f in fields[..i] :: Manageable(f)
    {
      if fields[i] !in MANAGED_FIELDS {
        assert fields[i] in fields;
        return false;
      }
      assert fields[..i + 1] == fields[..i] + [fields[i]];
    }
    assert fields[..|fields|] == fields;
    ok := true;
  }

  /** Accepts exactly the well-formed configurations; every error it reports is justified. */
  method Parse(root: Root, urlOk: string -> bool) returns (err: Option<ParseError>)
    ensures err.None? <==> WellFormed(root) && NotifyWellFormed(root, urlOk)
    ensures err.Some? ==> Justified(root, urlOk, err.value)
  {
    for i := 0 to |root.apps|
      invariant forall a | a in root.apps[..i] :: a.env in root.environments
    {
      if root.apps[i].env !in root.environments { return Some(UnknownEnvironment(root.apps[i])); }
      assert root.apps[..i + 1] == root.apps[..i] + [root.apps[i]];
    }
    assert root.apps[..|root.apps|] == root.apps;
    err := CheckCollisions(root);
    if err.Some? { return; }
    err := CheckEnvironments(root);
    if err.Some? { return; }
    var fields := AllManaged(root.defaults.managedFields);
    var windows := WindowsValid(root.defaults.sync);
    if !fields || !windows || root.defaults.sync.retry.Some? || root.defaults.sync.selfHeal.Some? { return Some(DefaultsInvalid); }
    for i := 0 to |root.apps|
      invariant forall a | a in root.apps[..i] :: AppValid(a)
    {
      var ok := AppIsValid(root.apps[i]);
      if !ok { return Some(AppInvalid(root.apps[i])); }
      assert root.apps[..i + 1] == root.apps[..i] + [root.apps[i]];
    }
    assert root.apps[..|root.apps|] == root.apps;
    err := CheckNotifySection(root, urlOk);
  }

  method CheckNotifySection(root: Root, urlOk: string -> bool) returns (err: Option<ParseError>)
    ensures err.None? <==> NotifyWellFormed(root, urlOk)
    ensures err.Some? ==> Justified(root, urlOk, err.value)
  {
    var ok := Rules.CheckNotify(root.notify, urlOk);
    if !ok { return Some(NotifyInvalid); }
    var ids := Rules.CountIDs(root.notify.rules);
    var todo := root.environments.Keys;
    while todo != {}
      invariant todo <= root.environments.Keys
      invariant forall e | e in root.environments.Keys - todo :: Rules.OverrideValid(root.environments[e].notify, root.notify)
    {
      var name :| name in todo;
      ok := Rules.CheckOverride(root.environments[name].notify, root.notify, ids);
      if !ok { return Some(SubscriptionInvalid(name)); }
      todo := todo - {name};
    }
    err := None;
  }
}
