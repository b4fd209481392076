/** Who may sync which unit: rules of subject, role and scopes. */
module Rbac {
  import opened Wrappers
  import opened Strings
  import opened Sequences
  import Config
  import opened Expander

  datatype Rule = Rule(subject: string, role: string, scope: seq<string>)

  datatype Policy = Policy(roles: seq<Rule>)

  /** Folder IDs with the projects resolved for them. */
  type Membership = map<string, seq<string>>

  predicate ScopeMatches(scope: string, unit: SyncUnit, membership: Membership) {
    if scope == "*" then true
    else
      var folder := CutPrefix(scope, "folder:");
      var env := CutPrefix(scope, "env:");
      var app := CutPrefix(scope, "app:");
      if folder.Some? then folder.value in membership && unit.project in membership[folder.value]
      else if env.Some? then env.value == unit.env
      else if app.Some? then
        var parts := Cut(app.value, '@');
        parts.Some? && parts.value == (unit.app, unit.project)
      else false
  }

  /** A missing policy grants nothing. */
  predicate CanSyncFolders(policy: Option<Policy>, membership: Membership, subject: string, unit: SyncUnit) {
    policy.Some? &&
    exists rule | rule in policy.value.roles ::
      rule.subject == subject && exists scope | scope in rule.scope :: ScopeMatches(scope, unit, membership)
  }

  predicate IsRecognizedScope(scope: string) {
    if scope == "*" then true
    else
      var folder := CutPrefix(scope, "folder:");
      var env := CutPrefix(scope, "env:");
      var app := CutPrefix(scope, "app:");
      if folder.Some? then folder.value != ""
      else if env.Some? then env.value != ""
      else if app.Some? then
        var parts := Cut(app.value, '@');
        parts.Some? && parts.value.0 != "" && parts.value.1 != ""
      else false
  }

  predicate HasAnyGrant(policy: Option<Policy>, subject: string) {
    policy.Some? &&
    exists rule | rule in policy.value.roles ::
      rule.subject == subject && exists scope | scope in rule.scope :: IsRecognizedScope(scope)
  }

  /** Units have names; folders have IDs. */
  predicate Named(unit: SyncUnit) { unit.app != "" && unit.project != "" && unit.env != "" }

  const SOMEWHERE := SyncUnit("app", "project", "env", "", Config.UNSET, Config.Source("", "", ""), [], [], "", "")

  /** A scope is recognized exactly when some named unit and some folder membership make it match. */
  lemma RecognizedIffSatisfiable(scope: string)
    ensures IsRecognizedScope(scope) <==>
      exists unit: SyncUnit, membership: Membership :: Named(unit) && "" !in membership && ScopeMatches(scope, unit, membership)
  {
    if IsRecognizedScope(scope) {
      var _, _ := Witness(scope);
    }
  }

  lemma Witness(scope: string) returns (unit: SyncUnit, membership: Membership)
    requires IsRecognizedScope(scope)
    ensures Named(unit) && "" !in membership && ScopeMatches(scope, unit, membership)
  {
    unit, membership := SOMEWHERE, map[];
    var folder := CutPrefix(scope, "folder:");
    var env := CutPrefix(scope, "env:");
    var app := CutPrefix(scope, "app:");
    if scope == "*" {
    } else if folder.Some? {
      membership := map[folder.value := [unit.project]];
    } else if env.Some? {
      unit := unit.(env := env.value);
    } else {
      var (name, project) := Cut(app.value, '@').value;
      unit := unit.(app := name, project := project);
    }
  }

  /** A subject has a grant exactly when there is something it could sync. */
  lemma HasAnyGrantIffCanSync(policy: Option<Policy>, subject: string)
    ensures HasAnyGrant(policy, subject) <==>
      exists unit: SyncUnit, membership: Membership :: Named(unit) && "" !in membership && CanSyncFolders(policy, membership, subject, unit)
  {
    if HasAnyGrant(policy, subject) {
      var rule :| rule in policy.value.roles && rule.subject == subject && exists scope | scope in rule.scope :: IsRecognizedScope(scope);
      var scope :| scope in rule.scope && IsRecognizedScope(scope);
      var unit, membership := Witness(scope);
      assert CanSyncFolders(policy, membership, subject, unit);
    }
    if unit: SyncUnit, membership: Membership :| Named(unit) && "" !in membership && CanSyncFolders(policy, membership, subject, unit) {
      var rule :| rule in policy.value.roles && rule.subject == subject && exists scope | scope in rule.scope :: ScopeMatches(scope, unit, membership);
      var scope :| scope in rule.scope && ScopeMatches(scope, unit, membership);
      RecognizedIffSatisfiable(scope);
    }
  }

  /** Without the condition on folder IDs the two disagree: an empty folder scope could match, yet is no grant. */
  lemma EmptyFolderIsNoGrant() returns (policy: Option<Policy>, membership: Membership)
    ensures Named(SOMEWHERE) && CanSyncFolders(policy, membership, "s", SOMEWHERE) && !HasAnyGrant(policy, "s")
  {
    var rule := Rule("s", "syncer", ["folder:"]);
    policy, membership := Some(Policy([rule])), map["" := ["project"]];
    CutPrefixOf("folder:", "");
    assert "folder:" + "" == "folder:";
    assert ScopeMatches("folder:", SOMEWHERE, membership);
    assert "folder:" in rule.scope && rule in policy.value.roles;
  }

  /** What each form of scope admits. */
  lemma EnvScope(unit: SyncUnit, membership: Membership, name: string)
    ensures ScopeMatches("env:" + name, unit, membership) <==> unit.env == name
  {
    CutPrefixOf("env:", name);
    assert ("env:" + name)[0] == 'e';
  }

  lemma FolderScope(unit: SyncUnit, membership: Membership, id: string)
    ensures ScopeMatches("folder:" + id, unit, membership) <==> id in membership && unit.project in membership[id]
  {
    CutPrefixOf("folder:", id);
    assert ("folder:" + id)[0] == 'f';
  }

  /** The project may hold further separators; the application name may not. */
  lemma AppScope(unit: SyncUnit, membership: Membership, name: string, project: string)
    requires '@' !in name
    ensures ScopeMatches("app:" + (name + "@" + project), unit, membership) <==> unit.app == name && unit.project == project
  {
    var scope := "app:" + (name + "@" + project);
    CutPrefixOf("app:", name + "@" + project);
    assert scope[0] == 'a';
    assert scope != "*" && !("folder:" <= scope) && !("env:" <= scope);
    CutOf(name, '@', project);
  }

  /** An application whose name holds the separator cannot be granted by an application scope. */
  lemma SeparatorInNameIsUngrantable(scope: string, unit: SyncUnit, membership: Membership)
    requires CutPrefix(scope, "app:").Some? && '@' in unit.app
    ensures !ScopeMatches(scope, unit, membership)
  {
    assert scope[0] == 'a';
  }

  /** The four forms of scope, spelled out. */
  ghost predicate Admits(scope: string, unit: SyncUnit, membership: Membership) {
    || scope == "*"
    || scope == "env:" + unit.env
    || (scope == "app:" + (unit.app + "@" + unit.project) && '@' !in unit.app)
    || exists id | id in membership :: scope == "folder:" + id && unit.project in membership[id]
  }

  lemma ScopeAdmits(scope: string, unit: SyncUnit, membership: Membership)
    ensures ScopeMatches(scope, unit, membership) <==> Admits(scope, unit, membership)
  {
    if scope != "*" {
      if id :| id in membership && scope == "folder:" + id { FolderScope(unit, membership, id); }
      if scope == "env:" + unit.env { EnvScope(unit, membership, unit.env); }
      if scope == "app:" + (unit.app + "@" + unit.project) && '@' !in unit.app { AppScope(unit, membership, unit.app, unit.project); }
      if ScopeMatches(scope, unit, membership) { MatchIsSpelled(scope, unit, membership); }
    }
  }

  lemma MatchIsSpelled(scope: string, unit: SyncUnit, membership: Membership)
    requires scope != "*" && ScopeMatches(scope, unit, membership)
    ensures Admits(scope, unit, membership)
  {
    var app := CutPrefix(scope, "app:");
    if app.Some? && CutPrefix(scope, "folder:").None? && CutPrefix(scope, "env:").None? {
      assert app.value == unit.app + "@" + unit.project;
    }
  }

  /** A subject may sync a unit exactly if one of the subject's own rules has a scope that admits it. */
  lemma SyncNeedsOwnRule(policy: Option<Policy>, membership: Membership, subject: string, unit: SyncUnit)
    ensures CanSyncFolders(policy, membership, subject, unit) <==>
      policy.Some? && exists i, j | 0 <= i < |policy.value.roles| && 0 <= j < |policy.value.roles[i].scope| ::
        policy.value.roles[i].subject == subject && Admits(policy.value.roles[i].scope[j], unit, membership)
  {
    if policy.Some? {
      var roles := policy.value.roles;
      forall scope ensures ScopeMatches(scope, unit, membership) <==> Admits(scope, unit, membership) {
        ScopeAdmits(scope, unit, membership);
      }
      if CanSyncFolders(policy, membership, subject, unit) {
        var rule :| rule in roles && rule.subject == subject && exists scope | scope in rule.scope :: ScopeMatches(scope, unit, membership);
        var scope :| scope in rule.scope && ScopeMatches(scope, unit, membership);
        var i :| 0 <= i < |roles| && roles[i] == rule;
        var j :| 0 <= j < |rule.scope| && rule.scope[j] == scope;
      }
    }
  }

  // ---------------------------------------------------------------- folder scopes

  function FolderOf(scope: string): seq<string> {
    var id := CutPrefix(scope, "folder:");
    if id.Some? then [id.value] else []
  }

  function FoldersInScopes(scopes: seq<string>): seq<string> {
    if scopes == [] then [] else FoldersInScopes(scopes[..|scopes| - 1]) + FolderOf(scopes[|scopes| - 1])
  }

  function FoldersInRules(rules: seq<Rule>): seq<string> {
    if rules == [] then [] else FoldersInRules(rules[..|rules| - 1]) + FoldersInScopes(rules[|rules| - 1].scope)
  }

  function FoldersIn(policy: Option<Policy>): seq<string> {
    if policy.None? then [] else FoldersInRules(policy.value.roles)
  }

  method AddFolders(ids0: seq<string>, seen0: set<string>, scopes: seq<string>) returns (ids: seq<string>, seen: set<string>)
    requires seen0 == set id | id in ids0
    ensures seen == set id | id in ids
    ensures ids == AddNew(ids0, FoldersInScopes(scopes))
  {
    ids, seen := ids0, seen0;
    for j := 0 to |scopes|
      invariant ids == AddNew(ids0, FoldersInScopes(scopes[..j]))
      invariant seen == set id | id in ids
    {
      assert scopes[..j + 1][..j] == scopes[..j];
      AddNewConcat(ids0, FoldersInScopes(scopes[..j]), FolderOf(scopes[j]));
      var id := CutPrefix(scopes[j], "folder:");
      if id.Some? && id.value !in seen {
        seen := seen + {id.value};
        ids := ids + [id.value];
      }
    }
    assert scopes[..|scopes|] == scopes;
  }

  lemma FoldersOneMore(rules: seq<Rule>, i: nat)
    requires i < |rules|
    ensures Dedup(FoldersInRules(rules[..i + 1])) == AddNew(Dedup(FoldersInRules(rules[..i])), FoldersInScopes(rules[i].scope))
  {
    assert rules[..i + 1][..i] == rules[..i];
    AddNewConcat([], FoldersInRules(rules[..i]), FoldersInScopes(rules[i].scope));
  }

  method FolderScopes(policy: Option<Policy>) returns (ids: seq<string>)
    ensures ids == Dedup(FoldersIn(policy))
  {
    ids := [];
    if policy.None? { return; }
    var rules := policy.value.roles;
    var seen: set<string> := {};
    for i := 0 to |rules|
      invariant ids == Dedup(FoldersInRules(rules[..i]))
      invariant seen == set id | id in ids
    {
      FoldersOneMore(rules, i);
      ids, seen := AddFolders(ids, seen, rules[i].scope);
    }
    assert rules[..|rules|] == rules;
  }

  lemma {:induction false} FolderInScopes(scopes: seq<string>, id: string)
    ensures id in FoldersInScopes(scopes) <==> exists scope | scope in scopes :: CutPrefix(scope, "folder:") == Some(id)
  {
    if scopes != [] {
      FolderInScopes(scopes[..|scopes| - 1], id);
      assert scopes == scopes[..|scopes| - 1] + [scopes[|scopes| - 1]];
    }
  }

  lemma {:induction false} FolderInRules(rules: seq<Rule>, id: string)
    ensures id in FoldersInRules(rules) <==>
      exists rule | rule in rules :: id in FoldersInScopes(rule.scope)
  {
    if rules != [] {
      FolderInRules(rules[..|rules| - 1], id);
      assert rules == rules[..|rules| - 1] + [rules[|rules| - 1]];
    }
  }

  /** The folders collected are exactly those that some rule's scope names. */
  lemma FoldersAreNamed(policy: Option<Policy>, id: string)
    ensures id in Dedup(FoldersIn(policy)) <==> policy.Some? && exists rule | rule in policy.value.roles :: "folder:" + id in rule.scope
  {
    AddNewContents([], FoldersIn(policy));
    CutPrefixOf("folder:", id);
    if policy.Some? {
      FolderInRules(policy.value.roles, id);
      forall rule | rule in policy.value.roles ensures id in FoldersInScopes(rule.scope) <==> "folder:" + id in rule.scope {
        FolderInScopes(rule.scope, id);
      }
    }
  }

  /** The collected folders are all that a decision can depend on; a folder without an entry matches nothing. */
  lemma FolderScopesSuffice(policy: Option<Policy>, m: Membership, n: Membership, subject: string, unit: SyncUnit)
    requires forall id | id in Dedup(FoldersIn(policy)) :: (id in m <==> id in n) && (id in m ==> m[id] == n[id])
    ensures CanSyncFolders(policy, m, subject, unit) <==> CanSyncFolders(policy, n, subject, unit)
  {
    if policy.Some? {
      AddNewContents([], FoldersIn(policy));
      forall rule, scope | rule in policy.value.roles && scope in rule.scope
        ensures ScopeMatches(scope, unit, m) <==> ScopeMatches(scope, unit, n)
      {
        var id := CutPrefix(scope, "folder:");
        if id.Some? {
          FolderInScopes(rule.scope, id.value);
          FolderInRules(policy.value.roles, id.value);
        }
      }
    }
  }
}
