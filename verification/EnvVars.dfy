/**
 The container environment: the manifest's plain and secret maps on one side, the one sorted list that
 Cloud Run stores on the other. Go's nil maps are `None`.
 */
module EnvVars {
  import opened Wrappers

  datatype SecretRef = SecretRef(secret: string, version: string)

  datatype EnvVar = Plain(name: string, value: string) | FromSecret(name: string, ref: SecretRef)

  type Vars = map<string, string>
  type Secrets = map<string, SecretRef>

  // ---------------------------------------------------------------- string order

  /** Lexicographic order on strings. */
  predicate LessEq(a: string, b: string) {
    a == "" || (b != "" && (a[0] < b[0] || (a[0] == b[0] && LessEq(a[1..], b[1..]))))
  }

  lemma {:induction false} LessEqTotal(a: string, b: string)
    ensures LessEq(a, b) || LessEq(b, a)
    ensures LessEq(a, b) && LessEq(b, a) ==> a == b
  {
    if a != "" && b != "" {
      LessEqTotal(a[1..], b[1..]);
      assert a == [a[0]] + a[1..] && b == [b[0]] + b[1..];
    }
  }

  lemma {:induction false} LessEqTransitive(a: string, b: string, c: string)
    requires LessEq(a, b) && LessEq(b, c)
    ensures LessEq(a, c)
  {
    if a != "" && a[0] == b[0] && b[0] == c[0] {
      LessEqTransitive(a[1..], b[1..], c[1..]);
    }
  }

  // ---------------------------------------------------------------- listings

  ghost predicate Sorted(env: seq<EnvVar>) {
    forall i, j | 0 <= i < j < |env| :: LessEq(env[i].name, env[j].name)
  }

  ghost predicate NoDuplicates(env: seq<EnvVar>) {
    forall i, j | 0 <= i < j < |env| :: env[i] != env[j]
  }

  ghost predicate Entry(vars: Vars, secrets: Secrets, e: EnvVar) {
    match e
    case Plain(name, value) => name in vars && vars[name] == value
    case FromSecret(name, ref) => name in secrets && secrets[name] == ref
  }

  /** `env` lists every entry of the two maps once, sorted by name. */
  ghost predicate Lists(env: seq<EnvVar>, vars: Vars, secrets: Secrets) {
    Sorted(env) && NoDuplicates(env) && forall e :: e in env <==> Entry(vars, secrets, e)
  }

  /** Sorting by name, by insertion. */
  method SortByName(env: seq<EnvVar>) returns (sorted: seq<EnvVar>)
    ensures Sorted(sorted) && multiset(sorted) == multiset(env)
  {
    sorted := [];
    for n := 0 to |env|
      invariant Sorted(sorted) && multiset(sorted) == multiset(env[..n])
    {
      assert env[..n + 1] == env[..n] + [env[n]];
      sorted := Insert(sorted, env[n]);
    }
    assert env[..|env|] == env;
  }

  method Insert(env: seq<EnvVar>, e: EnvVar) returns (out: seq<EnvVar>)
    requires Sorted(env)
    ensures Sorted(out) && multiset(out) == multiset(env) + multiset{e}
  {
    var k := 0;
    while k < |env| && LessEq(env[k].name, e.name)
      invariant 0 <= k <= |env|
      invariant forall i | 0 <= i < k :: LessEq(env[i].name, e.name)
    {
      k := k + 1;
    }
    out := env[..k] + [e] + env[k..];
    assert env == env[..k] + env[k..];
    forall j | k <= j < |env| ensures LessEq(e.name, env[j].name) {
      LessEqTotal(e.name, env[k].name);
      if k < j {
        LessEqTransitive(e.name, env[k].name, env[j].name);
      }
    }
  }

  lemma PermutationFacts(a: seq<EnvVar>, b: seq<EnvVar>)
    requires multiset(a) == multiset(b) && NoDuplicates(b)
    ensures NoDuplicates(a) && forall e :: e in a <==> e in b
  {
    forall e ensures e in a <==> e in b {
      assert e in multiset(a) <==> e in multiset(b);
    }
    forall i, j | 0 <= i < j < |a| ensures a[i] != a[j] {
      if a[i] == a[j] {
        OccursTwice(a, i, j);
        OccursOnce(b, a[i]);
      }
    }
  }

  lemma OccursTwice(a: seq<EnvVar>, i: int, j: int)
    requires 0 <= i < j < |a| && a[i] == a[j]
    ensures multiset(a)[a[i]] >= 2
  {
    assert a == a[..i] + [a[i]] + a[i + 1..j] + [a[j]] + a[j + 1..];
  }

  lemma {:induction false} OccursOnce(b: seq<EnvVar>, e: EnvVar)
    requires NoDuplicates(b)
    ensures multiset(b)[e] <= 1
  {
    if b != [] {
      var init := b[..|b| - 1];
      assert b == init + [b[|b| - 1]];
      OccursOnce(init, e);
      if b[|b| - 1] == e {
        assert e !in init;
      }
    }
  }

  /** buildEnvVars: map iteration order is arbitrary, the result is not. */
  method BuildEnvVars(vars: Vars, secrets: Secrets) returns (out: seq<EnvVar>)
    ensures Lists(out, vars, secrets)
  {
    out := [];
    var names := vars.Keys;
    while names != {}
      invariant names <= vars.Keys && NoDuplicates(out)
      invariant forall e :: e in out <==> e.Plain? && Entry(vars, secrets, e) && e.name !in names
      decreases |names|
    {
      var name :| name in names;
      names := names - {name};
      out := out + [Plain(name, vars[name])];
    }
    names := secrets.Keys;
    while names != {}
      invariant names <= secrets.Keys && NoDuplicates(out)
      invariant forall e :: e in out <==> Entry(vars, secrets, e) && (e.FromSecret? ==> e.name !in names)
      decreases |names|
    {
      var name :| name in names;
      names := names - {name};
      out := out + [FromSecret(name, secrets[name])];
    }
    var unsorted := out;
    out := SortByName(unsorted);
    PermutationFacts(out, unsorted);
  }

  /** With one namespace for both maps the listing is unique: nothing depends on iteration order. */
  lemma {:induction false} ListingIsUnique(a: seq<EnvVar>, b: seq<EnvVar>, vars: Vars, secrets: Secrets)
    requires Lists(a, vars, secrets) && Lists(b, vars, secrets) && vars.Keys !! secrets.Keys
    ensures a == b
  {
    if a == [] {
      if b != [] {
        HeadIsEntry(b, vars, secrets);
      }
    } else {
      assert a[0] in b && b[0] in a;
      var i :| 0 <= i < |b| && b[i] == a[0];
      var j :| 0 <= j < |a| && a[j] == b[0];
      LessEqTotal(a[0].name, b[0].name);
      assert LessEq(b[0].name, b[i].name) || i == 0;
      assert LessEq(a[0].name, a[j].name) || j == 0;
      assert a[0].name == b[0].name;
      assert a[0] in a && b[0] in b;
      assert a[0] == b[0];
      var vars' := if a[0].Plain? then vars - {a[0].name} else vars;
      var secrets' := if a[0].Plain? then secrets else secrets - {a[0].name};
      TailLists(a, vars, secrets);
      TailLists(b, vars, secrets);
      ListingIsUnique(a[1..], b[1..], vars', secrets');
      assert a == [a[0]] + a[1..] && b == [b[0]] + b[1..];
    }
  }

  lemma HeadIsEntry(a: seq<EnvVar>, vars: Vars, secrets: Secrets)
    requires Lists(a, vars, secrets) && a != []
    ensures Entry(vars, secrets, a[0])
  {
    assert a[0] in a;
  }

  lemma TailLists(a: seq<EnvVar>, vars: Vars, secrets: Secrets)
    requires Lists(a, vars, secrets) && a != []
    ensures Lists(a[1..], if a[0].Plain? then vars - {a[0].name} else vars, if a[0].Plain? then secrets else secrets - {a[0].name})
  {
    var vars' := if a[0].Plain? then vars - {a[0].name} else vars;
    var secrets' := if a[0].Plain? then secrets else secrets - {a[0].name};
    assert a == [a[0]] + a[1..];
    forall e ensures e in a[1..] <==> Entry(vars', secrets', e) {
      assert a[0] in a;
      assert e in a <==> e == a[0] || e in a[1..];
      assert a[0] !in a[1..];
    }
  }

  // ---------------------------------------------------------------- reading back

  /** The plain part of a list; a later entry of the same name wins. */
  function VarsOf(env: seq<EnvVar>): Vars {
    if env == [] then map[]
    else
      var e := env[|env| - 1];
      var m := VarsOf(env[..|env| - 1]);
      if e.Plain? then m[e.name := e.value] else m
  }

  function SecretsOf(env: seq<EnvVar>): Secrets {
    if env == [] then map[]
    else
      var e := env[|env| - 1];
      var m := SecretsOf(env[..|env| - 1]);
      if e.FromSecret? then m[e.name := e.ref] else m
  }

  function NilIfEmpty<V>(m: map<string, V>): Option<map<string, V>> {
    if m == map[] then None else Some(m)
  }

  /** What a possibly nil map contains. */
  function Elems<V>(m: Option<map<string, V>>): map<string, V> {
    match m
    case None => map[]
    case Some(x) => x
  }

  lemma ElemsOfNilIfEmpty<V>(m: map<string, V>)
    ensures Elems(NilIfEmpty(m)) == m
  {
  }

  /** envStateFromContainers on the first container's list: nil, not empty, where there is nothing. */
  method EnvState(env: seq<EnvVar>) returns (vars: Option<Vars>, secrets: Option<Secrets>)
    ensures vars == NilIfEmpty(VarsOf(env)) && secrets == NilIfEmpty(SecretsOf(env))
  {
    vars, secrets := None, None;
    for n := 0 to |env|
      invariant vars == NilIfEmpty(VarsOf(env[..n])) && secrets == NilIfEmpty(SecretsOf(env[..n]))
    {
      assert env[..n + 1][..n] == env[..n];
      match env[n] {
        case FromSecret(name, ref) =>
          if secrets.None? {
            secrets := Some(map[]);
          }
          secrets := Some(secrets.value[name := ref]);
          assert name in secrets.value;
        case Plain(name, value) =>
          if vars.None? {
            vars := Some(map[]);
          }
          vars := Some(vars.value[name := value]);
          assert name in vars.value;
      }
    }
    assert env[..|env|] == env;
  }

  /** `Plain(name, value)` is the last plain entry of that name. */
  ghost predicate LastPlain(env: seq<EnvVar>, name: string, value: string) {
    exists i :: 0 <= i < |env| && env[i] == Plain(name, value) && forall j | i < j < |env| && env[j].Plain? :: env[j].name != name
  }

  ghost predicate LastSecret(env: seq<EnvVar>, name: string, ref: SecretRef) {
    exists i :: 0 <= i < |env| && env[i] == FromSecret(name, ref) && forall j | i < j < |env| && env[j].FromSecret? :: env[j].name != name
  }

  ghost predicate Maps<V>(m: map<string, V>, name: string, v: V) { name in m && m[name] == v }

  /** The two maps hold the last entry of every name, and are nil instead of empty. */
  ghost predicate ListsLast(env: seq<EnvVar>, vars: Option<Vars>, secrets: Option<Secrets>) {
    && vars != Some(map[]) && secrets != Some(map[])
    && (forall name, value :: LastPlain(env, name, value) <==> Maps(Elems(vars), name, value))
    && (forall name, ref :: LastSecret(env, name, ref) <==> Maps(Elems(secrets), name, ref))
  }

  lemma LastPlainOneMore(init: seq<EnvVar>, e: EnvVar, name: string, value: string)
    ensures LastPlain(init + [e], name, value) <==> if e.Plain? && e.name == name then e.value == value else LastPlain(init, name, value)
  {
    var env := init + [e];
    if e.Plain? && e.name == name && e.value == value { assert env[|init|] == Plain(name, value); }
    if i :| 0 <= i < |env| && env[i] == Plain(name, value) && forall j | i < j < |env| && env[j].Plain? :: env[j].name != name {
      assert i < |init| ==> env[|init|] == e && init[i] == Plain(name, value) && forall j | i < j < |init| :: init[j] == env[j];
    }
    if i :| 0 <= i < |init| && init[i] == Plain(name, value) && forall j | i < j < |init| && init[j].Plain? :: init[j].name != name {
      assert env[i] == Plain(name, value) && forall j | i < j < |init| :: init[j] == env[j];
    }
  }

  lemma LastSecretOneMore(init: seq<EnvVar>, e: EnvVar, name: string, ref: SecretRef)
    ensures LastSecret(init + [e], name, ref) <==> if e.FromSecret? && e.name == name then e.ref == ref else LastSecret(init, name, ref)
  {
    var env := init + [e];
    if e.FromSecret? && e.name == name && e.ref == ref { assert env[|init|] == FromSecret(name, ref); }
    if i :| 0 <= i < |env| && env[i] == FromSecret(name, ref) && forall j | i < j < |env| && env[j].FromSecret? :: env[j].name != name {
      assert i < |init| ==> env[|init|] == e && init[i] == FromSecret(name, ref) && forall j | i < j < |init| :: init[j] == env[j];
    }
    if i :| 0 <= i < |init| && init[i] == FromSecret(name, ref) && forall j | i < j < |init| && init[j].FromSecret? :: init[j].name != name {
      assert env[i] == FromSecret(name, ref) && forall j | i < j < |init| :: init[j] == env[j];
    }
  }

  lemma {:induction false} VarsAreLast(env: seq<EnvVar>, name: string, value: string)
    ensures LastPlain(env, name, value) <==> Maps(VarsOf(env), name, value)
  {
    if env != [] {
      var init, e := env[..|env| - 1], env[|env| - 1];
      assert env == init + [e];
      VarsAreLast(init, name, value);
      LastPlainOneMore(init, e, name, value);
    }
  }

  lemma {:induction false} SecretsAreLast(env: seq<EnvVar>, name: string, ref: SecretRef)
    ensures LastSecret(env, name, ref) <==> Maps(SecretsOf(env), name, ref)
  {
    if env != [] {
      var init, e := env[..|env| - 1], env[|env| - 1];
      assert env == init + [e];
      SecretsAreLast(init, name, ref);
      LastSecretOneMore(init, e, name, ref);
    }
  }

  lemma SameContents<V>(a: map<string, V>, b: map<string, V>)
    requires forall name, v :: Maps(a, name, v) <==> Maps(b, name, v)
    ensures a == b
  {
    assert forall name | name in a :: Maps(a, name, a[name]);
    assert forall name | name in b :: Maps(b, name, b[name]);
  }

  /** Reading a list yields exactly the maps of its last entries. */
  lemma LastEntriesAreRead(env: seq<EnvVar>, vars: Option<Vars>, secrets: Option<Secrets>)
    ensures ListsLast(env, vars, secrets) <==> vars == NilIfEmpty(VarsOf(env)) && secrets == NilIfEmpty(SecretsOf(env))
  {
    forall name, value ensures LastPlain(env, name, value) <==> Maps(VarsOf(env), name, value) { VarsAreLast(env, name, value); }
    forall name, ref ensures LastSecret(env, name, ref) <==> Maps(SecretsOf(env), name, ref) { SecretsAreLast(env, name, ref); }
    if ListsLast(env, vars, secrets) {
      SameContents(Elems(vars), VarsOf(env));
      SameContents(Elems(secrets), SecretsOf(env));
    }
  }

  ghost predicate NamesOnce(env: seq<EnvVar>) {
    forall i, j | 0 <= i < j < |env| && env[i].name == env[j].name :: env[i].Plain? != env[j].Plain?
  }

  lemma {:induction false} LookupInList(env: seq<EnvVar>)
    requires NamesOnce(env)
    ensures forall n, v :: (n in VarsOf(env) && VarsOf(env)[n] == v) <==> Plain(n, v) in env
    ensures forall n, r :: (n in SecretsOf(env) && SecretsOf(env)[n] == r) <==> FromSecret(n, r) in env
  {
    if env != [] {
      var init, e := env[..|env| - 1], env[|env| - 1];
      LookupInList(init);
      assert env == init + [e];
      assert forall x :: x in env <==> x in init || x == e;
    }
  }

  /** Reading back what was built recovers both maps, whatever they are. */
  lemma BuiltEnvReadsBack(env: seq<EnvVar>, vars: Vars, secrets: Secrets)
    requires Lists(env, vars, secrets)
    ensures VarsOf(env) == vars && SecretsOf(env) == secrets
  {
    forall i, j | 0 <= i < j < |env| && env[i].name == env[j].name ensures env[i].Plain? != env[j].Plain? {
      assert env[i] in env && env[j] in env && env[i] != env[j];
    }
    LookupInList(env);
    forall n ensures n in VarsOf(env) <==> n in vars {
      if n in vars { assert Plain(n, vars[n]) in env; }
      if n in VarsOf(env) { assert Plain(n, VarsOf(env)[n]) in env; }
    }
    forall n | n in vars ensures VarsOf(env)[n] == vars[n] {
      assert Plain(n, vars[n]) in env;
    }
    forall n ensures n in SecretsOf(env) <==> n in secrets {
      if n in secrets { assert FromSecret(n, secrets[n]) in env; }
      if n in SecretsOf(env) { assert FromSecret(n, SecretsOf(env)[n]) in env; }
    }
    forall n | n in secrets ensures SecretsOf(env)[n] == secrets[n] {
      assert FromSecret(n, secrets[n]) in env;
    }
  }
}
