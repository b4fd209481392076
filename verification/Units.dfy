/** The unit map that is replaced on every reconcile pass. */
module Units {
  import opened Wrappers
  import opened Sequences
  import opened Config
  import opened Expander
  import ImageRef

  /** The map that loading `us` builds; a later unit replaces an earlier one with its key. */
  function Load(us: seq<SyncUnit>): map<string, SyncUnit> {
    if us == [] then map[] else
      var last := us[|us| - 1];
      Load(us[..|us| - 1])[KeyOf(last) := last]
  }

  function Lookup(units: map<string, SyncUnit>, key: string): Option<SyncUnit> {
    if key in units then Some(units[key]) else None
  }

  /** `out` holds the map's values, in the order of some enumeration of its keys. */
  ghost predicate Enumerates(out: seq<SyncUnit>, units: map<string, SyncUnit>) {
    exists keys: seq<string> :: EnumeratesBy(out, keys, units)
  }

  ghost predicate EnumeratesBy(out: seq<SyncUnit>, keys: seq<string>, units: map<string, SyncUnit>) {
    && Distinct(keys) && |keys| == |out|
    && (forall k :: k in keys <==> k in units)
    && (forall i | 0 <= i < |keys| :: keys[i] in units && out[i] == units[keys[i]])
  }

  /** `r` is the listed unit of that application and project, if there is one. */
  ghost predicate Answers(us: seq<SyncUnit>, app: string, project: string, r: Option<SyncUnit>) {
    forall u :: r == Some(u) <==> u in us && u.app == app && u.project == project
  }

  ghost predicate SlashFree(us: seq<SyncUnit>) { forall u | u in us :: '/' !in u.project }

  class DynamicUnits {
    var units: map<string, SyncUnit>
    ghost var loaded: seq<SyncUnit>

    ghost predicate Valid()
      reads this
    {
      units == Load(loaded)
    }

    constructor ()
      ensures Valid() && loaded == []
    {
      units, loaded := map[], [];
    }

    method Set(us: seq<SyncUnit>)
      modifies this
      ensures Valid() && loaded == us
    {
      var m: map<string, SyncUnit> := map[];
      for i := 0 to |us|
        invariant m == Load(us[..i])
      {
        assert us[..i + 1][..i] == us[..i];
        m := m[KeyOf(us[i]) := us[i]];
      }
      assert us[..|us|] == us;
      units, loaded := m, us;
    }

    /** Finds the unit asked for whenever keys are distinct and no project holds a slash; otherwise at least one with its key. */
    method Find(app: string, project: string) returns (r: Option<SyncUnit>)
      requires Valid()
      ensures KeysDistinct(loaded) && SlashFree(loaded) && '/' !in project ==> Answers(loaded, app, project, r)
      ensures r.Some? ==> r.value in loaded && KeyOf(r.value) == Key(app, project)
      ensures r.None? ==> forall u | u in loaded :: KeyOf(u) != Key(app, project)
    {
      LoadContents(loaded);
      r := if Key(app, project) in units then Some(units[Key(app, project)]) else None;
      if KeysDistinct(loaded) && SlashFree(loaded) && '/' !in project {
        LookupAnswers(loaded, app, project);
      }
    }

    /** Lists the units in any order. */
    method List() returns (out: seq<SyncUnit>)
      requires Valid()
      ensures Enumerates(out, Load(loaded))
    {
      out := [];
      ghost var keys: seq<string> := [];
      var todo := units.Keys;
      while todo != {}
        invariant todo <= units.Keys
        invariant EnumeratesBy(out, keys, map k | k in units && k !in todo :: units[k])
        decreases |todo|
      {
        var key :| key in todo;
        out := out + [units[key]];
        keys := keys + [key];
        todo := todo - {key};
      }
      assert (map k | k in units && k !in todo :: units[k]) == units;
    }
  }

  lemma {:induction false} LoadContents(us: seq<SyncUnit>)
    ensures forall k :: k in Load(us) <==> exists i :: 0 <= i < |us| && KeyOf(us[i]) == k
    ensures forall k | k in Load(us) :: Load(us)[k] in us && KeyOf(Load(us)[k]) == k
  {
    if us != [] {
      var n := |us| - 1;
      LoadContents(us[..n]);
      forall k ensures k in Load(us) <==> exists i :: 0 <= i < |us| && KeyOf(us[i]) == k {
        if k in Load(us[..n]) {
          var i :| 0 <= i < n && KeyOf(us[..n][i]) == k;
          assert KeyOf(us[i]) == k;
        }
        if i :| 0 <= i < n && KeyOf(us[i]) == k {
          assert KeyOf(us[..n][i]) == k;
        }
      }
    }
  }

  /** A lookup finds the last listed unit with its key. */
  lemma {:induction false} LastUnitIsFound(us: seq<SyncUnit>, key: string)
    ensures match Lookup(Load(us), key)
      case None => forall u | u in us :: KeyOf(u) != key
      case Some(u) => exists i :: 0 <= i < |us| && us[i] == u && KeyOf(us[i]) == key && forall j | i < j < |us| :: KeyOf(us[j]) != key
  {
    if us != [] {
      var n := |us| - 1;
      LastUnitIsFound(us[..n], key);
      assert us == us[..n] + [us[n]];
      if KeyOf(us[n]) != key && Lookup(Load(us[..n]), key).Some? {
        var i :| 0 <= i < n && us[..n][i] == Lookup(Load(us), key).value && KeyOf(us[..n][i]) == key && forall j | i < j < n :: KeyOf(us[..n][j]) != key;
        assert us[i] == us[..n][i] && forall j | i < j < n :: us[j] == us[..n][j];
      }
    }
  }

  /** Every unit of a list with distinct keys is found under its own key. */
  lemma LoadedUnitIsFound(us: seq<SyncUnit>, i: nat)
    requires KeysDistinct(us) && i < |us|
    ensures Lookup(Load(us), KeyOf(us[i])) == Some(us[i])
  {
    LoadContents(us);
    var found := Load(us)[KeyOf(us[i])];
    var j :| 0 <= j < |us| && us[j] == found;
    assert i < j || j < i || i == j;
  }

  /** Where the last slash of a key cuts it, when the project holds none. */
  lemma KeyCut(app: string, project: string)
    requires '/' !in project
    ensures ImageRef.LastIndex(Key(app, project), '/') == |app|
    ensures Key(app, project)[..|app|] == app && Key(app, project)[|app| + 1..] == project
  {
    ImageRef.LastIndexOfJoin(app, '/', project);
    assert Key(app, project) == app + ['/'] + project;
  }

  lemma KeyTellsUnitsApart(app: string, project: string, app2: string, project2: string)
    requires '/' !in project && '/' !in project2
    ensures Key(app, project) == Key(app2, project2) <==> app == app2 && project == project2
  {
    KeyCut(app, project);
    KeyCut(app2, project2);
  }

  lemma LookupAnswers(us: seq<SyncUnit>, app: string, project: string)
    requires KeysDistinct(us) && SlashFree(us) && '/' !in project
    ensures Answers(us, app, project, Lookup(Load(us), Key(app, project)))
  {
    LoadContents(us);
    var r := Lookup(Load(us), Key(app, project));
    forall u ensures r == Some(u) <==> u in us && u.app == app && u.project == project {
      if u in us {
        var i :| 0 <= i < |us| && us[i] == u;
        LoadedUnitIsFound(us, i);
        KeyTellsUnitsApart(app, project, u.app, u.project);
      } else if r == Some(u) {
        assert false;
      }
    }
  }

  /** A project with a slash is found under another name: the part before its last slash passes for the application's. */
  lemma SlashIsMisfound(us: seq<SyncUnit>, u: SyncUnit) returns (app: string, project: string)
    requires KeysDistinct(us) && u in us && '/' in u.project
    ensures '/' !in project && project != u.project && Lookup(Load(us), Key(app, project)) == Some(u)
  {
    var at := ImageRef.LastIndex(u.project, '/');
    app, project := u.app + "/" + u.project[..at], u.project[at + 1..];
    assert u.project == u.project[..at] + "/" + project;
    assert Key(app, project) == KeyOf(u);
    assert |project| < |u.project|;
    var i :| 0 <= i < |us| && us[i] == u;
    LoadedUnitIsFound(us, i);
  }

  /** Queries for projects without a slash are answered exactly if and only if no listed project holds one. */
  lemma FindIsExactIff(us: seq<SyncUnit>)
    requires KeysDistinct(us)
    ensures (forall app: string, project: string | '/' !in project :: Answers(us, app, project, Lookup(Load(us), Key(app, project))))
      <==> SlashFree(us)
  {
    if SlashFree(us) {
      forall app: string, project: string | '/' !in project ensures Answers(us, app, project, Lookup(Load(us), Key(app, project))) {
        LookupAnswers(us, app, project);
      }
    } else {
      var u :| u in us && '/' in u.project;
      var app, project := SlashIsMisfound(us, u);
      assert !Answers(us, app, project, Lookup(Load(us), Key(app, project)));
    }
  }

  /** For one: the unit of "a" in "b/c" is what a query for "a/b" in "c" finds. */
  lemma SlashExample(u: SyncUnit)
    requires u.app == "a" && u.project == "b/c"
    ensures Lookup(Load([u]), Key("a/b", "c")) == Some(u)
  {
    assert [u][..0] == [];
    assert Key("a/b", "c") == KeyOf(u);
  }

  function Remove<T>(s: seq<T>, j: nat): (r: seq<T>)
    requires j < |s|
    ensures |r| == |s| - 1
    ensures forall i | 0 <= i < |r| :: r[i] == if i < j then s[i] else s[i + 1]
  {
    s[..j] + s[j + 1..]
  }

  lemma RemoveMultiset<T>(s: seq<T>, j: nat)
    requires j < |s|
    ensures multiset(s) == multiset(Remove(s, j)) + multiset{s[j]}
  {
    assert s == s[..j] + ([s[j]] + s[j + 1..]);
  }

  lemma RemoveContents<T>(s: seq<T>, j: nat)
    requires j < |s| && Distinct(s)
    ensures Distinct(Remove(s, j))
    ensures forall x :: x in Remove(s, j) <==> x in s && x != s[j]
  {
    var r := Remove(s, j);
    forall x | x in s && x != s[j] ensures x in r {
      var i :| 0 <= i < |s| && s[i] == x;
      assert r[if i < j then i else i - 1] == x;
    }
    forall i | 0 <= i < |r| ensures r[i] != s[j] && r[i] in s {}
  }

  lemma RemoveFromEnumeration(out: seq<SyncUnit>, keys: seq<string>, units: map<string, SyncUnit>, j: nat, fewer: map<string, SyncUnit>)
    requires EnumeratesBy(out, keys, units) && j < |keys|
    requires keys[j] !in fewer && units == fewer[keys[j] := out[j]]
    ensures EnumeratesBy(Remove(out, j), Remove(keys, j), fewer)
  {
    RemoveContents(keys, j);
    var rest := Remove(keys, j);
    forall i | 0 <= i < |rest| ensures rest[i] in fewer && Remove(out, j)[i] == fewer[rest[i]] {
      assert rest[i] in rest;
    }
  }

  lemma PeelLast(us: seq<SyncUnit>, out: seq<SyncUnit>, keys: seq<string>) returns (j: nat)
    requires KeysDistinct(us) && us != [] && EnumeratesBy(out, keys, Load(us))
    ensures j < |out| == |keys| && out[j] == us[|us| - 1]
    ensures EnumeratesBy(Remove(out, j), Remove(keys, j), Load(us[..|us| - 1]))
  {
    var key := KeyOf(us[|us| - 1]);
    assert key in keys;
    j :| 0 <= j < |keys| && keys[j] == key;
    LastIsNew(us);
    RemoveFromEnumeration(out, keys, Load(us), j, Load(us[..|us| - 1]));
  }

  lemma HasElement<T>(s: seq<T>)
    ensures s == [] || exists x :: x in s
  {
    if s != [] {
      assert s[0] in s;
    }
  }

  lemma PutBack<T>(out: seq<T>, us: seq<T>, j: nat)
    requires us != [] && j < |out| && out[j] == us[|us| - 1] && multiset(Remove(out, j)) == multiset(us[..|us| - 1])
    ensures multiset(out) == multiset(us)
  {
    RemoveMultiset(out, j);
    assert us == us[..|us| - 1] + [us[|us| - 1]];
  }

  lemma {:induction false} EnumerationIsPermutation(us: seq<SyncUnit>, out: seq<SyncUnit>, keys: seq<string>)
    requires KeysDistinct(us) && EnumeratesBy(out, keys, Load(us))
    ensures multiset(out) == multiset(us)
    decreases |us|
  {
    if us == [] {
      HasElement(keys);
    } else {
      var j := PeelLast(us, out, keys);
      EnumerationIsPermutation(us[..|us| - 1], Remove(out, j), Remove(keys, j));
      PutBack(out, us, j);
    }
  }

  /** Loading loses nothing: with distinct keys, any listing is a permutation of what was loaded. */
  lemma ListingIsPermutation(us: seq<SyncUnit>, out: seq<SyncUnit>)
    requires KeysDistinct(us) && Enumerates(out, Load(us))
    ensures multiset(out) == multiset(us)
  {
    var keys: seq<string> :| EnumeratesBy(out, keys, Load(us));
    EnumerationIsPermutation(us, out, keys);
  }

  lemma LastIsNew(us: seq<SyncUnit>)
    requires KeysDistinct(us) && us != []
    ensures KeyOf(us[|us| - 1]) !in Load(us[..|us| - 1])
  {
    LoadContents(us[..|us| - 1]);
  }

  /** With a repeated key, the earlier unit is not found: distinct keys are exactly what `Find` needs. */
  lemma FoundIffKeysDistinct(us: seq<SyncUnit>)
    requires Distinct(us)
    ensures KeysDistinct(us) <==> forall i | 0 <= i < |us| :: Lookup(Load(us), KeyOf(us[i])) == Some(us[i])
  {
    if KeysDistinct(us) {
      forall i | 0 <= i < |us| ensures Lookup(Load(us), KeyOf(us[i])) == Some(us[i]) {
        LoadedUnitIsFound(us, i);
      }
    }
  }

  /** The whole pipeline: every expanded unit is found under its key, and the listing holds exactly them. */
  lemma ExpandedUnitsSurvive(root: Root, out: seq<SyncUnit>)
    requires Expandable(root) && Enumerates(out, Load(Expansion(root)))
    ensures multiset(out) == multiset(Expansion(root))
    ensures forall p | Declared(root, p) :: Lookup(Load(Expansion(root)), KeyAt(root, p)) == Some(UnitAt(root, p))
  {
    ExpandedKeysAreDistinct(root);
    ListingIsPermutation(Expansion(root), out);
    PositionsExact(root, |root.apps|);
    forall p | Declared(root, p)
      ensures Lookup(Load(Expansion(root)), KeyAt(root, p)) == Some(UnitAt(root, p))
    {
      var i :| 0 <= i < |AllPositions(root)| && AllPositions(root)[i] == p;
      LoadedUnitIsFound(Expansion(root), i);
    }
  }
}
