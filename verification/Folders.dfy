/** Merging the projects of GCP folders into the configuration. */
module Folders {
  import opened Wrappers
  import opened Sequences
  import opened Config

  /** What one query for a folder's projects returned; `None` is a failed query. */
  type Answer = Option<seq<string>>

  /** The answers to one pass of queries: for each environment, one per listed folder. */
  type Answers = map<string, seq<Answer>>

  ghost predicate Covers(root: Root, answers: Answers) {
    forall e | e in root.environments :: e in answers && |answers[e]| == |root.environments[e].folders|
  }

  /** The projects of the folders that could be resolved, in listed order. */
  function Resolved(answers: seq<Answer>): seq<string> {
    if answers == [] then [] else
      Resolved(answers[..|answers| - 1]) + if answers[|answers| - 1].Some? then answers[|answers| - 1].value else []
  }

  function WithFolders(env: Environment, answers: seq<Answer>): Environment {
    if env.folders == [] then env else env.(projects := Dedup(env.projects + Resolved(answers)))
  }

  function MergeFolders(root: Root, answers: Answers): Root
    requires Covers(root, answers)
  {
    root.(environments := map e | e in root.environments :: WithFolders(root.environments[e], answers[e]))
  }

  /** One query: folder number `index` of environment `env`. */
  datatype Job = Job(env: string, index: nat)

  function Upto(n: nat): (s: seq<nat>)
    ensures |s| == n && forall i | 0 <= i < n :: s[i] == i
  {
    seq(n, i => i)
  }

  function Indexes(n: nat): (s: set<nat>)
    ensures forall i: nat :: i in s <==> i < n
  {
    if n == 0 then {} else Indexes(n - 1) + {n - 1}
  }

  /** Runs `n` queries that finish in any order, each filling its own slot. */
  method ResolveAll(n: nat, call: nat -> Answer) returns (results: seq<Answer>)
    ensures |results| == n && forall i | 0 <= i < n :: results[i] == call(i)
  {
    var slots := new Answer[n](_ => None);
    var pending := Indexes(n);
    while pending != {}
      invariant pending <= Indexes(n)
      invariant forall i | 0 <= i < n && i !in pending :: slots[i] == call(i)
      decreases |pending|
    {
      var i :| i in pending;
      slots[i] := call(i);
      pending := pending - {i};
    }
    results := slots[..];
  }

  /** Folder numbers queried for environment `name`, in the order of the jobs. */
  ghost function IndexesFor(jobs: seq<Job>, name: string): seq<nat> {
    if jobs == [] then [] else
      var last := jobs[|jobs| - 1];
      IndexesFor(jobs[..|jobs| - 1], name) + if last.env == name then [last.index] else []
  }

  lemma IndexesForOneMore(jobs: seq<Job>, job: Job)
    ensures forall name :: IndexesFor(jobs + [job], name) == IndexesFor(jobs, name) + if job.env == name then [job.index] else []
  {
    assert (jobs + [job])[..|jobs|] == jobs;
  }

  ghost predicate JobsOf(root: Root, jobs: seq<Job>, done: set<string>) {
    && done <= root.environments.Keys
    && (forall j | j in jobs :: j.env in done && j.index < |root.environments[j.env].folders|)
    && (forall e | e in done :: IndexesFor(jobs, e) == Upto(|root.environments[e].folders|))
    && (forall e | e !in done :: IndexesFor(jobs, e) == [])
  }

  lemma JobsOneMore(root: Root, before: seq<Job>, jobs: seq<Job>, done: set<string>, name: string)
    requires JobsOf(root, before, done) && name in root.environments && name !in done
    requires forall j | j in jobs :: j in before || (j.env == name && j.index < |root.environments[name].folders|)
    requires forall e | e != name :: IndexesFor(jobs, e) == IndexesFor(before, e)
    requires IndexesFor(jobs, name) == Upto(|root.environments[name].folders|)
    ensures JobsOf(root, jobs, done + {name})
  {
  }

  method AddJobs(before: seq<Job>, name: string, n: nat) returns (jobs: seq<Job>)
    requires IndexesFor(before, name) == []
    ensures forall j | j in jobs :: j in before || (j.env == name && j.index < n)
    ensures forall e | e != name :: IndexesFor(jobs, e) == IndexesFor(before, e)
    ensures IndexesFor(jobs, name) == Upto(n)
  {
    jobs := before;
    for i := 0 to n
      invariant forall j | j in jobs :: j in before || (j.env == name && j.index < n)
      invariant forall e | e != name :: IndexesFor(jobs, e) == IndexesFor(before, e)
      invariant IndexesFor(jobs, name) == Upto(i)
    {
      IndexesForOneMore(jobs, Job(name, i));
      jobs := jobs + [Job(name, i)];
    }
  }

  method BuildJobs(root: Root) returns (jobs: seq<Job>)
    ensures JobsOf(root, jobs, root.environments.Keys)
  {
    jobs := [];
    var todo := root.environments.Keys;
    ghost var done := {};
    while todo != {}
      invariant todo <= root.environments.Keys
      invariant done == root.environments.Keys - todo
      invariant JobsOf(root, jobs, done)
      decreases |todo|
    {
      var name :| name in todo;
      ghost var before := jobs;
      jobs := AddJobs(jobs, name, |root.environments[name].folders|);
      JobsOneMore(root, before, jobs, done, name);
      todo := todo - {name};
      done := done + {name};
    }
    assert done == root.environments.Keys;
  }

  /** The queries of environment `name` that failed. */
  ghost predicate Failed(root: Root, answers: Answers, job: Job)
    requires Covers(root, answers)
  {
    job.env in root.environments && job.index < |answers[job.env]| && answers[job.env][job.index].None?
  }

  /** `errs` lists the failed queries of environment `name`, each once. */
  ghost predicate FailuresOf(name: string, answers: seq<Answer>, errs: seq<Job>) {
    Distinct(errs) && forall j :: j in errs <==> j.env == name && j.index < |answers| && answers[j.index].None?
  }

  ghost predicate FailuresSoFar(root: Root, answers: Answers, todo: set<string>, errs: seq<Job>)
    requires Covers(root, answers)
  {
    Distinct(errs) && forall j :: j in errs <==> j.env !in todo && Failed(root, answers, j)
  }

  lemma FailuresOneMore(root: Root, answers: Answers, todo: set<string>, errs: seq<Job>, name: string, failed: seq<Job>)
    requires Covers(root, answers) && name in todo && name in root.environments
    requires FailuresSoFar(root, answers, todo, errs) && FailuresOf(name, answers[name], failed)
    ensures FailuresSoFar(root, answers, todo - {name}, errs + failed)
  {
    assert forall j | j in errs :: j.env != name;
    assert forall j | j in failed :: j.env == name;
  }

  /** Merges what the queries returned into one environment, and lists those that failed. */
  method MergeEnvironment(name: string, env: Environment, answers: seq<Answer>) returns (merged: Environment, errs: seq<Job>)
    requires |answers| == |env.folders|
    ensures merged == WithFolders(env, answers)
    ensures FailuresOf(name, answers, errs)
  {
    errs := [];
    if env.folders == [] { return env, errs; }
    var seen: set<string> := {};
    var projects: seq<string> := [];
    seen, projects := Append(seen, projects, env.projects);
    assert answers[..0] == [] && env.projects + [] == env.projects;
    for i := 0 to |answers|
      invariant seen == set p | p in projects
      invariant projects == Dedup(env.projects + Resolved(answers[..i]))
      invariant forall j :: j in errs <==> j.env == name && j.index < i && answers[j.index].None?
      invariant Distinct(errs)
    {
      ghost var before := answers[..i];
      assert answers[..i + 1][..i] == before;
      if answers[i].None? {
        errs := errs + [Job(name, i)];
        assert Resolved(answers[..i + 1]) == Resolved(before);
      } else {
        assert env.projects + Resolved(answers[..i + 1]) == env.projects + Resolved(before) + answers[i].value;
        AddNewConcat([], env.projects + Resolved(before), answers[i].value);
        seen, projects := Append(seen, projects, answers[i].value);
      }
    }
    assert answers[..|answers|] == answers;
    merged := env.(projects := projects);
  }

  /** The `seen` loop. */
  method Append(seen0: set<string>, projects0: seq<string>, more: seq<string>) returns (seen: set<string>, projects: seq<string>)
    requires seen0 == set p | p in projects0
    ensures seen == set p | p in projects
    ensures projects == AddNew(projects0, more)
  {
    seen, projects := seen0, projects0;
    for i := 0 to |more|
      invariant seen == set p | p in projects
      invariant AddNew(projects, more[i..]) == AddNew(projects0, more)
    {
      assert more[i..][1..] == more[i + 1..];
      if more[i] !in seen {
        seen := seen + {more[i]};
        projects := projects + [more[i]];
      }
    }
  }

  /** Results regrouped by environment, each in the order in which its folders are listed. */
  method GroupByEnvironment(root: Root, answers: Answers, jobs: seq<Job>, results: seq<Answer>) returns (byEnv: map<string, seq<Answer>>)
    requires Covers(root, answers) && JobsOf(root, jobs, root.environments.Keys)
    requires |results| == |jobs| && forall i | 0 <= i < |jobs| :: results[i] == Query(answers, jobs[i])
    ensures forall e | e in root.environments :: Group(byEnv, e) == answers[e]
  {
    byEnv := map[];
    for i := 0 to |jobs|
      invariant Grouped(root, answers, jobs[..i], byEnv)
    {
      GroupedNext(root, answers, jobs, i, byEnv);
      byEnv := byEnv[jobs[i].env := Group(byEnv, jobs[i].env) + [results[i]]];
    }
    assert jobs[..|jobs|] == jobs;
    GroupedAtEnd(root, answers, jobs, byEnv);
  }

  lemma GroupedAtEnd(root: Root, answers: Answers, jobs: seq<Job>, byEnv: map<string, seq<Answer>>)
    requires Covers(root, answers) && JobsOf(root, jobs, root.environments.Keys) && Grouped(root, answers, jobs, byEnv)
    ensures forall e | e in root.environments :: Group(byEnv, e) == answers[e]
  {
    forall e | e in root.environments
      ensures Group(byEnv, e) == answers[e]
    {
      assert Gathered(answers[e], Upto(|answers[e]|), Group(byEnv, e));
    }
  }

  function Group(byEnv: map<string, seq<Answer>>, e: string): seq<Answer> { if e in byEnv then byEnv[e] else [] }

  ghost predicate Grouped(root: Root, answers: Answers, jobs: seq<Job>, byEnv: map<string, seq<Answer>>)
    requires Covers(root, answers)
  {
    forall e | e in root.environments :: Gathered(answers[e], IndexesFor(jobs, e), Group(byEnv, e))
  }

  lemma GroupedOneMore(root: Root, answers: Answers, jobs: seq<Job>, job: Job, byEnv: map<string, seq<Answer>>)
    requires Covers(root, answers) && Grouped(root, answers, jobs, byEnv)
    requires job.env in root.environments && job.index < |answers[job.env]|
    ensures Grouped(root, answers, jobs + [job], byEnv[job.env := Group(byEnv, job.env) + [answers[job.env][job.index]]])
  {
    var after := byEnv[job.env := Group(byEnv, job.env) + [answers[job.env][job.index]]];
    IndexesForOneMore(jobs, job);
    forall e | e in root.environments
      ensures Gathered(answers[e], IndexesFor(jobs + [job], e), Group(after, e))
    {
      assert Gathered(answers[e], IndexesFor(jobs, e), Group(byEnv, e));
      GatheredOneMore(answers[e], IndexesFor(jobs, e), Group(byEnv, e), job.index);
    }
  }

  lemma GatheredOneMore(all: seq<Answer>, indexes: seq<nat>, got: seq<Answer>, index: nat)
    requires Gathered(all, indexes, got)
    ensures index < |all| ==> Gathered(all, indexes + [index], got + [all[index]])
  {
  }

  lemma GroupedNext(root: Root, answers: Answers, jobs: seq<Job>, i: nat, byEnv: map<string, seq<Answer>>)
    requires Covers(root, answers) && JobsOf(root, jobs, root.environments.Keys) && i < |jobs| && Grouped(root, answers, jobs[..i], byEnv)
    ensures Grouped(root, answers, jobs[..i + 1], byEnv[jobs[i].env := Group(byEnv, jobs[i].env) + [Query(answers, jobs[i])]])
  {
    assert jobs[i] in jobs;
    assert jobs[..i + 1] == jobs[..i] + [jobs[i]];
    GroupedOneMore(root, answers, jobs[..i], jobs[i], byEnv);
  }

  function Query(answers: Answers, job: Job): Answer {
    if job.env in answers && job.index < |answers[job.env]| then answers[job.env][job.index] else None
  }

  ghost predicate Gathered(all: seq<Answer>, indexes: seq<nat>, got: seq<Answer>) {
    |got| == |indexes| && forall k | 0 <= k < |indexes| :: indexes[k] < |all| && got[k] == all[indexes[k]]
  }

  method QueryAll(answers: Answers, jobs: seq<Job>) returns (results: seq<Answer>)
    ensures |results| == |jobs| && forall i | 0 <= i < |jobs| :: results[i] == Query(answers, jobs[i])
  {
    results := ResolveAll(|jobs|, (i: nat) => if i < |jobs| then Query(answers, jobs[i]) else None);
  }

  ghost predicate MergedSoFar(root: Root, answers: Answers, todo: set<string>, environments: map<string, Environment>)
    requires Covers(root, answers)
  {
    && environments.Keys == root.environments.Keys - todo
    && forall e | e in environments :: environments[e] == WithFolders(root.environments[e], answers[e])
  }

  lemma MergedOneMore(root: Root, answers: Answers, todo: set<string>, environments: map<string, Environment>, name: string)
    requires Covers(root, answers) && MergedSoFar(root, answers, todo, environments)
    requires name in todo && name in root.environments
    ensures MergedSoFar(root, answers, todo - {name}, environments[name := WithFolders(root.environments[name], answers[name])])
  {
  }

  lemma MergedAtEnd(root: Root, answers: Answers, environments: map<string, Environment>)
    requires Covers(root, answers) && MergedSoFar(root, answers, {}, environments)
    ensures environments == MergeFolders(root, answers).environments
  {
  }

  /** A configuration with its folders merged in, whatever the order of maps and of completion, and every failure once. */
  method ResolveConfig(root: Root, answers: Answers) returns (resolved: Root, errs: seq<Job>)
    requires Covers(root, answers)
    ensures resolved == MergeFolders(root, answers)
    ensures forall j :: j in errs <==> Failed(root, answers, j)
    ensures Distinct(errs)
  {
    var jobs := BuildJobs(root);
    var results := QueryAll(answers, jobs);
    var byEnv := GroupByEnvironment(root, answers, jobs, results);
    var environments: map<string, Environment> := map[];
    errs := [];
    var todo := root.environments.Keys;
    while todo != {}
      invariant todo <= root.environments.Keys
      invariant MergedSoFar(root, answers, todo, environments)
      invariant FailuresSoFar(root, answers, todo, errs)
      decreases |todo|
    {
      var name :| name in todo;
      var env := root.environments[name];
      var merged, failed := MergeEnvironment(name, env, Group(byEnv, name));
      FailuresOneMore(root, answers, todo, errs, name, failed);
      MergedOneMore(root, answers, todo, environments, name);
      environments := environments[name := merged];
      errs := errs + failed;
      todo := todo - {name};
    }
    MergedAtEnd(root, answers, environments);
    resolved := root.(environments := environments);
  }

  /** Every listed folder either has its projects in `membership` or is, once, in `errs`. */
  ghost predicate MembershipOf(folderIDs: seq<string>, answers: map<string, Answer>, membership: map<string, seq<string>>, errs: seq<string>)
    requires forall id | id in folderIDs :: id in answers
  {
    && (forall id :: id in membership <==> id in folderIDs && answers[id].Some?)
    && (forall id | id in membership :: answers[id] == Some(membership[id]))
    && (forall id :: id in errs <==> id in folderIDs && answers[id].None?)
    && Distinct(errs)
  }

  lemma MembershipOneMore(ids: seq<string>, id: string, answers: map<string, Answer>, membership: map<string, seq<string>>, errs: seq<string>)
    requires id in answers && id !in ids && forall i | i in ids :: i in answers
    requires MembershipOf(ids, answers, membership, errs)
    ensures answers[id].None? ==> MembershipOf(ids + [id], answers, membership, errs + [id])
    ensures answers[id].Some? ==> MembershipOf(ids + [id], answers, membership[id := answers[id].value], errs)
  {
  }

  /** Folder membership for scopes: an entry for each distinct folder that could be resolved. */
  method ResolveMembership(folderIDs: seq<string>, answers: map<string, Answer>)
    returns (membership: map<string, seq<string>>, errs: seq<string>)
    requires forall id | id in folderIDs :: id in answers
    ensures MembershipOf(folderIDs, answers, membership, errs)
  {
    var _, unique := Append({}, [], folderIDs);
    AddNewContents([], folderIDs);
    var results := ResolveAll(|unique|, (i: nat) => if i < |unique| && unique[i] in answers then answers[unique[i]] else None);
    membership, errs := CollectMembership(unique, answers, results);
  }

  method CollectMembership(unique: seq<string>, answers: map<string, Answer>, results: seq<Answer>)
    returns (membership: map<string, seq<string>>, errs: seq<string>)
    requires Distinct(unique) && forall id | id in unique :: id in answers
    requires |results| == |unique| && forall i | 0 <= i < |unique| :: results[i] == answers[unique[i]]
    ensures MembershipOf(unique, answers, membership, errs)
  {
    membership, errs := map[], [];
    for i := 0 to |unique|
      invariant MembershipOf(unique[..i], answers, membership, errs)
    {
      assert unique[..i + 1] == unique[..i] + [unique[i]];
      assert forall k | 0 <= k < i :: unique[..i][k] == unique[k];
      MembershipOneMore(unique[..i], unique[i], answers, membership, errs);
      if results[i].None? {
        errs := errs + [unique[i]];
      } else {
        membership := membership[unique[i] := results[i].value];
      }
    }
    assert unique[..|unique|] == unique;
  }

  /** Resolving again with the same answers changes nothing. */
  lemma MergeFoldersIsIdempotent(root: Root, answers: Answers)
    requires Covers(root, answers)
    ensures Covers(MergeFolders(root, answers), answers)
    ensures MergeFolders(MergeFolders(root, answers), answers) == MergeFolders(root, answers)
  {
    var once := MergeFolders(root, answers);
    forall e | e in root.environments
      ensures WithFolders(once.environments[e], answers[e]) == once.environments[e]
    {
      DedupAgain(root.environments[e].projects, Resolved(answers[e]));
    }
    assert MergeFolders(once, answers).environments == once.environments;
  }

  function Without<T>(s: seq<T>, k: nat): seq<T>
    requires k < |s|
  {
    s[..k] + s[k + 1..]
  }

  lemma {:induction false} ResolvedConcat(a: seq<Answer>, b: seq<Answer>)
    ensures Resolved(a + b) == Resolved(a) + Resolved(b)
    decreases |b|
  {
    if b == [] {
      assert a + b == a;
    } else {
      assert (a + b)[..|a + b| - 1] == a + b[..|b| - 1];
      ResolvedConcat(a, b[..|b| - 1]);
    }
  }

  lemma NothingResolved()
    ensures Resolved([None]) == []
  {
  }

  lemma FailureAddsNothing(before: seq<Answer>, after: seq<Answer>)
    ensures Resolved(before + [None] + after) == Resolved(before + after)
  {
    ResolvedConcat(before, after);
    ResolvedConcat(before + [None], after);
    ResolvedConcat(before, [None]);
    NothingResolved();
  }

  /**
   A folder that fails is as good as one not listed, with one exception: when it is the only folder and the explicit
   list repeats a project, listing the folder still removes the repetition. Loading refuses such a list.
   */
  lemma FailedFolderIsOmitted(env: Environment, answers: seq<Answer>, k: nat)
    requires |answers| == |env.folders| && k < |answers| && answers[k].None?
    ensures
      var omitted := env.(folders := Without(env.folders, k));
      WithFolders(env, answers).projects == WithFolders(omitted, Without(answers, k)).projects
      <==> |env.folders| > 1 || Distinct(env.projects)
  {
    assert answers == answers[..k] + [None] + answers[k + 1..];
    FailureAddsNothing(answers[..k], answers[k + 1..]);
    if |env.folders| == 1 {
      assert Resolved(answers) == [] by { assert Without(answers, k) == []; }
      assert env.projects + [] == env.projects;
      DedupIsIdentityIffDistinct(env.projects);
    }
  }

  /** An environment's projects depend on nothing but its own entry and its own answers. */
  lemma EnvironmentsAreIndependent(root: Root, other: Root, answers: Answers, others: Answers, e: string)
    requires Covers(root, answers) && Covers(other, others)
    requires e in root.environments && e in other.environments
    requires root.environments[e] == other.environments[e] && answers[e] == others[e]
    ensures MergeFolders(root, answers).environments[e] == MergeFolders(other, others).environments[e]
    ensures root.environments[e].folders == [] ==> MergeFolders(root, answers).environments[e] == root.environments[e]
  {
  }

  /** Projects of an environment with folders: no repetition, nothing lost, explicit ones first, then in listed order. */
  lemma MergedProjectsExact(env: Environment, answers: seq<Answer>)
    requires |answers| == |env.folders| && env.folders != []
    ensures
      var projects, listed := WithFolders(env, answers).projects, env.projects + Resolved(answers);
      && Distinct(projects)
      && InOrderOfFirst(projects, listed)
      && (forall p :: p in projects <==> p in env.projects || exists i :: 0 <= i < |answers| && answers[i].Some? && p in answers[i].value)
    ensures Distinct(env.projects) ==> env.projects <= WithFolders(env, answers).projects
  {
    DedupKeepsFirstOccurrences(env.projects + Resolved(answers));
    ResolvedContents(answers);
    AddNewConcat([], env.projects, Resolved(answers));
    AddNewContents(Dedup(env.projects), Resolved(answers));
    DedupIsIdentityIffDistinct(env.projects);
  }

  lemma {:induction false} ResolvedContents(answers: seq<Answer>)
    ensures forall p :: p in Resolved(answers) <==> exists i :: 0 <= i < |answers| && answers[i].Some? && p in answers[i].value
  {
    if answers != [] {
      var n := |answers| - 1;
      ResolvedContents(answers[..n]);
      assert forall i | 0 <= i < n :: answers[..n][i] == answers[i];
    }
  }
}
