/** Which tag a track or a version constraint selects, and how release tags and per-service tags interact. */
module Registry {
  import opened Wrappers
  import opened Strings
  import opened Semver
  import opened ImageRef

  datatype ResolveError = NoTagNamed | BadConstraint | NothingSatisfies

  function CanonicalSemver(s: string): string {
    if s != "" && s[0] == 'v' then s else "v" + s
  }

  /** The tag name without `prefix`; an empty prefix strips nothing. */
  function Strip(name: string, prefix: string): Option<string> {
    if prefix == "" then Some(name) else CutPrefix(name, prefix)
  }

  /** The version a tag stands for under `prefix`, if it is a release. */
  function ReleaseOf(t: Tag, prefix: string): (r: Option<Version>)
    ensures r.Some? ==> Proper(r.value) && r.value.pre == ""
  {
    match Strip(t.name, prefix)
    case None => None
    case Some(name) =>
      var v := CanonicalSemver(name);
      if Release(v) then Parse(v) else None
  }

  /** A version written with or without its `v`. */
  ghost predicate Spells(name: string, p: Version) {
    Grammatical(p) && (Unparse(p) == name || Unparse(p) == "v" + name)
  }

  /** A tag stands for a release under `prefix` exactly if what follows the prefix is written as that release. */
  lemma ReadingIsGrammar(t: Tag, prefix: string, p: Version)
    ensures ReleaseOf(t, prefix) == Some(p) <==> p.pre == "" && exists name :: t.name == prefix + name && Spells(name, p)
  {
    if ReleaseOf(t, prefix) == Some(p) {
      var name := Strip(t.name, prefix).value;
      assert t.name == prefix + name;
      ParseIsGrammar(CanonicalSemver(name), p);
      assert Spells(name, p);
    }
    if p.pre == "" && exists name :: t.name == prefix + name && Spells(name, p) {
      var name :| t.name == prefix + name && Spells(name, p);
      CutPrefixOf(prefix, name);
      assert prefix == "" ==> t.name == name;
      WrittenCanonically(name, p);
      ParseIsGrammar(CanonicalSemver(name), p);
    }
  }

  lemma WrittenCanonically(name: string, p: Version)
    requires Proper(p) && (Unparse(p) == name || Unparse(p) == "v" + name)
    ensures CanonicalSemver(name) == Unparse(p)
  {
    MajorIsPrefix(p);
    var v := Unparse(p);
    assert v[..2] == MajorPart(p)[..2];
    assert p.major[0] in p.major;
    assert v[1] == p.major[0];
    if v == "v" + name { assert name[0] == v[1]; }
  }

  /** How tags read: as releases, or not at all. */
  type Reading = Tag -> Option<Version>

  ghost predicate Sound(reading: Reading) {
    forall t | reading(t).Some? :: Proper(reading(t).value) && reading(t).value.pre == ""
  }

  function Under(prefix: string): (reading: Reading)
    ensures Sound(reading)
  {
    t => ReleaseOf(t, prefix)
  }

  /** `t` is a release that agrees with `c` in every number that `c` writes out. */
  predicate Meets(c: Version, t: Version) {
    && t.pre == ""
    && t.major == c.major
    && (c.parts >= 2 ==> t.minor == c.minor)
    && (c.parts >= 3 ==> t.patch == c.patch && c.pre == "")
  }

  predicate Candidate(c: Version, t: Tag, reading: Reading) {
    reading(t).Some? && Meets(c, reading(t).value)
  }

  /** The tag that a scan of `tags` ends up with. */
  function BestTag(tags: seq<Tag>, reading: Reading, c: Version): (r: Option<Tag>)
    ensures r.Some? ==> Candidate(c, r.value, reading)
  {
    if tags == [] then None else
      var best, t := BestTag(tags[..|tags| - 1], reading, c), tags[|tags| - 1];
      if Candidate(c, t, reading) && (best.None? || Compare(reading(t).value, reading(best.value).value) > 0)
      then Some(t) else best
  }

  /** No candidate has higher precedence than tag `i`, and none before it has the same. */
  ghost predicate EarliestHighest(tags: seq<Tag>, i: nat, reading: Reading, c: Version)
    requires Sound(reading)
  {
    && i < |tags| && Candidate(c, tags[i], reading)
    && forall j | 0 <= j < |tags| && Candidate(c, tags[j], reading) :: Beats(reading(tags[i]).value, reading(tags[j]).value, j < i)
  }

  ghost predicate Beats(v: Version, w: Version, strictly: bool)
    requires Proper(v) && Proper(w)
  {
    !Precedes(v, w) && (strictly ==> Precedes(w, v))
  }

  /** The scan finds the earliest of the highest candidates, and nothing only when there is no candidate. */
  lemma {:induction false} BestTagIsEarliestHighest(tags: seq<Tag>, reading: Reading, c: Version)
    requires Sound(reading)
    ensures match BestTag(tags, reading, c)
      case None => forall t | t in tags :: !Candidate(c, t, reading)
      case Some(t) => exists i: nat :: EarliestHighest(tags, i, reading, c) && tags[i] == t
  {
    if tags != [] {
      var n := |tags| - 1;
      var before := BestTag(tags[..n], reading, c);
      BestTagIsEarliestHighest(tags[..n], reading, c);
      assert tags == tags[..n] + [tags[n]];
      if before.Some? {
        var i: nat :| EarliestHighest(tags[..n], i, reading, c) && tags[..n][i] == before.value;
        HighestSurvives(tags, i, reading, c);
      } else if Candidate(c, tags[n], reading) {
        var v := reading(tags[n]).value;
        CompareIsPrecedence(v, v);
        assert forall j | 0 <= j < n :: tags[j] in tags[..n];
        assert EarliestHighest(tags, n, reading, c);
      }
    }
  }

  lemma HighestSurvives(tags: seq<Tag>, i: nat, reading: Reading, c: Version)
    requires Sound(reading)
    requires tags != [] && EarliestHighest(tags[..|tags| - 1], i, reading, c)
    ensures
      var n := |tags| - 1;
      if Candidate(c, tags[n], reading) && Compare(reading(tags[n]).value, reading(tags[i]).value) > 0
      then EarliestHighest(tags, n, reading, c) else EarliestHighest(tags, i, reading, c)
  {
    var n := |tags| - 1;
    var best := reading(tags[i]).value;
    assert forall j | 0 <= j < n :: tags[..n][j] == tags[j];
    if Candidate(c, tags[n], reading) {
      var v := reading(tags[n]).value;
      CompareIsPrecedence(v, best);
      CompareIsPrecedence(v, v);
      if Compare(v, best) > 0 {
        forall j | 0 <= j < n && Candidate(c, tags[j], reading)
          ensures Beats(v, reading(tags[j]).value, true)
        {
          PrecedenceChains(reading(tags[j]).value, best, v);
        }
      }
    }
  }

  /** Not above `v`, which is below `w`: below `w`. */
  lemma PrecedenceChains(u: Version, v: Version, w: Version)
    requires Proper(u) && Proper(v) && Proper(w)
    requires !Precedes(v, u) && Precedes(v, w)
    ensures Precedes(u, w) && !Precedes(w, u)
  {
  }

  /** How `depth` and the normalised constraint are read off the constraint string. */
  function Depth(constraint: string): nat
    requires constraint != ""
  {
    CountDots(constraint[1..])
  }

  function Abbreviated(v: string, depth: nat): string {
    if depth == 0 then Major(v) else if depth == 1 then MajorMinor(v) else Canonical(v)
  }

  function Normalised(constraint: string): string
    requires constraint != ""
  {
    if Depth(constraint) >= 2 then Canonical(constraint) else constraint
  }

  /** Comparing abbreviations at the constraint's depth decides whether a tag meets it. */
  lemma AbbreviationsDecide(constraint: string, c: Version, v: string)
    requires Parse(constraint) == Some(c) && Release(v)
    ensures Abbreviated(v, Depth(constraint)) == Normalised(constraint) <==> Meets(c, Parse(v).value)
  {
    var t := Parse(v).value;
    Abbreviations(v, t);
    Abbreviations(constraint, c);
    DotsCountParts(c);
    MajorPartDetermines(t, c);
    MinorPartDetermines(t, c);
    CanonicalDetermines(t, c);
  }

  lemma ReadingOf(t: Tag, prefix: string, constraint: string, c: Version)
    requires Parse(constraint) == Some(c) && Strip(t.name, prefix).Some? && Release(CanonicalSemver(Strip(t.name, prefix).value))
    ensures
      var v := CanonicalSemver(Strip(t.name, prefix).value);
      && v != "" && Under(prefix)(t) == Parse(v)
      && (Abbreviated(v, Depth(constraint)) == Normalised(constraint) <==> Candidate(c, t, Under(prefix)))
  {
    AbbreviationsDecide(constraint, c, CanonicalSemver(Strip(t.name, prefix).value));
  }

  /** One tag of the scan: its version string if the tag is a candidate, and nothing otherwise. */
  method VersionIfCandidate(t: Tag, prefix: string, depth: nat, constraint: string, ghost written: string, ghost c: Version)
    returns (v: string)
    requires Parse(written) == Some(c) && depth == Depth(written) && constraint == Normalised(written)
    ensures v != "" <==> Candidate(c, t, Under(prefix))
    ensures v != "" ==> Parse(v) == Under(prefix)(t)
  {
    var name := Strip(t.name, prefix);
    if name.None? { return ""; }
    v := CanonicalSemver(name.value);
    if !Release(v) { return ""; }
    ReadingOf(t, prefix, written, c);
    if Abbreviated(v, depth) != constraint { return ""; }
  }

  predicate Higher(v: string, w: string)
    requires IsValid(v) && IsValid(w)
  {
    Compare(Parse(v).value, Parse(w).value) > 0
  }

  /** `bestVersion` and `bestDigest` describe the tag found so far. */
  ghost predicate Found(best: Option<Tag>, reading: Reading, bestVersion: string, bestDigest: string) {
    && (bestVersion == "" <==> best.None?)
    && bestDigest == DigestOf(best)
    && (best.Some? ==> reading(best.value).Some? && Parse(bestVersion) == reading(best.value))
  }

  method BestMatch(tags: seq<Tag>, prefix: string, depth: nat, constraint: string, ghost written: string, ghost c: Version)
    returns (bestDigest: string)
    requires Parse(written) == Some(c) && depth == Depth(written) && constraint == Normalised(written)
    ensures bestDigest == DigestOf(BestTag(tags, Under(prefix), c))
  {
    var bestVersion := "";
    bestDigest := "";
    ghost var reading := Under(prefix);
    for i := 0 to |tags|
      invariant Found(BestTag(tags[..i], reading, c), reading, bestVersion, bestDigest)
    {
      assert tags[..i + 1][..i] == tags[..i];
      var v := VersionIfCandidate(tags[i], prefix, depth, constraint, written, c);
      if v != "" && (bestVersion == "" || Higher(v, bestVersion)) {
        bestVersion, bestDigest := v, tags[i].digest;
      }
    }
    assert tags[..|tags|] == tags;
  }

  function DigestOf(t: Option<Tag>): string { if t.None? then "" else t.value.digest }

  /** First a tag by name, for a track; for a version, the best release tag, or else the best per-service tag. */
  ghost function Resolution(tags: seq<Tag>, track: string, version: string, imageName: string): Result<string, ResolveError> {
    if track != "" then
      match FindTag(tags, track)
      case Ok(digest) => Ok(digest)
      case Err(_) => Err(NoTagNamed)
    else
      match Parse(CanonicalSemver(version))
      case None => Err(BadConstraint)
      case Some(c) =>
        var bare, prefixed := DigestOf(BestTag(tags, Under(""), c)), DigestOf(BestTag(tags, Under(imageName + "-"), c));
        if bare != "" then Ok(bare) else if prefixed != "" then Ok(prefixed) else Err(NothingSatisfies)
  }

  method Resolve(tags: seq<Tag>, track: string, version: string, imageName: string) returns (r: Result<string, ResolveError>)
    ensures r == Resolution(tags, track, version, imageName)
  {
    if track != "" {
      for i := 0 to |tags|
        invariant FindTag(tags, track) == FindTag(tags[i..], track)
      {
        if tags[i].name == track { return Ok(tags[i].digest); }
        assert tags[i..][1..] == tags[i + 1..];
      }
      return Err(NoTagNamed);
    }
    var constraint := CanonicalSemver(version);
    if !IsValid(constraint) { return Err(BadConstraint); }
    ghost var c := Parse(constraint).value;
    var depth := CountDots(constraint[1..]);
    ghost var written := constraint;
    if depth >= 2 { constraint := Canonical(constraint); }
    var bare := BestMatch(tags, "", depth, constraint, written, c);
    var prefixed := BestMatch(tags, imageName + "-", depth, constraint, written, c);
    if prefixed != "" && (bare == "" || prefixed == bare) { return Ok(prefixed); }
    if bare != "" { return Ok(bare); }
    r := Err(NothingSatisfies);
  }

  lemma {:induction false} BestTagIsListed(tags: seq<Tag>, reading: Reading, c: Version)
    requires BestTag(tags, reading, c).Some?
    ensures BestTag(tags, reading, c).value in tags
  {
    var n := |tags| - 1;
    assert tags == tags[..n] + [tags[n]];
    if BestTag(tags, reading, c).value != tags[n] {
      BestTagIsListed(tags[..n], reading, c);
    }
  }

  /** Whatever is resolved is the digest of a listed tag. */
  lemma ResolvedDigestIsListed(tags: seq<Tag>, track: string, version: string, imageName: string)
    requires Resolution(tags, track, version, imageName).Ok?
    ensures exists t | t in tags :: t.digest == Resolution(tags, track, version, imageName).value
  {
    if track != "" {
      FoundTagIsListed(tags, track);
    } else {
      var c := Parse(CanonicalSemver(version)).value;
      var bare, prefixed := BestTag(tags, Under(""), c), BestTag(tags, Under(imageName + "-"), c);
      if DigestOf(bare) != "" {
        BestTagIsListed(tags, Under(""), c);
      } else {
        BestTagIsListed(tags, Under(imageName + "-"), c);
      }
    }
  }

  /** `digest` is that of the earliest highest release that agrees with `c`, tags being read under `prefix`. */
  ghost predicate BestDigest(tags: seq<Tag>, prefix: string, c: Version, digest: string) {
    exists i: nat :: EarliestHighest(tags, i, Under(prefix), c) && tags[i].digest == digest
  }

  /** There is no such release, or its tag comes without a digest. */
  ghost predicate NoBest(tags: seq<Tag>, prefix: string, c: Version) {
    forall digest | BestDigest(tags, prefix, c, digest) :: digest == ""
  }

  /** What a track or a version selects: the first tag of that name, or the best release and, without one, the best per-service one. */
  ghost predicate Selects(tags: seq<Tag>, track: string, version: string, imageName: string, digest: string) {
    if track != "" then FirstTagNamed(tags, track, digest)
    else exists c :: Spells(version, c) && SelectsVersion(tags, c, imageName, digest)
  }

  ghost predicate SelectsVersion(tags: seq<Tag>, c: Version, imageName: string, digest: string) {
    digest != "" && (BestDigest(tags, "", c, digest) || (NoBest(tags, "", c) && BestDigest(tags, imageName + "-", c, digest)))
  }

  lemma BestTagDecides(tags: seq<Tag>, prefix: string, c: Version, digest: string)
    ensures BestDigest(tags, prefix, c, digest) <==> BestTag(tags, Under(prefix), c).Some? && BestTag(tags, Under(prefix), c).value.digest == digest
  {
    BestTagIsEarliestHighest(tags, Under(prefix), c);
    if BestDigest(tags, prefix, c, digest) {
      var i: nat :| EarliestHighest(tags, i, Under(prefix), c) && tags[i].digest == digest;
      assert tags[i] in tags;
      var j: nat :| EarliestHighest(tags, j, Under(prefix), c) && tags[j] == BestTag(tags, Under(prefix), c).value;
      EarliestHighestIsUnique(tags, i, j, Under(prefix), c);
    }
  }

  lemma BestDigestIs(tags: seq<Tag>, prefix: string, c: Version, best: Option<Tag>)
    requires best == BestTag(tags, Under(prefix), c)
    ensures forall digest | digest != "" :: BestDigest(tags, prefix, c, digest) <==> digest == DigestOf(best)
    ensures NoBest(tags, prefix, c) <==> DigestOf(best) == ""
  {
    forall digest ensures BestDigest(tags, prefix, c, digest) <==> best.Some? && best.value.digest == digest {
      BestTagDecides(tags, prefix, c, digest);
    }
    OneDigest(tags, prefix, c, best);
  }

  lemma OneDigest(tags: seq<Tag>, prefix: string, c: Version, best: Option<Tag>)
    requires forall digest :: BestDigest(tags, prefix, c, digest) <==> best.Some? && best.value.digest == digest
    ensures forall digest | digest != "" :: BestDigest(tags, prefix, c, digest) <==> digest == DigestOf(best)
    ensures NoBest(tags, prefix, c) <==> DigestOf(best) == ""
  {
    assert best.Some? ==> BestDigest(tags, prefix, c, best.value.digest);
  }

  lemma EarliestHighestIsUnique(tags: seq<Tag>, i: nat, j: nat, reading: Reading, c: Version)
    requires Sound(reading) && EarliestHighest(tags, i, reading, c) && EarliestHighest(tags, j, reading, c)
    ensures i == j
  {
    assert Beats(reading(tags[i]).value, reading(tags[j]).value, j < i);
    assert Beats(reading(tags[j]).value, reading(tags[i]).value, i < j);
  }

  lemma ConstraintIsGrammar(version: string, c: Version)
    ensures Parse(CanonicalSemver(version)) == Some(c) <==> Spells(version, c)
  {
    ParseIsGrammar(CanonicalSemver(version), c);
    if Spells(version, c) { WrittenCanonically(version, c); }
  }

  /** Whatever is resolved is what the track or the version selects, and resolution fails exactly if it selects nothing. */
  lemma ResolutionSelects(tags: seq<Tag>, track: string, version: string, imageName: string)
    ensures forall digest :: Resolution(tags, track, version, imageName) == Ok(digest) <==> Selects(tags, track, version, imageName, digest)
  {
    if track != "" {
      FoundTagIsFirst(tags, track);
    } else {
      forall c ensures Parse(CanonicalSemver(version)) == Some(c) <==> Spells(version, c) {
        ConstraintIsGrammar(version, c);
      }
      if Parse(CanonicalSemver(version)).Some? {
        var c := Parse(CanonicalSemver(version)).value;
        VersionSelects(tags, version, c, imageName);
      }
    }
  }

  lemma VersionSelects(tags: seq<Tag>, version: string, c: Version, imageName: string)
    requires Parse(CanonicalSemver(version)) == Some(c)
    ensures forall digest :: Resolution(tags, "", version, imageName) == Ok(digest) <==> SelectsVersion(tags, c, imageName, digest)
  {
    BestDigestIs(tags, "", c, BestTag(tags, Under(""), c));
    BestDigestIs(tags, imageName + "-", c, BestTag(tags, Under(imageName + "-"), c));
  }

  // ---------------------------------------------------------------- per-service tags

  predicate PerService(name: string, imageName: string) { imageName + "-" <= name }

  function WithoutService(tags: seq<Tag>, imageName: string): seq<Tag> {
    if tags == [] then [] else
      var t := tags[|tags| - 1];
      WithoutService(tags[..|tags| - 1], imageName) + if PerService(t.name, imageName) then [] else [t]
  }

  /** Some per-service tag name of the image would itself read as a release. */
  predicate ReadsAsRelease(imageName: string) { Release(CanonicalSemver(imageName + "-")) }

  lemma IndexOfPrefix(b: string, y: string)
    ensures IndexOf(b, '.') < |b| ==> IndexOf(b + y, '.') == IndexOf(b, '.')
    ensures IndexOf(b, '.') == |b| ==> IndexOf(b + y, '.') >= |b|
  {
    assert forall j | 0 <= j < |b| :: (b + y)[j] == b[j];
  }

  lemma {:induction false} IdentifiersPrefix(b: string, y: string)
    requires b != "" && b[|b| - 1] != '.' && IdentifiersOk(b + y, false)
    ensures IdentifiersOk(b, false)
    decreases |b|
  {
    var i, k := IndexOf(b, '.'), IndexOf(b + y, '.');
    IndexOfPrefix(b, y);
    assert forall c | c in b :: c in b + y;
    if i < |b| {
      assert b[..i] == (b + y)[..i];
      assert (b + y)[i + 1..] == b[i + 1..] + y;
      IdentifiersPrefix(b[i + 1..], y);
    } else {
      assert b == (b + y)[..k][..|b|];
      assert forall c | c in b :: c in (b + y)[..k] by {
        assert forall h | 0 <= h < |b| :: (b + y)[..k][h] == b[h];
      }
    }
  }

  lemma HyphenIsPastCore(core: string, tail: string, w: string, x: string)
    requires '-' !in core && core + tail == w + x && w != "" && w[|w| - 1] == '-'
    ensures |core| < |w| && core <= w && w[|core|..] <= tail
  {
    assert forall k | 0 <= k < |core| :: (core + tail)[k] == core[k] && core[k] in core;
    assert (w + x)[|w| - 1] == '-';
    assert w == (core + tail)[..|w|];
    assert w[|core|..] == tail[..|w| - |core|];
  }

  lemma HyphenIsNew(s: string, w: string, x: string)
    requires '-' !in s && w != "" && w[|w| - 1] == '-'
    ensures s != w + x
  {
    assert (w + x)[|w| - 1] == '-';
    assert '-' in w + x;
  }

  /** The hyphen of a release version lies in its build part. */
  lemma HyphenIsInBuild(p: Version, w: string, x: string)
    requires Grammatical(p) && p.pre == "" && Unparse(p) == w + x && w != "" && w[|w| - 1] == '-'
    ensures p.parts == 3 && |CorePart(p)| + 1 < |w| && CorePart(p) <= w && '+' in w
    ensures w[|CorePart(p)|..] <= p.build
  {
    CoreHasNoHyphen(p);
    if p.parts < 3 {
      HyphenIsNew(Unparse(p), w, x);
    } else {
      var core := CorePart(p);
      assert Unparse(p) == core + p.build;
      HyphenIsPastCore(core, p.build, w, x);
      assert w[|core|..][0] == p.build[0] == '+';
    }
  }

  lemma CoreHasNoHyphen(p: Version)
    requires Proper(p)
    ensures '-' !in CorePart(p) && '-' !in MinorPart(p) && '-' !in MajorPart(p)
    ensures p.parts < 3 ==> '-' !in Unparse(p)
  {
  }

  /** A per-service tag reads as a release only if already the prefix does, and then the image name holds a plus sign. */
  lemma ServiceTagReadsAsRelease(imageName: string, x: string)
    requires Release(CanonicalSemver(imageName + "-" + x))
    ensures ReadsAsRelease(imageName) && '+' in imageName
  {
    CanonicalPrefix(imageName, x);
    var w := CanonicalSemver(imageName + "-");
    assert w[|w| - 1] == '-';
    ReleaseUpToHyphen(w, x);
    assert w == imageName + "-" || w == "v" + (imageName + "-");
  }

  /** A release that is cut after a hyphen is one still. */
  lemma ReleaseUpToHyphen(w: string, x: string)
    requires Release(w + x) && w != "" && w[|w| - 1] == '-'
    ensures Release(w) && '+' in w
  {
    var p := Parse(w + x).value;
    ParseIsGrammar(w + x, p);
    HyphenIsInBuild(p, w, x);
    ShorterBuild(p, w, w[|CorePart(p)|..]);
  }

  lemma CanonicalPrefix(imageName: string, x: string)
    ensures CanonicalSemver(imageName + "-" + x) == CanonicalSemver(imageName + "-") + x
  {
    CanonicalAppend(imageName + "-", x);
  }

  lemma CanonicalAppend(s: string, x: string)
    requires s != ""
    ensures CanonicalSemver(s + x) == CanonicalSemver(s) + x
  {
    assert (s + x)[0] == s[0];
    assert "v" + (s + x) == "v" + s + x;
  }

  /** Cutting a build part after a hyphen leaves a release. */
  lemma ShorterBuild(p: Version, w: string, build: string)
    requires Grammatical(p) && p.parts == 3 && p.pre == ""
    requires build <= p.build && |build| > 1 && build[|build| - 1] == '-' && w == CorePart(p) + build
    ensures Release(w)
  {
    var rest := p.build[|build|..];
    assert p.build[1..] == build[1..] + rest;
    IdentifiersPrefix(build[1..], rest);
    var q := p.(build := build);
    assert Unparse(q) == w;
    ParseIsGrammar(w, q);
  }

  lemma BestTagSnoc(tags: seq<Tag>, t: Tag, reading: Reading, c: Version)
    ensures
      var best := BestTag(tags, reading, c);
      BestTag(tags + [t], reading, c) ==
        if Candidate(c, t, reading) && (best.None? || Compare(reading(t).value, reading(best.value).value) > 0) then Some(t) else best
  {
    assert (tags + [t])[..|tags|] == tags;
  }

  lemma {:induction false} UnreadableTagsAreSkipped(tags: seq<Tag>, imageName: string, reading: Reading, c: Version)
    requires forall t: Tag | PerService(t.name, imageName) :: reading(t).None?
    ensures BestTag(WithoutService(tags, imageName), reading, c) == BestTag(tags, reading, c)
  {
    if tags != [] {
      var init, t := tags[..|tags| - 1], tags[|tags| - 1];
      var kept := WithoutService(init, imageName);
      UnreadableTagsAreSkipped(init, imageName, reading, c);
      assert tags == init + [t];
      BestTagSnoc(init, t, reading, c);
      BestTagSnoc(kept, t, reading, c);
      assert WithoutService(tags, imageName) == if PerService(t.name, imageName) then kept else kept + [t];
    }
  }

  lemma ServiceTagIsUnreadable(t: Tag, imageName: string)
    requires !ReadsAsRelease(imageName) && PerService(t.name, imageName)
    ensures ReleaseOf(t, "").None?
  {
    var x := t.name[|imageName| + 1..];
    assert t.name == imageName + "-" + x;
    if Release(CanonicalSemver(imageName + "-" + x)) {
      ServiceTagReadsAsRelease(imageName, x);
    }
  }

  lemma ServiceTagsAreSkipped(tags: seq<Tag>, imageName: string, c: Version)
    requires !ReadsAsRelease(imageName)
    ensures BestTag(WithoutService(tags, imageName), Under(""), c) == BestTag(tags, Under(""), c)
  {
    forall t: Tag | PerService(t.name, imageName) ensures Under("")(t).None? {
      ServiceTagIsUnreadable(t, imageName);
    }
    UnreadableTagsAreSkipped(tags, imageName, Under(""), c);
  }

  /** Whenever a release tag matches, per-service tags can be added or removed without changing the answer. */
  lemma ReleaseTagsDecide(tags: seq<Tag>, others: seq<Tag>, version: string, imageName: string, c: Version)
    requires Parse(CanonicalSemver(version)) == Some(c)
    requires WithoutService(tags, imageName) == WithoutService(others, imageName) && !ReadsAsRelease(imageName)
    requires DigestOf(BestTag(tags, Under(""), c)) != ""
    ensures Resolution(tags, "", version, imageName) == Resolution(others, "", version, imageName) == Ok(BestTag(tags, Under(""), c).value.digest)
  {
    ServiceTagsAreSkipped(tags, imageName, c);
    ServiceTagsAreSkipped(others, imageName, c);
  }

  /** Image names without a plus sign, which is all that a repository allows, are never in the way. */
  lemma NoPlusNoRelease(imageName: string)
    requires '+' !in imageName
    ensures !ReadsAsRelease(imageName)
  {
    if ReadsAsRelease(imageName) {
      assert imageName + "-" + "" == imageName + "-";
      ServiceTagReadsAsRelease(imageName, "");
    }
  }

  lemma ReadableServiceTagIsFound(imageName: string) returns (t: Tag, c: Version)
    requires ReadsAsRelease(imageName)
    ensures BestTag(WithoutService([t], imageName), Under(""), c) == None
    ensures BestTag([t], Under(""), c) == Some(t)
  {
    t := Tag(imageName + "-", "sha256:0");
    c := Parse(CanonicalSemver(t.name)).value;
    assert ReleaseOf(t, "") == Some(c);
    assert [t][..0] == [];
    assert Candidate(c, t, Under(""));
    assert WithoutService([t], imageName) == [];
  }

  /** Exactly the image names whose prefix cannot read as a release keep the two kinds of tags apart. */
  lemma ServiceTagsAreApartIff(imageName: string)
    ensures (forall tags: seq<Tag>, c: Version :: BestTag(WithoutService(tags, imageName), Under(""), c) == BestTag(tags, Under(""), c))
      <==> !ReadsAsRelease(imageName)
  {
    if ReadsAsRelease(imageName) {
      var _, _ := ReadableServiceTagIsFound(imageName);
    } else {
      forall tags: seq<Tag>, c: Version ensures BestTag(WithoutService(tags, imageName), Under(""), c) == BestTag(tags, Under(""), c) {
        ServiceTagsAreSkipped(tags, imageName, c);
      }
    }
  }

  lemma ReleaseOfGrammar(imageName: string, p: Version)
    requires Grammatical(p) && p.pre == "" && imageName != "" && imageName[0] != 'v'
    requires Unparse(p) == "v" + (imageName + "-")
    ensures ReadsAsRelease(imageName)
  {
    assert (imageName + "-")[0] == imageName[0];
    ParseIsGrammar(Unparse(p), p);
  }

  lemma HyphenIdentifier()
    ensures IdentifiersOk("b-", false)
  {
    assert IndexOf("b-", '.') == 2 && "b-"[..2] == "b-";
  }

  /** There are image names in the way: 1.2.3+b is one, since v1.2.3+b- is a release with a build part. */
  lemma SomeNamesReadAsReleases() returns (imageName: string)
    ensures imageName == "1.2.3+b" && ReadsAsRelease(imageName)
  {
    imageName := "1.2.3+b";
    var p := Version("1", "2", "3", "", "+b-", 3);
    HyphenIdentifier();
    assert p.build[1..] == "b-";
    assert Grammatical(p);
    assert Unparse(p) == "v" + (imageName + "-");
    ReleaseOfGrammar(imageName, p);
  }
}
