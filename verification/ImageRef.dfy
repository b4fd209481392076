/** Container image references: splitting, pinning to a digest, and reading the digest back. */
module ImageRef {
  import opened Wrappers

  datatype Tag = Tag(name: string, digest: string)

  /** Position of the last `c` in `s`, or -1. */
  function LastIndex(s: string, c: char): (r: int)
    ensures -1 <= r < |s|
    ensures r >= 0 ==> s[r] == c
    ensures forall i | r < i < |s| :: s[i] != c
  {
    if s == "" then -1
    else if s[|s| - 1] == c then |s| - 1
    else LastIndex(s[..|s| - 1], c)
  }

  function DigestSuffix(image: string): string {
    var i := LastIndex(image, '@');
    if i >= 0 then image[i + 1..] else image
  }

  const DIGEST_PREFIX := "sha256:"

  predicate IsDigest(s: string) {
    DIGEST_PREFIX <= s && |s| == |DIGEST_PREFIX| + 64
  }

  /** Only a colon after the last slash separates a tag. */
  function SplitImageRef(image: string): (string, string) {
    var slash := LastIndex(image, '/');
    var colon := LastIndex(image, ':');
    if colon > slash then (image[..colon], image[colon + 1..]) else (image, "latest")
  }

  function WithDigest(existing: string, digest: string): string {
    var i := LastIndex(existing, '@');
    if i >= 0 then existing[..i] + "@" + digest else SplitImageRef(existing).0 + "@" + digest
  }

  datatype Error = ListFailed | NoSuchTag

  function FindTag(tags: seq<Tag>, name: string): Result<string, Error> {
    if tags == [] then Err(NoSuchTag)
    else if tags[0].name == name then Ok(tags[0].digest)
    else FindTag(tags[1..], name)
  }

  type Registry = string -> Result<seq<Tag>, Error>

  function ResolveTag(registry: Registry, image: string): Result<string, Error> {
    var (repo, tag) := SplitImageRef(image);
    match registry(repo)
    case Err(e) => Err(e)
    case Ok(tags) => FindTag(tags, tag)
  }

  function ResolveImageDigest(registry: Registry, image: string): Result<string, Error> {
    if image == "" then Ok("")
    else
      var suffix := DigestSuffix(image);
      if suffix != image || IsDigest(suffix) then Ok(suffix) else ResolveTag(registry, image)
  }

  /** The registry and repository part that pinning keeps. */
  function Repository(image: string): string {
    var i := LastIndex(image, '@');
    if i >= 0 then image[..i] else SplitImageRef(image).0
  }

  // ---------------------------------------------------------------- laws

  lemma LastIndexIsUnique(s: string, c: char, k: int)
    requires -1 <= k < |s| && (k >= 0 ==> s[k] == c) && forall i | k < i < |s| :: s[i] != c
    ensures LastIndex(s, c) == k
  {
  }

  lemma LastIndexOfJoin(a: string, c: char, b: string)
    requires c !in b
    ensures LastIndex(a + [c] + b, c) == |a|
  {
    LastIndexIsUnique(a + [c] + b, c, |a|);
  }

  /** Pinning, for every existing reference: tagged, digest-pinned, with a port, or bare. */
  lemma WithDigestShape(existing: string, digest: string)
    ensures WithDigest(existing, digest) == Repository(existing) + "@" + digest
  {
  }

  /** What a deploy writes is exactly what the next read reports, without asking the registry. */
  lemma PinnedDigestReadsBack(existing: string, digest: string, registry: Registry)
    requires '@' !in digest
    ensures DigestSuffix(WithDigest(existing, digest)) == digest
    ensures ResolveImageDigest(registry, WithDigest(existing, digest)) == Ok(digest)
    ensures Repository(WithDigest(existing, digest)) == Repository(existing)
  {
    var repo := Repository(existing);
    WithDigestShape(existing, digest);
    LastIndexOfJoin(repo, '@', digest);
    assert (repo + "@" + digest)[|repo| + 1..] == digest;
    assert (repo + "@" + digest)[..|repo|] == repo;
    assert |digest| < |repo + "@" + digest|;
  }

  /** Pinning again only replaces the digest. */
  lemma LastPinWins(existing: string, first: string, second: string, registry: Registry)
    requires '@' !in first
    ensures WithDigest(WithDigest(existing, first), second) == WithDigest(existing, second)
  {
    PinnedDigestReadsBack(existing, first, registry);
    WithDigestShape(existing, second);
    WithDigestShape(WithDigest(existing, first), second);
  }

  lemma TaggedReferenceSplits(repo: string, tag: string)
    requires ':' !in tag && '/' !in tag
    ensures SplitImageRef(repo + ":" + tag) == (repo, tag)
  {
    var image := repo + ":" + tag;
    LastIndexOfJoin(repo, ':', tag);
    assert forall i | |repo| <= i < |image| :: image[i] != '/';
    assert image[..|repo|] == repo && image[|repo| + 1..] == tag;
  }

  /** A colon that belongs to the registry host is no tag separator. */
  lemma PortIsNotATag(host: string, path: string)
    requires ':' !in path
    ensures SplitImageRef(host + "/" + path) == (host + "/" + path, "latest")
  {
    var image := host + "/" + path;
    assert image[|host|] == '/' && forall i | |host| < i < |image| :: image[i] != ':';
  }

  /** Pinning a tagged reference drops the tag and nothing else; pinning a bare one drops nothing. */
  lemma PinReplacesTag(repo: string, tag: string, digest: string)
    requires ':' !in tag && '/' !in tag && '@' !in repo && '@' !in tag
    ensures WithDigest(repo + ":" + tag, digest) == repo + "@" + digest
  {
    TaggedReferenceSplits(repo, tag);
    LastIndexIsUnique(repo + ":" + tag, '@', -1);
  }

  lemma PinKeepsPort(host: string, path: string, digest: string)
    requires ':' !in path && '@' !in host && '@' !in path
    ensures WithDigest(host + "/" + path, digest) == host + "/" + path + "@" + digest
  {
    PortIsNotATag(host, path);
    LastIndexIsUnique(host + "/" + path, '@', -1);
  }

  // ---------------------------------------------------------------- reading references that are not pinned

  /** `digest` belongs to the first listed tag of that name. */
  ghost predicate FirstTagNamed(tags: seq<Tag>, name: string, digest: string) {
    exists i: nat :: FirstNamedAt(tags, name, i) && tags[i].digest == digest
  }

  ghost predicate FirstNamedAt(tags: seq<Tag>, name: string, i: nat) {
    i < |tags| && tags[i].name == name && forall j | 0 <= j < i :: tags[j].name != name
  }

  /** A search by name finds the digest of the first tag of that name, and fails exactly if there is none. */
  lemma {:induction false} FoundTagIsFirst(tags: seq<Tag>, name: string)
    ensures match FindTag(tags, name)
      case Ok(d) => forall digest :: FirstTagNamed(tags, name, digest) <==> digest == d
      case Err(e) => e == NoSuchTag && forall t | t in tags :: t.name != name
  {
    if tags != [] {
      if tags[0].name == name {
        assert FirstNamedAt(tags, name, 0);
      } else {
        FoundTagIsFirst(tags[1..], name);
        forall digest ensures FirstTagNamed(tags, name, digest) <==> FirstTagNamed(tags[1..], name, digest) {
          if FirstTagNamed(tags, name, digest) {
            var i: nat :| FirstNamedAt(tags, name, i) && tags[i].digest == digest;
            assert FirstNamedAt(tags[1..], name, i - 1);
          }
          if FirstTagNamed(tags[1..], name, digest) {
            var i: nat :| FirstNamedAt(tags[1..], name, i) && tags[1..][i].digest == digest;
            assert FirstNamedAt(tags, name, i + 1);
          }
        }
      }
    }
  }

  /** Reading `image` means looking for `tag` in `repo`: it succeeds and fails exactly as that search does. */
  ghost predicate ReadsTag(registry: Registry, image: string, repo: string, tag: string) {
    var r := ResolveImageDigest(registry, image);
    && (forall digest :: r == Ok(digest) <==> registry(repo).Ok? && FirstTagNamed(registry(repo).value, tag, digest))
    && (r.Err? <==> registry(repo).Err? || forall t | t in registry(repo).value :: t.name != tag)
    && (registry(repo).Err? ==> r == Err(registry(repo).error))
  }

  lemma UnpinnedReadsTag(registry: Registry, image: string, repo: string, tag: string)
    requires image != "" && '@' !in image && !IsDigest(image) && SplitImageRef(image) == (repo, tag)
    ensures ReadsTag(registry, image, repo, tag)
  {
    LastIndexIsUnique(image, '@', -1);
    if registry(repo).Ok? { FoundTagIsFirst(registry(repo).value, tag); }
  }

  /** A tagged reference is read as the first tag of that name in its repository. */
  lemma TaggedReferenceReadsItsTag(registry: Registry, repo: string, tag: string)
    requires ':' !in tag && '/' !in tag && '@' !in repo && '@' !in tag && !IsDigest(repo + ":" + tag)
    ensures ReadsTag(registry, repo + ":" + tag, repo, tag)
  {
    TaggedReferenceSplits(repo, tag);
    UnpinnedReadsTag(registry, repo + ":" + tag, repo, tag);
  }

  /** An untagged one, with or without a port in its host, as the tag "latest". */
  lemma UntaggedReferenceReadsLatest(registry: Registry, host: string, path: string)
    requires ':' !in path && '@' !in host && '@' !in path
    ensures !IsDigest(host + "/" + path) ==> ReadsTag(registry, host + "/" + path, host + "/" + path, "latest")
    ensures path != "" ==> ReadsTag(registry, path, path, "latest")
  {
    if !IsDigest(host + "/" + path) {
      PortIsNotATag(host, path);
      UnpinnedReadsTag(registry, host + "/" + path, host + "/" + path, "latest");
    }
    if path != "" {
      assert IsDigest(path) ==> path[6] == ':';
      LastIndexIsUnique(path, ':', -1);
      assert SplitImageRef(path) == (path, "latest");
      UnpinnedReadsTag(registry, path, path, "latest");
    }
  }

  /** A bare digest is its own answer, and a missing image has none. */
  lemma BareDigestReadsItself(registry: Registry, hex: string)
    requires |hex| == 64 && '@' !in hex
    ensures ResolveImageDigest(registry, "sha256:" + hex) == Ok("sha256:" + hex)
    ensures ResolveImageDigest(registry, "") == Ok("")
  {
    LastIndexIsUnique("sha256:" + hex, '@', -1);
  }

  /** Registry answers never contain the separator. */
  ghost predicate BareDigests(registry: Registry) {
    forall repo | registry(repo).Ok? :: forall t | t in registry(repo).value :: '@' !in t.digest
  }

  lemma FoundTagIsListed(tags: seq<Tag>, name: string)
    requires FindTag(tags, name).Ok?
    ensures exists t | t in tags :: t.name == name && t.digest == FindTag(tags, name).value
  {
    if tags[0].name == name {
      assert tags[0] in tags;
    } else {
      FoundTagIsListed(tags[1..], name);
      var t :| t in tags[1..] && t.name == name && t.digest == FindTag(tags, name).value;
      assert t in tags;
    }
  }

  /** A resolved live digest is bare, so pinning the resource to it changes nothing that is read back. */
  lemma ResolvedDigestIsBare(registry: Registry, image: string)
    requires BareDigests(registry) && ResolveImageDigest(registry, image).Ok?
    ensures '@' !in ResolveImageDigest(registry, image).value
  {
    var i := LastIndex(image, '@');
    if image != "" && i < 0 && !IsDigest(image) {
      var (repo, tag) := SplitImageRef(image);
      FoundTagIsListed(registry(repo).value, tag);
    }
  }
}
