/** Service definitions after decoding: their validation, and the desired state they describe. */
module Manifest {
  import opened Wrappers
  import opened EnvVars
  import opened Diff
  import ImageRef

  datatype Image = Image(digest: string, track: string, version: string, repository: string)

  datatype Precondition = Precondition(kind: string, name: string)

  datatype SecretEntry = SecretEntry(name: string, secret: string, version: string)

  /** `traffic` is the optional latestRevisionPercent; `env` is nil when the section is absent. */
  datatype ServiceDefinition = ServiceDefinition(
    resourceType: ResourceType,
    image: Image,
    traffic: Option<int>,
    env: Option<Vars>,
    secrets: seq<SecretEntry>,
    requirements: seq<Precondition>)

  datatype Error =
    | DigestMissing | DigestMalformed | TrackAndVersion | RepositoryMissing
    | TrafficUnsupported
    | EmptyEnvName | EmptySecretName | EmptySecret | DuplicateSecret | NameInBoth

  predicate HexDigit(c: char) {
    '0' <= c <= '9' || 'a' <= c <= 'f'
  }

  /** The pattern ^sha256:[0-9a-f]{64}$. */
  predicate DigestPattern(s: string) {
    ImageRef.IsDigest(s) && forall i | |ImageRef.DIGEST_PREFIX| <= i < |s| :: HexDigit(s[i])
  }

  function ValidateImage(image: Image): Option<Error> {
    if image.digest == "" then Some(DigestMissing)
    else if !DigestPattern(image.digest) then Some(DigestMalformed)
    else if image.track != "" && image.version != "" then Some(TrackAndVersion)
    else if (image.track != "" || image.version != "") && image.repository == "" then Some(RepositoryMissing)
    else None
  }

  function ValidateTraffic(traffic: Option<int>): Option<Error> {
    if traffic.Some? && traffic.value != 100 then Some(TrafficUnsupported) else None
  }

  /** Secret entries are complete, named once each, and share no name with the plain variables. */
  ghost predicate SecretsValid(env: Vars, secrets: seq<SecretEntry>) {
    && "" !in env
    && (forall i | 0 <= i < |secrets| :: secrets[i].name != "" && secrets[i].secret != "" && secrets[i].name !in env)
    && forall i, j | 0 <= i < j < |secrets| :: secrets[i].name != secrets[j].name
  }

  /** The error names something that is really wrong with the variables or the secrets. */
  ghost predicate SecretFault(e: Error, env: Vars, secrets: seq<SecretEntry>) {
    match e
    case EmptyEnvName => "" in env
    case EmptySecretName => exists i :: 0 <= i < |secrets| && secrets[i].name == ""
    case EmptySecret => exists i :: 0 <= i < |secrets| && secrets[i].secret == ""
    case DuplicateSecret => exists i, j :: 0 <= i < j < |secrets| && secrets[i].name == secrets[j].name
    case NameInBoth => exists i :: 0 <= i < |secrets| && secrets[i].name in env
    case _ => false
  }

  method ValidateSecrets(env: Option<Vars>, secrets: seq<SecretEntry>) returns (err: Option<Error>)
    ensures err.None? <==> SecretsValid(Elems(env), secrets)
    ensures err.Some? ==> SecretFault(err.value, Elems(env), secrets)
  {
    var vars := Elems(env);
    if "" in vars {
      return Some(EmptyEnvName);
    }
    var seen: set<string> := {};
    for n := 0 to |secrets|
      invariant SecretsValid(vars, secrets[..n])
      invariant forall name :: name in seen <==> exists i | 0 <= i < n :: secrets[i].name == name
    {
      var s := secrets[n];
      assert secrets[n].name == s.name;
      if s.name == "" {
        return Some(EmptySecretName);
      }
      if s.secret == "" {
        return Some(EmptySecret);
      }
      if s.name in seen {
        return Some(DuplicateSecret);
      }
      seen := seen + {s.name};
      if s.name in vars {
        return Some(NameInBoth);
      }
    }
    assert secrets[..|secrets|] == secrets;
    return None;
  }

  ghost predicate Valid(sd: ServiceDefinition) {
    ValidateImage(sd.image).None? && ValidateTraffic(sd.traffic).None? && SecretsValid(Elems(sd.env), sd.secrets)
  }

  /** Parse after decoding: the first failing check, or none. */
  method Validate(sd: ServiceDefinition) returns (err: Option<Error>)
    ensures err.None? <==> Valid(sd)
    ensures err.Some? ==>
      if ValidateImage(sd.image).Some? then err == ValidateImage(sd.image)
      else if sd.traffic.Some? && sd.traffic.value != 100 then err == Some(TrafficUnsupported)
      else SecretFault(err.value, Elems(sd.env), sd.secrets)
  {
    err := ValidateImage(sd.image);
    if err.Some? {
      return;
    }
    err := ValidateTraffic(sd.traffic);
    if err.Some? {
      return;
    }
    err := ValidateSecrets(sd.env, sd.secrets);
  }

  /** The secret map the reconciler builds; an omitted version means "latest". */
  function SecretMap(secrets: seq<SecretEntry>): Secrets {
    if secrets == [] then map[]
    else
      var s := secrets[|secrets| - 1];
      SecretMap(secrets[..|secrets| - 1])[s.name := SecretRef(s.secret, if s.version == "" then "latest" else s.version)]
  }

  predicate FieldManaged(managedFields: seq<string>, name: string) {
    name in managedFields
  }

  /** The desired state reconcile derives from a manifest, a digest and the managed fields. */
  function DesiredState(sd: ServiceDefinition, digest: string, managedFields: seq<string>): ServiceState {
    ServiceState(
      digest,
      if FieldManaged(managedFields, "traffic") then sd.traffic else None,
      if FieldManaged(managedFields, "env") then Some(Elems(sd.env)) else None,
      if FieldManaged(managedFields, "env") then Some(SecretMap(sd.secrets)) else None)
  }

  /** The state handed to deploy: the live digest stands in for one that is not managed. */
  function DeployTarget(desired: ServiceState, live: ServiceState, managedFields: seq<string>): ServiceState {
    if FieldManaged(managedFields, "image") then desired else desired.(imageDigest := live.imageDigest)
  }

  /** What the deploy path needs of a desired state. */
  ghost predicate Deployable(d: ServiceState) {
    && '@' !in d.imageDigest
    && (d.traffic.Some? ==> d.traffic.value == 100)
    && (d.envVars.Some? <==> d.secretRefs.Some?)
    && Elems(d.envVars).Keys !! Elems(d.secretRefs).Keys
  }

  lemma {:induction false} SecretMapKeys(secrets: seq<SecretEntry>)
    ensures forall name :: name in SecretMap(secrets) <==> exists i | 0 <= i < |secrets| :: secrets[i].name == name
  {
    if secrets != [] {
      var init, s := secrets[..|secrets| - 1], secrets[|secrets| - 1];
      SecretMapKeys(init);
      forall name ensures name in SecretMap(secrets) <==> exists i | 0 <= i < |secrets| :: secrets[i].name == name {
        if name in SecretMap(init) {
          var i :| 0 <= i < |init| && init[i].name == name;
          assert secrets[i].name == name;
        }
        if exists i | 0 <= i < |secrets| :: secrets[i].name == name {
          var i :| 0 <= i < |secrets| && secrets[i].name == name;
          assert i < |init| ==> init[i].name == name;
        }
        assert s.name == secrets[|secrets| - 1].name;
      }
    }
  }

  /** The last entry of that name has that secret and version, "latest" if it gives none. */
  ghost predicate LastEntry(secrets: seq<SecretEntry>, name: string, ref: SecretRef) {
    exists i :: LastNamedAt(secrets, i, name) && ref.secret == secrets[i].secret
      && ref.version == (if secrets[i].version != "" then secrets[i].version else "latest")
  }

  ghost predicate LastNamedAt(secrets: seq<SecretEntry>, i: int, name: string) {
    0 <= i < |secrets| && secrets[i].name == name && forall j | i < j < |secrets| :: secrets[j].name != name
  }

  lemma {:induction false} SecretMapIsLast(secrets: seq<SecretEntry>, name: string, ref: SecretRef)
    ensures Maps(SecretMap(secrets), name, ref) <==> LastEntry(secrets, name, ref)
  {
    if secrets != [] {
      var n := |secrets| - 1;
      SecretMapIsLast(secrets[..n], name, ref);
      if secrets[n].name == name {
        assert LastNamedAt(secrets, n, name);
      } else {
        forall i ensures LastNamedAt(secrets, i, name) <==> LastNamedAt(secrets[..n], i, name) {}
      }
    }
  }

  /** What a manifest asks for: the digest, and the managed ones among traffic share, variables and secrets, all of them present. */
  ghost predicate Asks(sd: ServiceDefinition, digest: string, managedFields: seq<string>, d: ServiceState) {
    && d.imageDigest == digest
    && d.traffic == (if "traffic" in managedFields then sd.traffic else None)
    && (if "env" in managedFields then
          && d.envVars.Some? && (forall name, value :: Maps(d.envVars.value, name, value) <==> sd.env.Some? && Maps(sd.env.value, name, value))
          && d.secretRefs.Some? && (forall name, ref :: Maps(d.secretRefs.value, name, ref) <==> LastEntry(sd.secrets, name, ref))
        else d.envVars.None? && d.secretRefs.None?)
  }

  lemma DesiredStateIsExact(sd: ServiceDefinition, digest: string, managedFields: seq<string>, d: ServiceState)
    ensures Asks(sd, digest, managedFields, d) <==> d == DesiredState(sd, digest, managedFields)
  {
    forall name, ref ensures Maps(SecretMap(sd.secrets), name, ref) <==> LastEntry(sd.secrets, name, ref) {
      SecretMapIsLast(sd.secrets, name, ref);
    }
    if Asks(sd, digest, managedFields, d) && "env" in managedFields {
      SameContents(d.envVars.value, Elems(sd.env));
      SameContents(d.secretRefs.value, SecretMap(sd.secrets));
    }
  }

  /** Deploying keeps the live digest of an image that is not managed, and asks for the desired state in all else. */
  lemma DeployTargetIsExact(desired: ServiceState, live: ServiceState, managedFields: seq<string>)
    ensures
      var target := DeployTarget(desired, live, managedFields);
      && target.imageDigest == (if "image" in managedFields then desired.imageDigest else live.imageDigest)
      && target.traffic == desired.traffic && target.envVars == desired.envVars && target.secretRefs == desired.secretRefs
  {
  }

  /** A digest of 64 hexadecimal digits, at most one of track and version, and a repository if there is one to resolve. */
  ghost predicate ImageAccepted(image: Image) {
    && (exists hex :: image.digest == "sha256:" + hex && |hex| == 64 && forall c | c in hex :: c in "0123456789abcdef")
    && (image.track == "" || image.version == "")
    && (image.repository == "" ==> image.track == "" && image.version == "")
  }

  lemma ImageCheckIsExact(image: Image)
    ensures ValidateImage(image).None? <==> ImageAccepted(image)
    ensures image.digest == "" ==> ValidateImage(image) == Some(DigestMissing)
    ensures image.digest != "" && !DigestPattern(image.digest) ==> ValidateImage(image) == Some(DigestMalformed)
  {
    if hex :| image.digest == "sha256:" + hex && |hex| == 64 && forall c | c in hex :: c in "0123456789abcdef" {
      forall i | 7 <= i < |image.digest| ensures HexDigit(image.digest[i]) {
        assert image.digest[i] == hex[i - 7] && hex[i - 7] in hex;
      }
    }
    if DigestPattern(image.digest) {
      var hex := image.digest[7..];
      assert image.digest == "sha256:" + hex;
      forall c | c in hex ensures c in "0123456789abcdef" {
        var i :| 0 <= i < |hex| && hex[i] == c;
        assert HexDigit(image.digest[i + 7]);
        HexDigitIsListed(c);
      }
    }
  }

  lemma HexDigitIsListed(c: char)
    ensures HexDigit(c) <==> c in "0123456789abcdef"
  {
    var digits := "0123456789abcdef";
    if '0' <= c <= '9' { assert digits[(c - '0') as int] == c; }
    if 'a' <= c <= 'f' { assert digits[(c - 'a') as int + 10] == c; }
  }

  lemma DigestHasNoSeparator(s: string)
    requires DigestPattern(s)
    ensures '@' !in s
  {
    var p := ImageRef.DIGEST_PREFIX;
    forall i | 0 <= i < |s| ensures s[i] != '@' {
      if i < |p| {
        assert s[i] == p[i];
      }
    }
  }

  /** Validation is what makes every derived desired state deployable, for its own digest or a resolved one. */
  lemma ValidManifestIsDeployable(sd: ServiceDefinition, digest: string, managedFields: seq<string>)
    requires Valid(sd) && '@' !in digest
    ensures Deployable(DesiredState(sd, digest, managedFields))
  {
    SecretMapKeys(sd.secrets);
  }
}
