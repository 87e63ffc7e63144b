/**
 * The environment that the secrets of a configuration give to pgBackRest
 * (internal/pgbackrest/credentials/credentials.go).
 */
module Credentials {
  import opened Wrappers
  import opened Roles

  /** A secret by name, and in it a value by key. */
  type Store = string -> Option<string -> Option<string>>

  /**
   * What the API server lets the client read, what the secrets hold, and for which repositories a file cannot be
   * written.
   */
  datatype Api = Api(policy: seq<PolicyRule>, store: Store, unwritable: set<nat>)

  datatype LoadError =
    | Forbidden(name: string)
    | SecretNotFound(name: string)
    | MissingKey(name: string, key: string)
    | CertificateNotWritten(repo: nat)
    | MissingAccessKeyID
    | MissingSecretAccessKey
    | MissingEncryptionKey

  /** Certificates for backups and for restores are written to different files. */
  datatype Purpose = ForBackup | ForRestore

  /** The path of a certificate file, with what was written to it, or a text. */
  datatype Content = Certificate(purpose: Purpose, repo: nat, data: Content) | Text(text: string)

  datatype RepoKey = StorageCAFile | S3Key | S3KeySecret | S3KeyType | S3Region | CipherType | CipherPass

  /** The variable with the key for one repository. */
  datatype RepoEnv = RepoEnv(repo: nat, key: RepoKey, content: Content)

  function KeyTypeName(t: KeyType): string {
    match t
    case Shared => "shared"
    case Auto => "auto"
    case WebID => "web-id"
  }

  function ExtractValueFromSecret(api: Api, ref: SecretKeySelector): Result<string, LoadError> {
    if !MayReadSecret(api.policy, ref.name) then Err(Forbidden(ref.name))
    else if api.store(ref.name).None? then Err(SecretNotFound(ref.name))
    else if api.store(ref.name).value(ref.key).None? then Err(MissingKey(ref.name, ref.key))
    else Ok(api.store(ref.name).value(ref.key).value)
  }

  // ----- What a configuration needs, in the order in which the loader asks for it -----

  datatype Need = Secret(ref: SecretKeySelector) | WriteFile(repo: nat) | Lacks(error: LoadError)

  function NeedOf(ref: Option<SecretKeySelector>, error: LoadError): Need {
    if ref.Some? then Secret(ref.value) else Lacks(error)
  }

  function CANeeds(repo: Repository, i: nat): seq<Need> {
    if repo.endpointCA.Some? then [Secret(repo.endpointCA.value), WriteFile(i)] else []
  }

  function AWSNeeds(aws: S3Credentials): seq<Need> {
    if aws.keyType.Shared? then
      [NeedOf(aws.accessKeyID, MissingAccessKeyID), NeedOf(aws.secretAccessKey, MissingSecretAccessKey)]
    else []
  }

  function EncryptionNeeds(repo: Repository): seq<Need> {
    [NeedOf(repo.encryptionKey, MissingEncryptionKey)]
  }

  /** The index is only there for the form. */
  function CloudNeeds(repo: Repository, i: nat): seq<Need> {
    (if repo.aws.Some? then AWSNeeds(repo.aws.value) else [])
    + (if repo.encryption != "" then EncryptionNeeds(repo) else [])
  }

  function AllNeeds(repos: seq<Repository>, needs: (Repository, nat) -> seq<Need>): seq<Need> {
    if repos == [] then [] else AllNeeds(repos[..|repos| - 1], needs) + needs(repos[|repos| - 1], |repos| - 1)
  }

  /** The certificates of all repositories come first. */
  function Needs(repos: seq<Repository>): seq<Need> {
    AllNeeds(repos, CANeeds) + AllNeeds(repos, CloudNeeds)
  }

  function Failure(api: Api, need: Need): Option<LoadError> {
    match need
    case Lacks(error) => Some(error)
    case WriteFile(repo) => if repo in api.unwritable then Some(CertificateNotWritten(repo)) else None
    case Secret(ref) =>
      var v := ExtractValueFromSecret(api, ref);
      if v.Err? then Some(v.error) else None
  }

  function FirstFailure(api: Api, needs: seq<Need>): Option<LoadError> {
    if needs == [] then None
    else if Failure(api, needs[0]).Some? then Failure(api, needs[0])
    else FirstFailure(api, needs[1..])
  }

  lemma {:induction false} FirstFailureConcat(api: Api, a: seq<Need>, b: seq<Need>)
    ensures FirstFailure(api, a + b) ==
      if FirstFailure(api, a).Some? then FirstFailure(api, a) else FirstFailure(api, b)
  {
    hide Failure;
    if a == [] {
      assert a + b == b;
    } else {
      assert (a + b)[1..] == a[1..] + b;
      FirstFailureConcat(api, a[1..], b);
    }
  }

  /** A failure among the first repositories is the failure of them all. */
  lemma {:induction false} EarlyFailure(api: Api, repos: seq<Repository>, needs: (Repository, nat) -> seq<Need>, n: nat)
    requires n <= |repos| && FirstFailure(api, AllNeeds(repos[..n], needs)).Some?
    ensures FirstFailure(api, AllNeeds(repos, needs)) == FirstFailure(api, AllNeeds(repos[..n], needs))
    decreases |repos|
  {
    hide FirstFailure;
    if n == |repos| {
      assert repos[..n] == repos;
    } else {
      var init := repos[..|repos| - 1];
      assert init[..n] == repos[..n];
      EarlyFailure(api, init, needs, n);
      FirstFailureConcat(api, AllNeeds(init, needs), needs(repos[|repos| - 1], |repos| - 1));
    }
  }

  // ----- What is added to the environment -----

  /** The value behind a reference, which is only looked at when it can be read. */
  function ValueOf(api: Api, ref: Option<SecretKeySelector>): Content {
    if ref.None? then Text("")
    else
      var v := ExtractValueFromSecret(api, ref.value);
      Text(if v.Ok? then v.value else "")
  }

  function CAEntries(api: Api, purpose: Purpose, repo: Repository, i: nat): seq<RepoEnv> {
    if repo.endpointCA.Some? then [RepoEnv(i, StorageCAFile, Certificate(purpose, i, ValueOf(api, repo.endpointCA)))]
    else []
  }

  function AWSEntries(api: Api, aws: S3Credentials, i: nat): seq<RepoEnv> {
    (if aws.keyType.Shared? then
      [RepoEnv(i, S3Key, ValueOf(api, aws.accessKeyID)), RepoEnv(i, S3KeySecret, ValueOf(api, aws.secretAccessKey))]
    else [])
    + [RepoEnv(i, S3KeyType, Text(KeyTypeName(aws.keyType))), RepoEnv(i, S3Region, Text(aws.region))]
  }

  function EncryptionEntries(api: Api, repo: Repository, i: nat): seq<RepoEnv> {
    [RepoEnv(i, CipherType, Text(repo.encryption)), RepoEnv(i, CipherPass, ValueOf(api, repo.encryptionKey))]
  }

  function CloudEntries(api: Api, repo: Repository, i: nat): seq<RepoEnv> {
    (if repo.aws.Some? then AWSEntries(api, repo.aws.value, i) else [])
    + (if repo.encryption != "" then EncryptionEntries(api, repo, i) else [])
  }

  function AllCAEntries(api: Api, purpose: Purpose, repos: seq<Repository>): seq<RepoEnv> {
    if repos == [] then []
    else
      var n := |repos| - 1;
      AllCAEntries(api, purpose, repos[..n]) + CAEntries(api, purpose, repos[n], n)
  }

  function AllCloudEntries(api: Api, repos: seq<Repository>): seq<RepoEnv> {
    if repos == [] then []
    else
      var n := |repos| - 1;
      AllCloudEntries(api, repos[..n]) + CloudEntries(api, repos[n], n)
  }

  // ----- The loader -----

  method EnvSetAWSCredentials(api: Api, aws: S3Credentials, i: nat, env: seq<RepoEnv>)
    returns (r: Result<seq<RepoEnv>, LoadError>)
    ensures
      var e := FirstFailure(api, AWSNeeds(aws));
      r == if e.Some? then Err(e.value) else Ok(env + AWSEntries(api, aws, i))
  {
    hide FirstFailure;
    AWSFailure(api, aws);
    var out := env;
    if aws.keyType == Shared {
      if aws.accessKeyID.None? {
        return Err(MissingAccessKeyID);
      }
      var id := ExtractValueFromSecret(api, aws.accessKeyID.value);
      if id.Err? {
        return Err(id.error);
      }
      if aws.secretAccessKey.None? {
        return Err(MissingSecretAccessKey);
      }
      var key := ExtractValueFromSecret(api, aws.secretAccessKey.value);
      if key.Err? {
        return Err(key.error);
      }
      out := out + [RepoEnv(i, S3Key, Text(id.value))];
      out := out + [RepoEnv(i, S3KeySecret, Text(key.value))];
    }
    out := out + [RepoEnv(i, S3KeyType, Text(KeyTypeName(aws.keyType)))];
    out := out + [RepoEnv(i, S3Region, Text(aws.region))];
    assert out == env + AWSEntries(api, aws, i);
    return Ok(out);
  }

  lemma AWSFailure(api: Api, aws: S3Credentials)
    ensures FirstFailure(api, AWSNeeds(aws)) ==
      if !aws.keyType.Shared? then None
      else if Failure(api, NeedOf(aws.accessKeyID, MissingAccessKeyID)).Some? then
        Failure(api, NeedOf(aws.accessKeyID, MissingAccessKeyID))
      else Failure(api, NeedOf(aws.secretAccessKey, MissingSecretAccessKey))
  {
    hide Failure, NeedOf;
    assert FirstFailure(api, []) == None;
    if aws.keyType.Shared? {
      assert AWSNeeds(aws)[1..] == [NeedOf(aws.secretAccessKey, MissingSecretAccessKey)];
      assert AWSNeeds(aws)[1..][1..] == [];
    }
  }

  method EnvSetEncryptionCredentials(api: Api, repo: Repository, i: nat, env: seq<RepoEnv>)
    returns (r: Result<seq<RepoEnv>, LoadError>)
    ensures
      var e := FirstFailure(api, EncryptionNeeds(repo));
      r == if e.Some? then Err(e.value) else Ok(env + EncryptionEntries(api, repo, i))
  {
    if repo.encryptionKey.None? {
      return Err(MissingEncryptionKey);
    }
    var key := ExtractValueFromSecret(api, repo.encryptionKey.value);
    if key.Err? {
      return Err(key.error);
    }
    var out := env + [RepoEnv(i, CipherType, Text(repo.encryption))];
    out := out + [RepoEnv(i, CipherPass, Text(key.value))];
    assert out == env + EncryptionEntries(api, repo, i);
    return Ok(out);
  }

  /** The turn of one repository. */
  method EnvSetRepositoryCredentials(api: Api, repo: Repository, i: nat, env: seq<RepoEnv>)
    returns (r: Result<seq<RepoEnv>, LoadError>)
    ensures
      var e := FirstFailure(api, CloudNeeds(repo, i));
      r == if e.Some? then Err(e.value) else Ok(env + CloudEntries(api, repo, i))
  {
    hide FirstFailure, CloudNeeds, AWSNeeds, EncryptionNeeds, AWSEntries;
    CloudNeedsSplit(api, repo, i);
    var out := env;
    if repo.aws.Some? {
      var added := EnvSetAWSCredentials(api, repo.aws.value, i, out);
      if added.Err? {
        return added;
      }
      out := added.value;
    }
    if |repo.encryption| != 0 {
      var added := EnvSetEncryptionCredentials(api, repo, i, out);
      if added.Err? {
        return added;
      }
      out := added.value;
    }
    assert out == env + CloudEntries(api, repo, i);
    return Ok(out);
  }

  method EnvSetCloudCredentials(api: Api, repos: seq<Repository>, env: seq<RepoEnv>)
    returns (r: Result<seq<RepoEnv>, LoadError>)
    ensures
      var e := FirstFailure(api, AllNeeds(repos, CloudNeeds));
      r == if e.Some? then Err(e.value) else Ok(env + AllCloudEntries(api, repos))
  {
    hide FirstFailure, CloudNeeds, CloudEntries;
    var out := env;
    NoNeeds(api, repos, CloudNeeds);
    for i := 0 to |repos|
      invariant FirstFailure(api, AllNeeds(repos[..i], CloudNeeds)).None?
      invariant out == env + AllCloudEntries(api, repos[..i])
    {
      NeedsStep(api, repos, i, CloudNeeds);
      var added := EnvSetRepositoryCredentials(api, repos[i], i, out);
      if added.Err? {
        EarlyFailure(api, repos, CloudNeeds, i + 1);
        return added;
      }
      out := added.value;
      assert repos[..i + 1][..i] == repos[..i];
    }
    assert repos[..|repos|] == repos;
    return Ok(out);
  }

  lemma NoNeeds(api: Api, repos: seq<Repository>, needs: (Repository, nat) -> seq<Need>)
    ensures FirstFailure(api, AllNeeds(repos[..0], needs)).None?
  {
  }

  lemma NeedsStep(api: Api, repos: seq<Repository>, i: nat, needs: (Repository, nat) -> seq<Need>)
    requires i < |repos|
    ensures FirstFailure(api, AllNeeds(repos[..i + 1], needs)) ==
      if FirstFailure(api, AllNeeds(repos[..i], needs)).Some? then FirstFailure(api, AllNeeds(repos[..i], needs))
      else FirstFailure(api, needs(repos[i], i))
  {
    hide FirstFailure;
    assert repos[..i + 1][..i] == repos[..i];
    FirstFailureConcat(api, AllNeeds(repos[..i], needs), needs(repos[i], i));
  }

  lemma CloudNeedsSplit(api: Api, repo: Repository, i: nat)
    ensures FirstFailure(api, CloudNeeds(repo, i)) ==
      if repo.aws.Some? && FirstFailure(api, AWSNeeds(repo.aws.value)).Some? then
        FirstFailure(api, AWSNeeds(repo.aws.value))
      else if repo.encryption != "" then FirstFailure(api, EncryptionNeeds(repo))
      else None
  {
    assert FirstFailure(api, []) == None;
    hide FirstFailure;
    var aws := if repo.aws.Some? then AWSNeeds(repo.aws.value) else [];
    var encryption := if repo.encryption != "" then EncryptionNeeds(repo) else [];
    FirstFailureConcat(api, aws, encryption);
  }

  lemma CANeedsFailure(api: Api, repo: Repository, i: nat)
    ensures FirstFailure(api, CANeeds(repo, i)) ==
      if repo.endpointCA.None? then None
      else if Failure(api, Secret(repo.endpointCA.value)).Some? then Failure(api, Secret(repo.endpointCA.value))
      else Failure(api, WriteFile(i))
  {
    hide Failure;
    assert FirstFailure(api, []) == None;
    if repo.endpointCA.Some? {
      assert CANeeds(repo, i)[1..] == [WriteFile(i)];
      assert CANeeds(repo, i)[1..][1..] == [];
    }
  }

  /** The certificates of all repositories. */
  method EnvSetCertificates(api: Api, purpose: Purpose, repos: seq<Repository>, env: seq<RepoEnv>)
    returns (r: Result<seq<RepoEnv>, LoadError>)
    ensures
      var e := FirstFailure(api, AllNeeds(repos, CANeeds));
      r == if e.Some? then Err(e.value) else Ok(env + AllCAEntries(api, purpose, repos))
  {
    hide FirstFailure, CANeeds, AllNeeds, ExtractValueFromSecret, AllCAEntries;
    NoNeeds(api, repos, CANeeds);
    NoCAEntries(api, purpose, repos);
    var out := env;
    for i := 0 to |repos|
      invariant FirstFailure(api, AllNeeds(repos[..i], CANeeds)).None?
      invariant out == env + AllCAEntries(api, purpose, repos[..i])
    {
      NeedsStep(api, repos, i, CANeeds);
      CANeedsFailure(api, repos[i], i);
      CAEntriesStep(api, purpose, repos, i);
      if repos[i].endpointCA.Some? {
        var ca := ExtractValueFromSecret(api, repos[i].endpointCA.value);
        if ca.Err? {
          EarlyFailure(api, repos, CANeeds, i + 1);
          return Err(ca.error);
        }
        if i in api.unwritable {
          EarlyFailure(api, repos, CANeeds, i + 1);
          return Err(CertificateNotWritten(i));
        }
        out := out + [RepoEnv(i, StorageCAFile, Certificate(purpose, i, Text(ca.value)))];
      }
    }
    assert repos[..|repos|] == repos;
    return Ok(out);
  }

  lemma NoCAEntries(api: Api, purpose: Purpose, repos: seq<Repository>)
    ensures AllCAEntries(api, purpose, repos[..0]) == []
  {
  }

  lemma CAEntriesStep(api: Api, purpose: Purpose, repos: seq<Repository>, i: nat)
    requires i < |repos|
    ensures AllCAEntries(api, purpose, repos[..i + 1]) ==
      AllCAEntries(api, purpose, repos[..i]) + CAEntries(api, purpose, repos[i], i)
  {
    hide CAEntries;
    assert repos[..i + 1][..i] == repos[..i];
  }

  /** For backups and for restores, the first thing that cannot be read or written decides the error. */
  method EnvSetCredentials(api: Api, purpose: Purpose, repos: seq<Repository>, env: seq<RepoEnv>)
    returns (r: Result<seq<RepoEnv>, LoadError>)
    ensures
      var e := FirstFailure(api, Needs(repos));
      r == if e.Some? then Err(e.value) else Ok(env + AllCAEntries(api, purpose, repos) + AllCloudEntries(api, repos))
  {
    hide FirstFailure, AllNeeds, AllCAEntries, AllCloudEntries;
    FirstFailureConcat(api, AllNeeds(repos, CANeeds), AllNeeds(repos, CloudNeeds));
    r := EnvSetCertificates(api, purpose, repos, env);
    if r.Err? {
      return;
    }
    r := EnvSetCloudCredentials(api, repos, r.value);
  }

  // ----- Every variable belongs to its repository -----

  /** What the configuration of a repository says about one variable. */
  function Setting(api: Api, purpose: Purpose, repo: Repository, i: nat, key: RepoKey): Option<Content> {
    match key
    case StorageCAFile =>
      if repo.endpointCA.Some? then Some(Certificate(purpose, i, ValueOf(api, repo.endpointCA))) else None
    case S3Key =>
      if repo.aws.Some? && repo.aws.value.keyType.Shared? then Some(ValueOf(api, repo.aws.value.accessKeyID)) else None
    case S3KeySecret =>
      if repo.aws.Some? && repo.aws.value.keyType.Shared? then Some(ValueOf(api, repo.aws.value.secretAccessKey))
      else None
    case S3KeyType => if repo.aws.Some? then Some(Text(KeyTypeName(repo.aws.value.keyType))) else None
    case S3Region => if repo.aws.Some? then Some(Text(repo.aws.value.region)) else None
    case CipherType => if repo.encryption != "" then Some(Text(repo.encryption)) else None
    case CipherPass => if repo.encryption != "" then Some(ValueOf(api, repo.encryptionKey)) else None
  }

  predicate IsSetting(api: Api, purpose: Purpose, repos: seq<Repository>, e: RepoEnv) {
    e.repo < |repos| && Setting(api, purpose, repos[e.repo], e.repo, e.key) == Some(e.content)
  }

  ghost predicate NoVariableTwice(entries: seq<RepoEnv>) {
    forall i, j :: 0 <= i < j < |entries| ==> entries[i].repo != entries[j].repo || entries[i].key != entries[j].key
  }

  lemma NoVariableTwiceConcat(a: seq<RepoEnv>, b: seq<RepoEnv>)
    requires NoVariableTwice(a) && NoVariableTwice(b)
    requires forall x, y :: x in a && y in b ==> x.repo != y.repo || x.key != y.key
    ensures NoVariableTwice(a + b)
  {
    forall i, j | 0 <= i < |a| && 0 <= j < |b|
      ensures a[i].repo != b[j].repo || a[i].key != b[j].key
    {
      assert a[i] in a && b[j] in b;
    }
  }

  /** The environment gets one variable for every setting of every repository, from that repository, and no others. */
  lemma EveryRepositoryHasItsOwnSettings(api: Api, purpose: Purpose, repos: seq<Repository>)
    ensures
      var entries := AllCAEntries(api, purpose, repos) + AllCloudEntries(api, repos);
      && NoVariableTwice(entries)
      && forall e :: e in entries <==> IsSetting(api, purpose, repos, e)
  {
    hide AllCAEntries, AllCloudEntries, Setting;
    CAEntriesAreSettings(api, purpose, repos);
    CloudEntriesAreSettings(api, purpose, repos);
    var a, b := AllCAEntries(api, purpose, repos), AllCloudEntries(api, repos);
    NoVariableTwiceConcat(a, b);
  }

  lemma SettingsOfTheLast(api: Api, purpose: Purpose, repos: seq<Repository>)
    requires repos != []
    ensures
      var n := |repos| - 1;
      forall e :: IsSetting(api, purpose, repos, e) <==>
        || IsSetting(api, purpose, repos[..n], e)
        || (e.repo == n && Setting(api, purpose, repos[n], n, e.key) == Some(e.content))
    ensures forall e :: IsSetting(api, purpose, repos[..|repos| - 1], e) ==> e.repo < |repos| - 1
  {
    hide Setting;
  }

  lemma CARepositoryEntries(api: Api, purpose: Purpose, repo: Repository, i: nat)
    ensures NoVariableTwice(CAEntries(api, purpose, repo, i))
    ensures forall e :: e in CAEntries(api, purpose, repo, i) <==>
      e.repo == i && e.key == StorageCAFile && Setting(api, purpose, repo, i, e.key) == Some(e.content)
  {
    hide ValueOf, KeyTypeName;
  }

  lemma {:induction false} CAEntriesAreSettings(api: Api, purpose: Purpose, repos: seq<Repository>)
    ensures NoVariableTwice(AllCAEntries(api, purpose, repos))
    ensures forall e ::
      e in AllCAEntries(api, purpose, repos) <==> IsSetting(api, purpose, repos, e) && e.key == StorageCAFile
  {
    if repos != [] {
      hide CAEntries, Setting, IsSetting;
      var n := |repos| - 1;
      CAEntriesAreSettings(api, purpose, repos[..n]);
      SettingsOfTheLast(api, purpose, repos);
      CARepositoryEntries(api, purpose, repos[n], n);
      NoVariableTwiceConcat(AllCAEntries(api, purpose, repos[..n]), CAEntries(api, purpose, repos[n], n));
    }
  }

  lemma {:induction false} CloudEntriesAreSettings(api: Api, purpose: Purpose, repos: seq<Repository>)
    ensures NoVariableTwice(AllCloudEntries(api, repos))
    ensures forall e ::
      e in AllCloudEntries(api, repos) <==> IsSetting(api, purpose, repos, e) && e.key != StorageCAFile
  {
    if repos != [] {
      hide CloudEntries, Setting, IsSetting;
      var n := |repos| - 1;
      CloudEntriesAreSettings(api, purpose, repos[..n]);
      SettingsOfTheLast(api, purpose, repos);
      RepositoryEntries(api, purpose, repos[n], n);
      var a, b := AllCloudEntries(api, repos[..n]), CloudEntries(api, repos[n], n);
      NoVariableTwiceConcat(a, b);
    }
  }

  lemma RepositoryEntries(api: Api, purpose: Purpose, repo: Repository, i: nat)
    ensures NoVariableTwice(CloudEntries(api, repo, i))
    ensures forall e :: e in CloudEntries(api, repo, i) <==>
      e.repo == i && e.key != StorageCAFile && Setting(api, purpose, repo, i, e.key) == Some(e.content)
  {
    hide ValueOf, KeyTypeName;
  }

  // ----- What the variables hold, once everything could be read -----

  /** The text that the store holds for a reference. */
  function Held(store: Store, ref: Option<SecretKeySelector>): Option<Content> {
    if ref.None? || store(ref.value.name).None? || store(ref.value.name).value(ref.value.key).None? then None
    else Some(Text(store(ref.value.name).value(ref.value.key).value))
  }

  lemma {:induction false} NeedsAreMet(api: Api, needs: seq<Need>, need: Need)
    requires FirstFailure(api, needs).None? && need in needs
    ensures Failure(api, need).None?
  {
    if need != needs[0] {
      NeedsAreMet(api, needs[1..], need);
    }
  }

  lemma {:induction false} NeedIsListed(
    repos: seq<Repository>, needs: (Repository, nat) -> seq<Need>, i: nat, need: Need)
    requires i < |repos| && need in needs(repos[i], i)
    ensures need in AllNeeds(repos, needs)
  {
    if i < |repos| - 1 {
      NeedIsListed(repos[..|repos| - 1], needs, i, need);
    }
  }

  lemma MetReference(api: Api, repos: seq<Repository>, need: Need)
    requires FirstFailure(api, Needs(repos)).None? && need in Needs(repos)
    ensures !need.Lacks?
    ensures need.Secret? ==> Held(api.store, Some(need.ref)) == Some(ValueOf(api, Some(need.ref)))
  {
    NeedsAreMet(api, Needs(repos), need);
    hide FirstFailure, Needs, MayReadSecret;
  }

  lemma MetRepository(api: Api, repos: seq<Repository>, i: nat)
    requires FirstFailure(api, Needs(repos)).None? && i < |repos|
    ensures
      var repo := repos[i];
      && (repo.endpointCA.Some? ==> Held(api.store, repo.endpointCA) == Some(ValueOf(api, repo.endpointCA)))
      && (repo.aws.Some? && repo.aws.value.keyType.Shared? ==>
        && Held(api.store, repo.aws.value.accessKeyID) == Some(ValueOf(api, repo.aws.value.accessKeyID))
        && Held(api.store, repo.aws.value.secretAccessKey) == Some(ValueOf(api, repo.aws.value.secretAccessKey)))
      && (repo.encryption != "" ==> Held(api.store, repo.encryptionKey) == Some(ValueOf(api, repo.encryptionKey)))
  {
    hide FirstFailure, AllNeeds, ValueOf, Held;
    var repo := repos[i];
    forall need | need in CANeeds(repo, i) || need in CloudNeeds(repo, i)
      ensures !need.Lacks?
      ensures need.Secret? ==> Held(api.store, Some(need.ref)) == Some(ValueOf(api, Some(need.ref)))
    {
      if need in CANeeds(repo, i) {
        NeedIsListed(repos, CANeeds, i, need);
      } else {
        NeedIsListed(repos, CloudNeeds, i, need);
      }
      MetReference(api, repos, need);
    }
    RepositoryNeeds(repo, i);
  }

  lemma RepositoryNeeds(repo: Repository, i: nat)
    ensures repo.endpointCA.Some? ==> Secret(repo.endpointCA.value) in CANeeds(repo, i)
    ensures repo.aws.Some? && repo.aws.value.keyType.Shared? ==>
      && NeedOf(repo.aws.value.accessKeyID, MissingAccessKeyID) in CloudNeeds(repo, i)
      && NeedOf(repo.aws.value.secretAccessKey, MissingSecretAccessKey) in CloudNeeds(repo, i)
    ensures repo.encryption != "" ==> NeedOf(repo.encryptionKey, MissingEncryptionKey) in CloudNeeds(repo, i)
  {
    hide NeedOf;
    if repo.aws.Some? && repo.aws.value.keyType.Shared? {
      var needs := AWSNeeds(repo.aws.value);
      assert needs[0] in needs && needs[1] in needs;
    }
    assert EncryptionNeeds(repo)[0] in EncryptionNeeds(repo);
  }

  /** The variable is set for the repository, to the content. */
  predicate Sets(api: Api, purpose: Purpose, repos: seq<Repository>, i: nat, key: RepoKey, c: Content) {
    RepoEnv(i, key, c) in AllCAEntries(api, purpose, repos) + AllCloudEntries(api, repos)
  }

  lemma VariableIsSetting(api: Api, purpose: Purpose, repos: seq<Repository>, i: nat, key: RepoKey, c: Content)
    requires i < |repos|
    ensures Sets(api, purpose, repos, i, key, c) <==> Setting(api, purpose, repos[i], i, key) == Some(c)
  {
    EveryRepositoryHasItsOwnSettings(api, purpose, repos);
    hide AllCAEntries, AllCloudEntries, Setting, NoVariableTwice;
    assert IsSetting(api, purpose, repos, RepoEnv(i, key, c)) <==> Setting(api, purpose, repos[i], i, key) == Some(c);
  }

  /**
   * When the loader succeeds, the certificate file of a repository holds the configured certificate, and the S3 keys
   * are those of the configured secrets, each under its own name.
   */
  lemma LoadedSecrets(api: Api, purpose: Purpose, repos: seq<Repository>, i: nat, c: Content)
    requires FirstFailure(api, Needs(repos)).None? && i < |repos|
    ensures
      var repo := repos[i];
      var shared := repo.aws.Some? && repo.aws.value.keyType == Shared;
      && (Sets(api, purpose, repos, i, StorageCAFile, c) <==>
        && repo.endpointCA.Some? && c.Certificate?
        && c.purpose == purpose && c.repo == i && Some(c.data) == Held(api.store, repo.endpointCA))
      && (Sets(api, purpose, repos, i, S3Key, c) <==> shared && Some(c) == Held(api.store, repo.aws.value.accessKeyID))
      && (Sets(api, purpose, repos, i, S3KeySecret, c) <==>
        shared && Some(c) == Held(api.store, repo.aws.value.secretAccessKey))
      && (Sets(api, purpose, repos, i, CipherPass, c) <==>
        repo.encryption != "" && Some(c) == Held(api.store, repo.encryptionKey))
  {
    hide Sets, FirstFailure, Needs, ValueOf, Held;
    MetRepository(api, repos, i);
    VariableIsSetting(api, purpose, repos, i, StorageCAFile, c);
    VariableIsSetting(api, purpose, repos, i, S3Key, c);
    VariableIsSetting(api, purpose, repos, i, S3KeySecret, c);
    VariableIsSetting(api, purpose, repos, i, CipherPass, c);
  }

  /** The variables that hold no secrets are those of the configuration. */
  lemma LoadedSettings(api: Api, purpose: Purpose, repos: seq<Repository>, i: nat, c: Content)
    requires i < |repos|
    ensures
      var repo := repos[i];
      && (Sets(api, purpose, repos, i, S3KeyType, c) <==>
        && repo.aws.Some?
        && c == match repo.aws.value.keyType
                case Shared => Text("shared")
                case Auto => Text("auto")
                case WebID => Text("web-id"))
      && (Sets(api, purpose, repos, i, S3Region, c) <==> repo.aws.Some? && c == Text(repo.aws.value.region))
      && (Sets(api, purpose, repos, i, CipherType, c) <==> repo.encryption != "" && c == Text(repo.encryption))
  {
    hide Sets;
    VariableIsSetting(api, purpose, repos, i, S3KeyType, c);
    VariableIsSetting(api, purpose, repos, i, S3Region, c);
    VariableIsSetting(api, purpose, repos, i, CipherType, c);
  }

  /** Which error a reference gives. */
  lemma ReadErrors(api: Api, ref: SecretKeySelector)
    ensures
      var r := ExtractValueFromSecret(api, ref);
      && (r == Err(Forbidden(ref.name)) <==> !MayReadSecret(api.policy, ref.name))
      && (r == Err(SecretNotFound(ref.name)) <==> MayReadSecret(api.policy, ref.name) && api.store(ref.name).None?)
      && (r.Ok? <==> MayReadSecret(api.policy, ref.name) && Held(api.store, Some(ref)).Some?)
      && (r.Err? ==> r.error in {Forbidden(ref.name), SecretNotFound(ref.name), MissingKey(ref.name, ref.key)})
  {
  }

  /** The access key is asked for before the secret key, and only where the keys are shared. */
  lemma MissingKeysAreReported(api: Api, aws: S3Credentials)
    ensures FirstFailure(api, AWSNeeds(aws)) == Some(MissingAccessKeyID) <==>
      && aws.keyType == Shared && aws.accessKeyID.None?
    ensures FirstFailure(api, AWSNeeds(aws)) == Some(MissingSecretAccessKey) <==>
      && aws.keyType == Shared && aws.accessKeyID.Some? && ExtractValueFromSecret(api, aws.accessKeyID.value).Ok?
      && aws.secretAccessKey.None?
  {
    AWSFailure(api, aws);
    hide FirstFailure, MayReadSecret;
  }

  /** The other things that a repository can lack, or that can fail for it, are reported as what they are. */
  lemma RepositoryErrors(api: Api, repo: Repository, i: nat)
    ensures FirstFailure(api, EncryptionNeeds(repo)) == Some(MissingEncryptionKey) <==> repo.encryptionKey.None?
    ensures FirstFailure(api, CANeeds(repo, i)) == Some(CertificateNotWritten(i)) <==>
      && repo.endpointCA.Some? && ExtractValueFromSecret(api, repo.endpointCA.value).Ok? && i in api.unwritable
  {
    assert FirstFailure(api, []) == None;
    assert EncryptionNeeds(repo)[1..] == [];
    CANeedsFailure(api, repo, i);
    hide MayReadSecret;
  }

  lemma {:induction false} CertificateFailures(api: Api, repos: seq<Repository>)
    ensures
      var e := FirstFailure(api, AllNeeds(repos, CANeeds));
      e.Some? ==> !e.value.MissingAccessKeyID? && !e.value.MissingSecretAccessKey? && !e.value.MissingEncryptionKey?
  {
    hide FirstFailure, MayReadSecret;
    if repos == [] {
      NoNeeds(api, repos, CANeeds);
    } else {
      var n := |repos| - 1;
      CertificateFailures(api, repos[..n]);
      NeedsStep(api, repos, n, CANeeds);
      CANeedsFailure(api, repos[n], n);
      assert repos[..n + 1] == repos;
    }
  }

  /** A certificate that cannot be read is reported before anything the other settings lack. */
  lemma CertificatesComeFirst(api: Api, repos: seq<Repository>, i: nat)
    requires i < |repos| && repos[i].endpointCA.Some? && ExtractValueFromSecret(api, repos[i].endpointCA.value).Err?
    ensures
      var e := FirstFailure(api, Needs(repos));
      && e.Some?
      && !e.value.MissingAccessKeyID? && !e.value.MissingSecretAccessKey? && !e.value.MissingEncryptionKey?
  {
    var need := Secret(repos[i].endpointCA.value);
    CertificateFailures(api, repos);
    NeedIsListed(repos, CANeeds, i, need);
    if FirstFailure(api, AllNeeds(repos, CANeeds)).None? && Failure(api, need).Some? {
      NeedsAreMet(api, AllNeeds(repos, CANeeds), need);
    }
    hide FirstFailure, AllNeeds, MayReadSecret;
    FirstFailureConcat(api, AllNeeds(repos, CANeeds), AllNeeds(repos, CloudNeeds));
  }

  // ----- The role covers everything the loader reads -----

  /** The names of the secrets the loader asks for, up to the first thing that the configuration lacks. */
  function Reads(needs: seq<Need>): set<string> {
    if needs == [] || needs[0].Lacks? then {}
    else (if needs[0].Secret? then {needs[0].ref.name} else {}) + Reads(needs[1..])
  }

  lemma {:induction false} ForbiddenIsARead(api: Api, needs: seq<Need>, name: string)
    requires FirstFailure(api, needs) == Some(Forbidden(name))
    requires forall need <- needs :: need.Lacks? ==> !need.error.Forbidden?
    ensures name in Reads(needs) && !MayReadSecret(api.policy, name)
  {
    hide MayReadSecret;
    if Failure(api, needs[0]).None? {
      ForbiddenIsARead(api, needs[1..], name);
    }
  }

  /** Every secret is there, and every file can be written. */
  function FullApi(policy: seq<PolicyRule>): Api {
    Api(policy, name => Some(key => Some("")), {})
  }

  /** With every secret there, the first read that is not allowed is refused. */
  lemma {:induction false} ClosedReadIsForbidden(policy: seq<PolicyRule>, needs: seq<Need>, name: string)
    requires name in Reads(needs) && !MayReadSecret(policy, name)
    ensures FirstFailure(FullApi(policy), needs).Some?
    ensures FirstFailure(FullApi(policy), needs).value.Forbidden?
  {
    hide MayReadSecret;
    if Failure(FullApi(policy), needs[0]).None? {
      ClosedReadIsForbidden(policy, needs[1..], name);
    }
  }

  lemma {:induction false} NeedsLackOnlySettings(repos: seq<Repository>, needs: (Repository, nat) -> seq<Need>)
    requires needs == CANeeds || needs == CloudNeeds
    ensures forall need <- AllNeeds(repos, needs) :: need.Lacks? ==> !need.error.Forbidden?
  {
    if repos != [] {
      NeedsLackOnlySettings(repos[..|repos| - 1], needs);
    }
  }

  predicate Refused(api: Api, repos: seq<Repository>) {
    FirstFailure(api, Needs(repos)).Some? && FirstFailure(api, Needs(repos)).value.Forbidden?
  }

  /** The loader is never refused, whatever the secrets hold, if and only if the policy allows every read it makes. */
  lemma NeverForbiddenExactly(policy: seq<PolicyRule>, repos: seq<Repository>)
    ensures (forall api: Api :: api.policy == policy ==> !Refused(api, repos)) <==>
      forall name <- Reads(Needs(repos)) :: MayReadSecret(policy, name)
  {
    hide FirstFailure, Reads, AllNeeds, MayReadSecret;
    NeedsLackOnlySettings(repos, CANeeds);
    NeedsLackOnlySettings(repos, CloudNeeds);
    forall api: Api | api.policy == policy && Refused(api, repos)
      ensures exists name <- Reads(Needs(repos)) :: !MayReadSecret(policy, name)
    {
      ForbiddenIsARead(api, Needs(repos), FirstFailure(api, Needs(repos)).value.name);
    }
    forall name | name in Reads(Needs(repos)) && !MayReadSecret(policy, name)
      ensures Refused(FullApi(policy), repos) && FullApi(policy).policy == policy
    {
      ClosedReadIsForbidden(policy, Needs(repos), name);
    }
  }

  /** With a built role, that means that the secrets rule names every read, or names nothing at all. */
  lemma RoleNeverForbiddenExactly(rules: Rules, repos: seq<Repository>)
    ensures (forall api: Api :: api.policy == rules.Policy() ==> !Refused(api, repos)) <==>
      rules.secrets == [] || forall name <- Reads(Needs(repos)) :: name in rules.secrets
  {
    hide Refused, Reads, Needs, MayReadSecret;
    NeverForbiddenExactly(rules.Policy(), repos);
    forall name
      ensures MayReadSecret(rules.Policy(), name) <==> Grants(rules.secrets, name)
    {
      PolicyGrants(rules, name);
    }
  }

  lemma {:induction false} ReadsAreNeeds(needs: seq<Need>, name: string)
    requires name in Reads(needs)
    ensures exists need <- needs :: need.Secret? && need.ref.name == name
  {
    if !(needs[0].Secret? && name == needs[0].ref.name) {
      ReadsAreNeeds(needs[1..], name);
    }
  }

  lemma {:induction false} NeedsAreReferred(repos: seq<Repository>, needs: (Repository, nat) -> seq<Need>, need: Need)
    requires needs == CANeeds || needs == CloudNeeds
    requires need in AllNeeds(repos, needs) && need.Secret?
    ensures AnyRefersTo(repos, need.ref.name)
  {
    var n := |repos| - 1;
    if need in needs(repos[n], n) {
      assert RefersTo(repos[n], need.ref.name);
    } else {
      NeedsAreReferred(repos[..n], needs, need);
      var j :| 0 <= j < n && RefersTo(repos[..n][j], need.ref.name);
      assert RefersTo(repos[j], need.ref.name);
    }
  }

  /** Everything the loader asks for is a reference that the role is built from. */
  lemma ReadsAreReferred(repos: seq<Repository>, name: string)
    requires name in Reads(Needs(repos))
    ensures AnyRefersTo(repos, name)
  {
    hide AllNeeds, Reads, AnyRefersTo;
    ReadsAreNeeds(Needs(repos), name);
    var need :| need in Needs(repos) && need.Secret? && need.ref.name == name;
    if need in AllNeeds(repos, CANeeds) {
      NeedsAreReferred(repos, CANeeds, need);
    } else {
      NeedsAreReferred(repos, CloudNeeds, need);
    }
  }

  /** With the role of a list of archives, reading one of them and loading its credentials is never refused. */
  lemma RoleSuffices(policy: seq<PolicyRule>, archives: seq<Archive>, archive: Archive, api: Api)
    requires IsPolicyFor(policy, archives) && archive in archives && api.policy == policy
    ensures MayReadArchive(policy, archive.name)
    ensures !Refused(api, archive.repositories)
  {
    hide Refused, Reads, Needs, AnyRefersTo, SortedDistinct, MayReadArchive, MayReadSecret;
    var rules: Rules :| IsRoleFor(rules, archives) && policy == rules.Policy();
    var i :| 0 <= i < |archives| && archives[i] == archive;
    assert HasArchive(archives, archive.name);
    PolicyGrants(rules, archive.name);
    forall n | n in Reads(Needs(archive.repositories))
      ensures n in rules.secrets
    {
      ReadsAreReferred(archive.repositories, n);
      assert ArchivesReferTo(archives, n);
    }
    RoleNeverForbiddenExactly(rules, archive.repositories);
  }
}
