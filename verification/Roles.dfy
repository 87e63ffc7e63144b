/** The role of a cluster (internal/cnpgi/operator/specs/role.go and secrets.go). */
module Roles {
  import opened Wrappers
  import opened Paths

  datatype SecretKeySelector = SecretKeySelector(name: string, key: string)

  datatype KeyType = Shared | Auto | WebID

  datatype S3Credentials = S3Credentials(
    keyType: KeyType, accessKeyID: Option<SecretKeySelector>, secretAccessKey: Option<SecretKeySelector>,
    region: string)

  datatype Repository = Repository(
    aws: Option<S3Credentials>, encryption: string, encryptionKey: Option<SecretKeySelector>,
    endpointCA: Option<SecretKeySelector>)

  datatype Archive = Archive(name: string, repositories: seq<Repository>)

  datatype PolicyRule = PolicyRule(
    apiGroups: seq<string>, resources: seq<string>, verbs: seq<string>, resourceNames: seq<string>)

  const VERBS := ["get", "watch", "list"]

  const ARCHIVES_GROUP := "pgbackrest.cnpg.opera.com"

  /** The names in the two rules of the role. */
  datatype Rules = Rules(archives: seq<string>, secrets: seq<string>) {
    function Policy(): seq<PolicyRule> {
      [PolicyRule([ARCHIVES_GROUP], ["archives"], VERBS, archives), PolicyRule([""], ["secrets"], VERBS, secrets)]
    }
  }

  // ----- What the API server makes of a policy without wildcards -----

  /** An empty list of names stands for all names. */
  predicate Grants(names: seq<string>, name: string) {
    names == [] || name in names
  }

  predicate Allows(policy: seq<PolicyRule>, verb: string, group: string, resource: string, name: string) {
    exists rule <- policy ::
      verb in rule.verbs && group in rule.apiGroups && resource in rule.resources && Grants(rule.resourceNames, name)
  }

  predicate MayReadSecret(policy: seq<PolicyRule>, name: string) {
    Allows(policy, "get", "", "secrets", name)
  }

  predicate MayReadArchive(policy: seq<PolicyRule>, name: string) {
    Allows(policy, "get", ARCHIVES_GROUP, "archives", name)
  }

  lemma PolicyGrants(rules: Rules, name: string)
    ensures MayReadSecret(rules.Policy(), name) <==> Grants(rules.secrets, name)
    ensures MayReadArchive(rules.Policy(), name) <==> Grants(rules.archives, name)
    ensures forall verb <- ["get", "watch", "list"] ::
      && (Allows(rules.Policy(), verb, "", "secrets", name) <==> rules.secrets == [] || name in rules.secrets)
      && (Allows(rules.Policy(), verb, "pgbackrest.cnpg.opera.com", "archives", name) <==>
          rules.archives == [] || name in rules.archives)
  {
    var policy := rules.Policy();
    assert policy[0] in policy && policy[1] in policy;
    assert policy[0].resources[0] != policy[1].resources[0];
  }

  // ----- What the configuration refers to -----

  predicate Names(ref: Option<SecretKeySelector>, name: string) {
    ref.Some? && ref.value.name == name
  }

  predicate AWSRefersTo(aws: Option<S3Credentials>, name: string) {
    aws.Some? && (Names(aws.value.accessKeyID, name) || Names(aws.value.secretAccessKey, name))
  }

  predicate RepositoryRefersTo(repo: Repository, name: string) {
    Names(repo.endpointCA, name) || Names(repo.encryptionKey, name)
  }

  predicate RefersTo(repo: Repository, name: string) {
    AWSRefersTo(repo.aws, name) || RepositoryRefersTo(repo, name)
  }

  predicate AnyRefersTo(repos: seq<Repository>, name: string) {
    exists j :: 0 <= j < |repos| && RefersTo(repos[j], name)
  }

  predicate ArchivesReferTo(archives: seq<Archive>, name: string) {
    exists i :: 0 <= i < |archives| && AnyRefersTo(archives[i].repositories, name)
  }

  predicate HasArchive(archives: seq<Archive>, name: string) {
    exists i :: 0 <= i < |archives| && archives[i].name == name
  }

  // ----- Sorted lists of names -----

  predicate SortedDistinct(l: seq<string>) {
    forall i, j :: 0 <= i < j < |l| ==> StrLess(l[i], l[j])
  }

  lemma SortedTail(l: seq<string>)
    requires l != [] && SortedDistinct(l)
    ensures SortedDistinct(l[1..])
    ensures forall x :: x in l <==> x == l[0] || x in l[1..]
    ensures l[0] !in l[1..]
    ensures forall x :: x in l[1..] ==> StrLess(l[0], x)
  {
    StrLessIrreflexive(l[0]);
    hide StrLess;
    assert l == [l[0]] + l[1..];
  }

  /** A set of names has one sorted list. */
  lemma {:induction false} SortedListIsUnique(l: seq<string>, m: seq<string>)
    requires SortedDistinct(l) && SortedDistinct(m)
    requires forall x :: x in l <==> x in m
    ensures l == m
  {
    hide StrLess, SortedDistinct;
    MembersOf(l, m);
    MembersOf(m, l);
    if l != [] {
      SortedTail(l);
      SortedTail(m);
      assert l[0] in m && m[0] in l;
      LeastIsUnique(l, m);
      SortedListIsUnique(l[1..], m[1..]);
      assert l == [l[0]] + l[1..] && m == [m[0]] + m[1..];
    }
  }

  lemma MembersOf(l: seq<string>, m: seq<string>)
    requires forall x :: x in l ==> x in m
    ensures l != [] ==> m != []
  {
    if l != [] {
      assert l[0] in m;
    }
  }

  lemma LeastIsUnique(l: seq<string>, m: seq<string>)
    requires l != [] && m != [] && l[0] in m && m[0] in l
    requires forall x :: x in l ==> x == l[0] || StrLess(l[0], x)
    requires forall x :: x in m ==> x == m[0] || StrLess(m[0], x)
    ensures l[0] == m[0]
  {
    if StrLess(l[0], m[0]) && StrLess(m[0], l[0]) {
      StrLessTransitive(l[0], m[0], l[0]);
      StrLessIrreflexive(l[0]);
    }
  }

  method ToSortedList(names: set<string>) returns (l: seq<string>)
    ensures SortedDistinct(l)
    ensures forall x :: x in l <==> x in names
  {
    l := [];
    var rest := names;
    while rest != {}
      invariant rest <= names
      invariant SortedDistinct(l)
      invariant forall x :: x in l <==> x in names - rest
    {
      var x :| x in rest;
      l := InsertSorted(l, x);
      rest := rest - {x};
    }
  }

  method InsertSorted(l: seq<string>, x: string) returns (r: seq<string>)
    requires SortedDistinct(l) && x !in l
    ensures SortedDistinct(r)
    ensures forall y :: y in r <==> y == x || y in l
  {
    var i := 0;
    while i < |l| && StrLess(l[i], x)
      invariant 0 <= i <= |l|
      invariant forall k :: 0 <= k < i ==> StrLess(l[k], x)
    {
      i := i + 1;
    }
    hide StrLess;
    if i < |l| {
      StrLessTotal(l[i], x);
    }
    forall k | i < k < |l|
      ensures StrLess(x, l[k])
    {
      StrLessTransitive(x, l[i], l[k]);
    }
    r := l[..i] + [x] + l[i..];
    SplitMembers(l, i, x);
  }

  lemma SplitMembers(l: seq<string>, i: nat, x: string)
    requires i <= |l|
    ensures forall y :: y in l[..i] + [x] + l[i..] <==> y == x || y in l
  {
    assert l == l[..i] + l[i..];
  }

  // ----- Building the role -----

  /** The names of the references that are there, in order. */
  method CollectSecretNamesFromCredentials(aws: Option<S3Credentials>) returns (result: seq<string>)
    ensures forall n :: n in result <==> AWSRefersTo(aws, n)
  {
    var references: seq<Option<SecretKeySelector>> := [];
    if aws.Some? {
      references := references + [aws.value.accessKeyID, aws.value.secretAccessKey];
    }
    result := [];
    for i := 0 to |references|
      invariant forall n :: n in result <==> exists k :: 0 <= k < i && Names(references[k], n)
    {
      if references[i].Some? {
        result := result + [references[i].value.name];
      }
    }
    assert aws.Some? ==> references[0] == aws.value.accessKeyID && references[1] == aws.value.secretAccessKey;
  }

  method CollectSecretNamesFromRepositories(repositories: seq<Repository>) returns (result: seq<string>)
    ensures forall n :: n in result <==>
      exists j :: 0 <= j < |repositories| && RepositoryRefersTo(repositories[j], n)
  {
    result := [];
    for j := 0 to |repositories|
      invariant forall n :: n in result <==>
        exists k :: 0 <= k < j && RepositoryRefersTo(repositories[k], n)
    {
      if repositories[j].endpointCA.Some? {
        result := result + [repositories[j].endpointCA.value.name];
      }
      if repositories[j].encryptionKey.Some? {
        result := result + [repositories[j].encryptionKey.value.name];
      }
    }
  }

  /** What the rules of the role for these archives are. */
  ghost predicate IsRoleFor(rules: Rules, archives: seq<Archive>) {
    && SortedDistinct(rules.archives) && SortedDistinct(rules.secrets)
    && (forall n :: n in rules.archives <==> HasArchive(archives, n))
    && (forall n :: n in rules.secrets <==> ArchivesReferTo(archives, n))
  }

  ghost predicate IsPolicyFor(policy: seq<PolicyRule>, archives: seq<Archive>) {
    exists rules: Rules :: IsRoleFor(rules, archives) && policy == rules.Policy()
  }

  method BuildRole(archives: seq<Archive>) returns (policy: seq<PolicyRule>)
    ensures IsPolicyFor(policy, archives)
  {
    var secretsSet, archivesSet: set<string> := {}, {};
    for i := 0 to |archives|
      invariant forall n :: n in archivesSet <==> HasArchive(archives[..i], n)
      invariant forall n :: n in secretsSet <==> ArchivesReferTo(archives[..i], n)
    {
      archivesSet := archivesSet + {archives[i].name};
      var before := secretsSet;
      var repos := archives[i].repositories;
      for j := 0 to |repos|
        invariant forall n :: n in secretsSet <==> n in before || AnyRefersTo(repos[..j], n)
      {
        var fromCredentials := CollectSecretNamesFromCredentials(repos[j].aws);
        var fromRepository := CollectSecretNamesFromRepositories([repos[j]]);
        assert [repos[j]][0] == repos[j];
        ReferStep(repos, j);
        secretsSet := secretsSet + (set n <- fromCredentials) + (set n <- fromRepository);
      }
      assert repos[..|repos|] == repos;
      NameStep(archives, i);
      ArchiveStep(archives, i);
    }
    assert archives[..|archives|] == archives;
    var names := ToSortedList(archivesSet);
    var secrets := ToSortedList(secretsSet);
    policy := [PolicyRule(["pgbackrest.cnpg.opera.com"], ["archives"], ["get", "watch", "list"], names)];
    policy := policy + [PolicyRule([""], ["secrets"], ["get", "watch", "list"], secrets)];
    ghost var rules := Rules(names, secrets);
    assert policy == rules.Policy();
  }

  lemma ReferStep(repos: seq<Repository>, j: nat)
    requires j < |repos|
    ensures forall n :: AnyRefersTo(repos[..j + 1], n) <==> AnyRefersTo(repos[..j], n) || RefersTo(repos[j], n)
  {
    hide RefersTo;
    assert repos[..j + 1] == repos[..j] + [repos[j]];
  }

  lemma NameStep(archives: seq<Archive>, i: nat)
    requires i < |archives|
    ensures forall n :: HasArchive(archives[..i + 1], n) <==> HasArchive(archives[..i], n) || archives[i].name == n
  {
    var prefix := archives[..i + 1];
    assert prefix == archives[..i] + [archives[i]] && prefix[i] == archives[i];
    assert forall k :: 0 <= k < i ==> prefix[k] == archives[..i][k];
  }

  lemma ArchiveStep(archives: seq<Archive>, i: nat)
    requires i < |archives|
    ensures forall n :: ArchivesReferTo(archives[..i + 1], n) <==>
      ArchivesReferTo(archives[..i], n) || AnyRefersTo(archives[i].repositories, n)
  {
    hide AnyRefersTo;
    assert archives[..i + 1] == archives[..i] + [archives[i]];
  }

  /** The rules are the same if and only if the archives have the same names and refer to the same secrets. */
  lemma RoleDependsOnSetsOnly(a: seq<Archive>, b: seq<Archive>, rules: Rules, rules': Rules)
    requires IsRoleFor(rules, a) && IsRoleFor(rules', b)
    ensures rules == rules' <==>
      && (forall n :: HasArchive(a, n) <==> HasArchive(b, n))
      && (forall n :: ArchivesReferTo(a, n) <==> ArchivesReferTo(b, n))
  {
    hide HasArchive, ArchivesReferTo, SortedDistinct;
    if (forall n :: HasArchive(a, n) <==> HasArchive(b, n))
       && (forall n :: ArchivesReferTo(a, n) <==> ArchivesReferTo(b, n))
    {
      SortedListIsUnique(rules.archives, rules'.archives);
      SortedListIsUnique(rules.secrets, rules'.secrets);
    }
  }

  /** Listing the archives in another order, or more than once, gives the same role. */
  lemma ReorderedArchivesGiveTheSameRole(a: seq<Archive>, b: seq<Archive>, rules: Rules, rules': Rules)
    requires IsRoleFor(rules, a) && IsRoleFor(rules', b)
    requires forall x :: x in a <==> x in b
    ensures rules == rules'
  {
    forall n
      ensures HasArchive(a, n) <==> HasArchive(b, n)
      ensures ArchivesReferTo(a, n) <==> ArchivesReferTo(b, n)
    {
      hide AnyRefersTo;
      SameMembers(a, b, n);
      SameMembers(b, a, n);
    }
    hide HasArchive, ArchivesReferTo;
    RoleDependsOnSetsOnly(a, b, rules, rules');
  }

  lemma SameMembers(a: seq<Archive>, b: seq<Archive>, n: string)
    requires forall x :: x in a ==> x in b
    ensures HasArchive(a, n) ==> HasArchive(b, n)
    ensures ArchivesReferTo(a, n) ==> ArchivesReferTo(b, n)
  {
    hide AnyRefersTo;
    if HasArchive(a, n) {
      var i :| 0 <= i < |a| && a[i].name == n;
      assert a[i] in b;
    }
    if ArchivesReferTo(a, n) {
      var i :| 0 <= i < |a| && AnyRefersTo(a[i].repositories, n);
      assert a[i] in b;
    }
  }

  // ----- Granting no more than is referred to -----

  lemma HasMember(l: seq<string>)
    ensures l != [] ==> exists x :: x in l
  {
    if l != [] {
      assert l[0] in l;
    }
  }

  /** The secrets rule lets exactly the referred secrets be read if and only if there are any. */
  lemma SecretsAreLeastPrivilegeExactly(rules: Rules, archives: seq<Archive>)
    requires IsRoleFor(rules, archives)
    ensures (forall n :: MayReadSecret(rules.Policy(), n) <==> ArchivesReferTo(archives, n)) <==>
      exists n :: ArchivesReferTo(archives, n)
    ensures rules.secrets == [] <==> forall n :: !ArchivesReferTo(archives, n)
  {
    hide ArchivesReferTo, HasArchive, SortedDistinct, MayReadSecret, MayReadArchive;
    forall n
      ensures MayReadSecret(rules.Policy(), n) <==> Grants(rules.secrets, n)
    {
      PolicyGrants(rules, n);
    }
    HasMember(rules.secrets);
    assert MayReadSecret(rules.Policy(), "") <==> Grants(rules.secrets, "");
  }

  /** The archives rule lets exactly the archives of the role be read if and only if there are any. */
  lemma ArchivesAreLeastPrivilegeExactly(rules: Rules, archives: seq<Archive>)
    requires IsRoleFor(rules, archives)
    ensures (forall n :: MayReadArchive(rules.Policy(), n) <==> HasArchive(archives, n)) <==> archives != []
  {
    hide ArchivesReferTo, SortedDistinct, MayReadSecret, MayReadArchive;
    forall n
      ensures MayReadArchive(rules.Policy(), n) <==> Grants(rules.archives, n)
    {
      PolicyGrants(rules, n);
    }
    if archives != [] {
      assert HasArchive(archives, archives[0].name);
    } else {
      HasMember(rules.archives);
      assert MayReadArchive(rules.Policy(), "") && !HasArchive(archives, "");
    }
  }

  /** An archive whose one repository gets its credentials by itself refers to no secret, so its role opens them all. */
  lemma AutomaticCredentialsOpenAllSecrets(rules: Rules, name: string, region: string, secret: string)
    requires
      var repository := Repository(Some(S3Credentials(Auto, None, None, region)), "", None, None);
      IsRoleFor(rules, [Archive(name, [repository])])
    ensures MayReadSecret(rules.Policy(), secret)
  {
    hide SortedDistinct, HasArchive, MayReadSecret, MayReadArchive;
    HasMember(rules.secrets);
    PolicyGrants(rules, secret);
  }
}
