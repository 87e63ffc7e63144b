/**
 * The operator's side of the role (internal/cnpgi/operator/reconciler.go), and the choice of archive on the instance's
 * side (internal/cnpgi/operator/config/config.go, internal/cnpgi/common/wal.go).
 */
module Reconciler {
  import opened Wrappers
  import opened Roles
  import Credentials

  /** The names of the archives a cluster refers to; an empty one refers to none. The namespace is the cluster's. */
  datatype PluginConfiguration = PluginConfiguration(archive: string, recovery: string, replicaSource: string) {
    predicate Refers(name: string) {
      name != "" && (name == archive || name == recovery || name == replicaSource)
    }
  }

  /** What the choice of the archive to restore from depends on. */
  datatype ClusterState = ClusterState(
    promotionToken: string, lastPromotionToken: string, isReplica: bool, currentPrimary: string)

  function SelectedForRestore(config: PluginConfiguration, cluster: ClusterState, instance: string): string {
    if cluster.promotionToken != "" && cluster.lastPromotionToken != cluster.promotionToken then config.replicaSource
    else if cluster.isReplica && cluster.currentPrimary == instance then config.replicaSource
    else if cluster.currentPrimary == "" then config.recovery
    else config.archive
  }

  /**
   * A pending promotion and the designated primary of a replica cluster restore from the source of the replica, a
   * cluster without a primary from the archive it recovers from, and every other one from its own archive.
   */
  lemma RestoreSourceExactly(config: PluginConfiguration, cluster: ClusterState, instance: string)
    requires config.archive != config.recovery && config.archive != config.replicaSource
    requires config.recovery != config.replicaSource
    ensures
      var source := SelectedForRestore(config, cluster, instance);
      var promoting := cluster.promotionToken != "" && cluster.promotionToken != cluster.lastPromotionToken;
      var designated := cluster.isReplica && cluster.currentPrimary == instance;
      && (source == config.replicaSource <==> promoting || designated)
      && (source == config.recovery <==> !promoting && !designated && cluster.currentPrimary == "")
      && (source == config.archive <==> !promoting && !designated && cluster.currentPrimary != "")
  {
  }

  method GetReferredArchiveObjectsKey(config: PluginConfiguration) returns (result: seq<string>)
    ensures forall name :: name in result <==> config.Refers(name)
    ensures forall i, j :: 0 <= i < j < |result| ==> result[i] != result[j]
  {
    var seen: set<string> := {};
    result := [];
    if |config.archive| > 0 && config.archive !in seen {
      seen := seen + {config.archive};
      result := result + [config.archive];
    }
    if |config.recovery| > 0 && config.recovery !in seen {
      seen := seen + {config.recovery};
      result := result + [config.recovery];
    }
    if |config.replicaSource| > 0 && config.replicaSource !in seen {
      seen := seen + {config.replicaSource};
      result := result + [config.replicaSource];
    }
  }

  /** The metadata stands for all that is not rules; the stored rules may be any. */
  datatype Role = Role(metadata: string, rules: seq<PolicyRule>)

  datatype ApiError = ApiError

  /** How the API server answers the requests of one call. */
  datatype Answers = Answers(
    brokenArchives: set<string>, getRoleFails: bool, ownerFails: bool, writeRoleFails: bool, bindingFails: bool)

  datatype Behavior = Continue | Requeue | Failed

  /** The archives that were fetched are the ones referred to. */
  ghost predicate Fetched(objects: seq<Archive>, config: PluginConfiguration, archives: map<string, Archive>) {
    && (forall name :: config.Refers(name) ==> name in archives && archives[name] in objects)
    && (forall x :: x in objects ==> exists name :: config.Refers(name) && name in archives && archives[name] == x)
  }

  ghost predicate IsRoleForConfiguration(
    rules: seq<PolicyRule>, config: PluginConfiguration, archives: map<string, Archive>)
  {
    exists objects: seq<Archive> :: Fetched(objects, config, archives) && IsPolicyFor(rules, objects)
  }

  /** The API server as the operator sees it; `writes` counts the requests to create or patch the role. */
  class ReconcilerImplementation {
    var archives: map<string, Archive>
    var role: Option<Role>
    var roleBinding: bool
    var writes: nat

    /**
     * A role that is not there is created, one with other rules is patched, and one with the same rules is left alone.
     */
    method EnsureRole(archiveObjects: seq<Archive>, answers: Answers) returns (r: Result<(), ApiError>)
      modifies this`role, this`writes
      ensures answers.getRoleFails ==> r.Err? && role == old(role) && writes == old(writes)
      ensures !answers.getRoleFails && old(role).Some? && IsPolicyFor(old(role).value.rules, archiveObjects) ==>
        r.Ok? && role == old(role) && writes == old(writes)
      ensures !answers.getRoleFails && old(role).None? && answers.ownerFails ==>
        r.Err? && writes == old(writes)
      ensures !answers.getRoleFails && old(role).None? && !answers.ownerFails ==>
        writes == old(writes) + 1 && (r.Ok? <==> !answers.writeRoleFails)
      ensures !answers.getRoleFails && old(role).Some? && !IsPolicyFor(old(role).value.rules, archiveObjects) ==>
        writes == old(writes) + 1 && (r.Ok? <==> !answers.writeRoleFails)
      ensures r.Ok? ==> role.Some? && IsPolicyFor(role.value.rules, archiveObjects)
      ensures r.Ok? && old(role).Some? ==> role.value.metadata == old(role).value.metadata
      ensures r.Err? ==> role == old(role)
    {
      var newRules := BuildRole(archiveObjects);
      if answers.getRoleFails {
        return Err(ApiError);
      }
      if role.None? {
        if answers.ownerFails {
          return Err(ApiError);
        }
        writes := writes + 1;
        if answers.writeRoleFails {
          return Err(ApiError);
        }
        role := Some(Role("", newRules));
        return Ok(());
      }
      if IsPolicyFor(role.value.rules, archiveObjects) {
        RulesAreUnique(newRules, role.value.rules, archiveObjects);
      }
      if newRules == role.value.rules {
        return Ok(());
      }
      writes := writes + 1;
      if answers.writeRoleFails {
        return Err(ApiError);
      }
      role := Some(role.value.(rules := newRules));
      return Ok(());
    }

    /** After a success, the same archives in another order or repeated need no further write. */
    method EnsureRoleAgain(first: seq<Archive>, second: seq<Archive>, answers: Answers, later: Answers)
      returns (r: Result<(), ApiError>, again: Result<(), ApiError>)
      requires forall x :: x in first <==> x in second
      modifies this`role, this`writes
      ensures r.Ok? ==> role.Some? && IsPolicyFor(role.value.rules, first)
      ensures
        var upToDate := old(role).Some? && IsPolicyFor(old(role).value.rules, first);
        r.Ok? ==> writes == if upToDate then old(writes) else old(writes) + 1
      ensures r.Ok? ==> (again.Ok? <==> !later.getRoleFails)
    {
      r := EnsureRole(first, answers);
      if r.Ok? {
        RoleSurvivesReordering(role.value.rules, first, second);
      }
      again := EnsureRole(second, later);
    }

    /** A kind or a cluster that cannot be decoded is None. Other kinds than clusters need no role. */
    method Pre(kind: Option<string>, decoded: Option<PluginConfiguration>, answers: Answers) returns (r: Behavior)
      modifies this`role, this`writes, this`roleBinding
      ensures kind.Some? && kind.value != "Cluster" ==> r.Continue?
      ensures kind.None? || (kind.value == "Cluster" && decoded.None?) ==> r.Failed?
      ensures kind != Some("Cluster") || decoded.None? || r.Requeue? ==>
        role == old(role) && writes == old(writes) && roleBinding == old(roleBinding)
      ensures r.Requeue? ==> decoded.Some? && exists name :: decoded.value.Refers(name) && name !in archives
      ensures r.Continue? && kind == Some("Cluster") ==>
        && decoded.Some? && role.Some? && roleBinding
        && IsRoleForConfiguration(role.value.rules, decoded.value, archives)
      ensures kind == Some("Cluster") && decoded.Some? && answers == Answers({}, false, false, false, false) ==>
        r == if forall name :: decoded.value.Refers(name) ==> name in archives then Continue else Requeue
    {
      if kind.None? {
        return Failed;
      }
      if kind.value != "Cluster" {
        return Continue;
      }
      if decoded.None? {
        return Failed;
      }
      var config := decoded.value;
      var keys := GetReferredArchiveObjectsKey(config);
      var archiveObjects: seq<Archive> := [];
      for i := 0 to |keys|
        invariant forall k :: 0 <= k < i ==> keys[k] in archives && archives[keys[k]] in archiveObjects
        invariant forall x :: x in archiveObjects ==>
          exists k :: 0 <= k < i && keys[k] in archives && archives[keys[k]] == x
        invariant role == old(role) && writes == old(writes) && roleBinding == old(roleBinding)
      {
        assert keys[i] in keys;
        if keys[i] in answers.brokenArchives {
          return Failed;
        }
        if keys[i] !in archives {
          return Requeue;
        }
        archiveObjects := archiveObjects + [archives[keys[i]]];
      }
      FetchedAll(keys, archiveObjects, config, archives);
      var ensured := EnsureRole(archiveObjects, answers);
      if ensured.Err? {
        return Failed;
      }
      if answers.bindingFails {
        return Failed;
      }
      roleBinding := true;
      return Continue;
    }
  }

  lemma FetchedAll(
    keys: seq<string>, objects: seq<Archive>, config: PluginConfiguration, archives: map<string, Archive>)
    requires forall name :: name in keys <==> config.Refers(name)
    requires forall k :: 0 <= k < |keys| ==> keys[k] in archives && archives[keys[k]] in objects
    requires forall x :: x in objects ==> exists k :: 0 <= k < |keys| && keys[k] in archives && archives[keys[k]] == x
    ensures Fetched(objects, config, archives)
  {
    forall x | x in objects
      ensures exists name :: config.Refers(name) && name in archives && archives[name] == x
    {
      var k :| 0 <= k < |keys| && keys[k] in archives && archives[keys[k]] == x;
      assert keys[k] in keys;
    }
  }

  lemma RulesAreUnique(policy: seq<PolicyRule>, policy': seq<PolicyRule>, archives: seq<Archive>)
    requires IsPolicyFor(policy, archives) && IsPolicyFor(policy', archives)
    ensures policy == policy'
  {
    hide IsRoleFor;
    var rules: Rules, rules': Rules :|
      && IsRoleFor(rules, archives) && policy == rules.Policy()
      && IsRoleFor(rules', archives) && policy' == rules'.Policy();
    RoleDependsOnSetsOnly(archives, archives, rules, rules');
  }

  lemma RoleSurvivesReordering(policy: seq<PolicyRule>, a: seq<Archive>, b: seq<Archive>)
    requires IsPolicyFor(policy, a)
    requires forall x :: x in a <==> x in b
    ensures IsPolicyFor(policy, b)
  {
    hide HasArchive, ArchivesReferTo, SortedDistinct;
    forall n
      ensures HasArchive(a, n) <==> HasArchive(b, n)
      ensures ArchivesReferTo(a, n) <==> ArchivesReferTo(b, n)
    {
      SameMembers(a, b, n);
      SameMembers(b, a, n);
    }
    var rules: Rules :| IsRoleFor(rules, a) && policy == rules.Policy();
    assert IsRoleFor(rules, b);
  }

  /**
   * Once the operator has reconciled the role, the instance may read every archive that archiving, restoring or the
   * status can choose, and load its credentials, without being refused.
   */
  lemma ReconciledRoleSuffices(
    policy: seq<PolicyRule>, config: PluginConfiguration, archives: map<string, Archive>, cluster: ClusterState,
    instance: string, api: Credentials.Api)
    requires IsRoleForConfiguration(policy, config, archives) && api.policy == policy
    requires forall name <- archives :: archives[name].name == name
    ensures forall name <- {config.archive, SelectedForRestore(config, cluster, instance)} :: name != "" ==>
      && name in archives
      && MayReadArchive(policy, name)
      && !Credentials.Refused(api, archives[name].repositories)
  {
    hide IsPolicyFor, MayReadArchive, Credentials.Refused;
    var objects: seq<Archive> :| Fetched(objects, config, archives) && IsPolicyFor(policy, objects);
    forall name <- {config.archive, SelectedForRestore(config, cluster, instance)} | name != ""
      ensures name in archives && MayReadArchive(policy, name)
      ensures !Credentials.Refused(api, archives[name].repositories)
    {
      assert config.Refers(name);
      Credentials.RoleSuffices(policy, objects, archives[name], api);
    }
  }
}
