/** The injection of the plugin's sidecar into a pod (internal/cnpgi/operator/lifecycle.go). */
module Sidecar {
  import opened Wrappers

  datatype EnvVar = EnvVar(name: string, value: string)

  datatype VolumeMount = VolumeMount(name: string, mountPath: string)

  /** The source of an empty directory is the empty string. */
  datatype Volume = Volume(name: string, source: string)

  /** `definition` stands for the image, the probes, the resources and the security context. */
  datatype Container = Container(
    name: string, args: seq<string>, env: seq<EnvVar>, volumeMounts: seq<VolumeMount>, restartAlways: bool,
    definition: string)

  datatype Spec = Spec(volumes: seq<Volume>, containers: seq<Container>, initContainers: seq<Container>)

  datatype InjectError = MainContainerNotFound

  const PLUGIN_VOLUME_NAME := "plugins"
  const PLUGIN_MOUNT_PATH := "/plugins"
  const SIDECAR_NAME := "plugin-pgbackrest"

  const PLUGIN_VOLUME := Volume(PLUGIN_VOLUME_NAME, "")
  const PLUGIN_MOUNT := VolumeMount(PLUGIN_VOLUME_NAME, PLUGIN_MOUNT_PATH)

  predicate HasVolume(volumes: seq<Volume>, name: string) {
    exists i :: 0 <= i < |volumes| && volumes[i].name == name
  }

  predicate HasContainer(containers: seq<Container>, name: string) {
    exists i :: 0 <= i < |containers| && containers[i].name == name
  }

  predicate HasEnv(env: seq<EnvVar>, name: string) {
    exists i :: 0 <= i < |env| && env[i].name == name
  }

  // ----- The injected pod -----

  function WithMount(c: Container, main: string): Container {
    if c.name == main then c.(volumeMounts := c.volumeMounts + [PLUGIN_MOUNT]) else c
  }

  function WithMounts(containers: seq<Container>, main: string): seq<Container> {
    seq(|containers|, i requires 0 <= i < |containers| => WithMount(containers[i], main))
  }

  /** A volume that is there is left as it is, and so are the mounts then. */
  function WithVolume(s: Spec, main: string): Spec {
    if HasVolume(s.volumes, PLUGIN_VOLUME_NAME) then s
    else s.(volumes := s.volumes + [PLUGIN_VOLUME], containers := WithMounts(s.containers, main))
  }

  function FirstNamed(containers: seq<Container>, name: string): Option<Container> {
    if containers == [] then None
    else if containers[0].name == name then Some(containers[0])
    else FirstNamed(containers[1..], name)
  }

  function LastNamed(containers: seq<Container>, name: string): Option<Container> {
    if containers == [] then None
    else if containers[|containers| - 1].name == name then Some(containers[|containers| - 1])
    else LastNamed(containers[..|containers| - 1], name)
  }

  function MainMounts(containers: seq<Container>, main: string): seq<VolumeMount> {
    var c := LastNamed(containers, main);
    if c.Some? then c.value.volumeMounts else []
  }

  /** The sidecar as it is appended: with the mounts of the main container, and always restarted. */
  function Injected(sidecar: Container, containers: seq<Container>, main: string, injectVolumes: bool): Container {
    sidecar.(
      volumeMounts := sidecar.volumeMounts + if injectVolumes then MainMounts(containers, main) else [],
      restartAlways := true)
  }

  function WithSidecar(s: Spec, sidecar: Container, main: string, injectVolumes: bool): Spec {
    var t := WithVolume(s, main);
    if !HasContainer(t.containers, main) || HasContainer(t.initContainers, sidecar.name) then t
    else t.(initContainers := t.initContainers + [Injected(sidecar, t.containers, main, injectVolumes)])
  }

  // ----- The environment of the sidecar -----

  /** The variables whose name no earlier variable has, in order. */
  function FirstOccurrences(env: seq<EnvVar>): seq<EnvVar> {
    if env == [] then []
    else
      var n := |env| - 1;
      var init := FirstOccurrences(env[..n]);
      if HasEnv(env[..n], env[n].name) then init else init + [env[n]]
  }

  function DefaultEnv(namespace: string, cluster: string): seq<EnvVar> {
    [
      EnvVar("NAMESPACE", namespace),
      EnvVar("CLUSTER_NAME", cluster),
      EnvVar("SPOOL_DIRECTORY", "/controller/wal-restore-spool")
    ]
  }

  function MainEnv(containers: seq<Container>, main: string): seq<EnvVar> {
    var c := FirstNamed(containers, main);
    if c.Some? then c.value.env else []
  }

  /** The variables of the main container come first, then the defaults, then those of the archives. */
  function SidecarEnv(s: Spec, main: string, defaults: seq<EnvVar>, additional: seq<EnvVar>): seq<EnvVar> {
    FirstOccurrences(MainEnv(s.containers, main) + defaults + additional)
  }

  function SidecarConfig(env: seq<EnvVar>, args: seq<string>, definition: string): Container {
    Container(SIDECAR_NAME, args, env, [], false, definition)
  }

  // ----- The code -----

  /** Appends the variables whose names the environment does not have yet. */
  method MergeEnv(before: seq<EnvVar>, added: seq<EnvVar>, ghost all: seq<EnvVar>) returns (merged: seq<EnvVar>)
    requires before == FirstOccurrences(all)
    ensures merged == FirstOccurrences(all + added)
  {
    hide FirstOccurrences;
    merged := before;
    assert all + added[..0] == all;
    for i := 0 to |added|
      invariant merged == FirstOccurrences(all + added[..i])
    {
      var found := false;
      for j := 0 to |merged|
        invariant found <==> exists k :: 0 <= k < j && merged[k].name == added[i].name
      {
        if merged[j].name == added[i].name {
          found := true;
          break;
        }
      }
      MergeStep(all, added, i);
      if !found {
        merged := merged + [added[i]];
      }
    }
    assert added[..|added|] == added;
  }

  lemma MergeStep(all: seq<EnvVar>, added: seq<EnvVar>, i: nat)
    requires i < |added|
    ensures
      var merged := FirstOccurrences(all + added[..i]);
      FirstOccurrences(all + added[..i + 1]) == if HasEnv(merged, added[i].name) then merged else merged + [added[i]]
  {
    hide FirstOccurrences;
    SameNames(all + added[..i], added[i].name);
    FirstOccurrencesStep(all + added[..i], added[i]);
    assert all + added[..i + 1] == all + added[..i] + [added[i]];
  }

  class PodSpec {
    var volumes: seq<Volume>
    var containers: seq<Container>
    var initContainers: seq<Container>

    function View(): Spec
      reads this
    {
      Spec(volumes, containers, initContainers)
    }

    method InjectPluginVolumePodSpec(main: string)
      modifies this
      ensures View() == WithVolume(old(View()), main)
    {
      var foundPluginVolume := false;
      for i := 0 to |volumes|
        invariant View() == old(View())
        invariant foundPluginVolume <==> exists k :: 0 <= k < i && volumes[k].name == PLUGIN_VOLUME_NAME
      {
        if volumes[i].name == PLUGIN_VOLUME_NAME {
          foundPluginVolume := true;
        }
      }
      if foundPluginVolume {
        return;
      }
      volumes := volumes + [Volume(PLUGIN_VOLUME_NAME, "")];
      for i := 0 to |containers|
        invariant volumes == old(volumes) + [PLUGIN_VOLUME] && initContainers == old(initContainers)
        invariant |containers| == |old(containers)|
        invariant forall k :: 0 <= k < i ==> containers[k] == WithMount(old(containers)[k], main)
        invariant forall k :: i <= k < |containers| ==> containers[k] == old(containers)[k]
      {
        if containers[i].name == main {
          var c := containers[i];
          containers := containers[
            i := c.(volumeMounts := c.volumeMounts + [VolumeMount(PLUGIN_VOLUME_NAME, PLUGIN_MOUNT_PATH)])];
        }
      }
      assert containers == WithMounts(old(containers), main);
    }

    /** The volume is injected even when the main container is not found. */
    method InjectPluginSidecarPodSpec(sidecar: Container, main: string, injectVolumes: bool)
      returns (r: Result<(), InjectError>)
      modifies this
      ensures View() == WithSidecar(old(View()), sidecar, main, injectVolumes)
      ensures r == if HasContainer(old(containers), main) then Ok(()) else Err(MainContainerNotFound)
    {
      InjectPluginVolumePodSpec(main);
      MountsKeepNames(old(containers), main);
      var volumeMounts: seq<VolumeMount> := [];
      var mainContainerFound := false;
      for i := 0 to |containers|
        modifies {}
        invariant mainContainerFound <==> HasContainer(containers[..i], main)
        invariant volumeMounts == MainMounts(containers[..i], main)
      {
        assert containers[..i + 1] == containers[..i] + [containers[i]];
        ContainerStep(containers[..i], containers[i], main);
        if containers[i].name == main {
          volumeMounts := containers[i].volumeMounts;
          mainContainerFound := true;
        }
      }
      assert containers[..|containers|] == containers;
      if !mainContainerFound {
        return Err(MainContainerNotFound);
      }
      var sidecarContainerFound := false;
      for i := 0 to |initContainers|
        modifies {}
        invariant sidecarContainerFound <==> exists k :: 0 <= k < i && initContainers[k].name == sidecar.name
      {
        if initContainers[i].name == sidecar.name {
          sidecarContainerFound := true;
        }
      }
      if sidecarContainerFound {
        return Ok(());
      }
      var added := sidecar;
      if injectVolumes {
        added := added.(volumeMounts := added.volumeMounts + volumeMounts);
      }
      added := added.(restartAlways := true);
      assert added == Injected(sidecar, containers, main, injectVolumes);
      initContainers := initContainers + [added];
      return Ok(());
    }

    method ReconcilePodSpec(
      main: string, args: seq<string>, definition: string, namespace: string, cluster: string, additional: seq<EnvVar>)
      returns (r: Result<(), InjectError>)
      modifies this
      ensures View() == Reconciled(old(View()), main, args, definition, DefaultEnv(namespace, cluster), additional)
      ensures r == if HasContainer(old(containers), main) then Ok(()) else Err(MainContainerNotFound)
    {
      var envs := [
        EnvVar("NAMESPACE", namespace),
        EnvVar("CLUSTER_NAME", cluster),
        EnvVar("SPOOL_DIRECTORY", "/controller/wal-restore-spool")
      ];
      envs := envs + additional;
      var env: seq<EnvVar> := [];
      var i := 0;
      while i < |containers| && containers[i].name != main
        modifies {}
        invariant 0 <= i <= |containers|
        invariant FirstNamed(containers, main) == FirstNamed(containers[i..], main)
      {
        i := i + 1;
      }
      ghost var mainEnv := MainEnv(containers, main);
      if i < |containers| {
        env := MergeEnv(env, containers[i].env, []);
        assert [] + mainEnv == mainEnv;
      }
      env := MergeEnv(env, envs, mainEnv);
      assert mainEnv + envs == mainEnv + DefaultEnv(namespace, cluster) + additional;
      r := InjectPluginSidecarPodSpec(Container(SIDECAR_NAME, args, env, [], false, definition), main, true);
    }
  }

  function Reconciled(
    s: Spec, main: string, args: seq<string>, definition: string, defaults: seq<EnvVar>, additional: seq<EnvVar>): Spec
  {
    WithSidecar(s, SidecarConfig(SidecarEnv(s, main, defaults, additional), args, definition), main, true)
  }

  lemma MountsKeepNames(containers: seq<Container>, main: string)
    ensures forall name :: HasContainer(WithMounts(containers, main), name) <==> HasContainer(containers, name)
  {
    var after := WithMounts(containers, main);
    assert forall i :: 0 <= i < |containers| ==> after[i].name == containers[i].name;
  }

  lemma ContainerStep(containers: seq<Container>, c: Container, main: string)
    ensures HasContainer(containers + [c], main) <==> HasContainer(containers, main) || c.name == main
    ensures MainMounts(containers + [c], main) ==
      if c.name == main then c.volumeMounts else MainMounts(containers, main)
  {
    var all := containers + [c];
    assert all[|all| - 1] == c && all[..|all| - 1] == containers;
    assert forall i :: 0 <= i < |containers| ==> all[i] == containers[i];
  }

  lemma FirstOccurrencesStep(env: seq<EnvVar>, e: EnvVar)
    ensures FirstOccurrences(env + [e]) ==
      if HasEnv(env, e.name) then FirstOccurrences(env) else FirstOccurrences(env) + [e]
  {
    assert (env + [e])[..|env|] == env;
  }

  // ----- The environment has the first variable of each name -----

  lemma {:induction false} SameNames(env: seq<EnvVar>, name: string)
    ensures HasEnv(FirstOccurrences(env), name) <==> HasEnv(env, name)
  {
    if env != [] {
      var n := |env| - 1;
      SameNames(env[..n], name);
      assert env == env[..n] + [env[n]];
      FirstOccurrencesStep(env[..n], env[n]);
      EnvStep(env[..n], env[n], name);
      EnvStep(FirstOccurrences(env[..n]), env[n], name);
    }
  }

  lemma EnvStep(env: seq<EnvVar>, e: EnvVar, name: string)
    ensures HasEnv(env + [e], name) <==> HasEnv(env, name) || e.name == name
  {
    assert (env + [e])[|env|] == e;
    assert forall i :: 0 <= i < |env| ==> (env + [e])[i] == env[i];
  }

  function Value(env: seq<EnvVar>, name: string): Option<string> {
    if env == [] then None
    else if env[0].name == name then Some(env[0].value)
    else Value(env[1..], name)
  }

  lemma {:induction false} ValueConcat(a: seq<EnvVar>, b: seq<EnvVar>, name: string)
    ensures Value(a + b, name) == if Value(a, name).Some? then Value(a, name) else Value(b, name)
    ensures Value(a, name).Some? <==> HasEnv(a, name)
  {
    if a == [] {
      assert a + b == b;
    } else {
      assert (a + b)[1..] == a[1..] + b;
      ValueConcat(a[1..], b, name);
      assert a == [a[0]] + a[1..];
    }
  }

  /** Dropping later duplicates leaves distinct names, and every name keeps its first value. */
  lemma {:induction false} FirstWins(env: seq<EnvVar>, name: string)
    ensures Value(FirstOccurrences(env), name) == Value(env, name)
  {
    if env != [] {
      var n := |env| - 1;
      var init, last := env[..n], [env[n]];
      assert env == init + last;
      FirstWins(init, name);
      FirstOccurrencesStep(init, env[n]);
      ValueConcat(init, last, name);
      ValueConcat(FirstOccurrences(init), last, name);
      ValueConcat(init, [], env[n].name);
      ValueConcat(init, [], name);
    }
  }

  predicate DistinctNames(env: seq<EnvVar>) {
    forall i, j :: 0 <= i < j < |env| ==> env[i].name != env[j].name
  }

  lemma {:induction false} FirstOccurrencesDistinct(env: seq<EnvVar>)
    ensures DistinctNames(FirstOccurrences(env))
  {
    if env != [] {
      var n := |env| - 1;
      FirstOccurrencesDistinct(env[..n]);
      SameNames(env[..n], env[n].name);
    }
  }

  /** More variables at the end only add to the end. */
  lemma {:induction false} FirstOccurrencesPrefix(env: seq<EnvVar>, more: seq<EnvVar>)
    ensures FirstOccurrences(env) <= FirstOccurrences(env + more)
    decreases |more|
  {
    hide FirstOccurrences;
    if more == [] {
      assert env + more == env;
    } else {
      var n := |more| - 1;
      assert env + more == env + more[..n] + [more[n]];
      FirstOccurrencesPrefix(env, more[..n]);
      FirstOccurrencesStep(env + more[..n], more[n]);
    }
  }

  /** Where no name occurs twice, nothing is dropped and the order is kept. */
  lemma {:induction false} DistinctEnvStays(env: seq<EnvVar>)
    requires DistinctNames(env)
    ensures FirstOccurrences(env) == env
  {
    if env != [] {
      var n := |env| - 1;
      DistinctEnvStays(env[..n]);
      assert env == env[..n] + [env[n]];
    }
  }

  /** The main container's value goes before the default, and the default before the archives'. */
  lemma SidecarEnvPrecedence(s: Spec, main: string, defaults: seq<EnvVar>, additional: seq<EnvVar>, name: string)
    ensures
      var env := SidecarEnv(s, main, defaults, additional);
      && DistinctNames(env)
      && Value(env, name) ==
        if HasEnv(MainEnv(s.containers, main), name) then Value(MainEnv(s.containers, main), name)
        else if HasEnv(defaults, name) then Value(defaults, name)
        else Value(additional, name)
  {
    var mainEnv := MainEnv(s.containers, main);
    FirstOccurrencesDistinct(mainEnv + defaults + additional);
    FirstWins(mainEnv + defaults + additional, name);
    ValueConcat(mainEnv + defaults, additional, name);
    ValueConcat(mainEnv, defaults, name);
    ValueConcat(defaults, additional, name);
  }

  // ----- Injecting twice is injecting once, and what was there stays -----

  lemma InjectedIsThere(s: Spec, sidecar: Container, main: string, injectVolumes: bool)
    ensures
      var t := WithSidecar(s, sidecar, main, injectVolumes);
      && HasVolume(t.volumes, PLUGIN_VOLUME_NAME)
      && (HasContainer(t.containers, main) <==> HasContainer(s.containers, main))
      && (HasContainer(s.containers, main) ==> HasContainer(t.initContainers, sidecar.name))
  {
    var t := WithSidecar(s, sidecar, main, injectVolumes);
    if !HasVolume(s.volumes, PLUGIN_VOLUME_NAME) {
      assert t.volumes[|s.volumes|] == PLUGIN_VOLUME;
      MountsKeepNames(s.containers, main);
    }
    if HasContainer(s.containers, main) && !HasContainer(s.initContainers, sidecar.name) {
      assert t.initContainers[|s.initContainers|].name == sidecar.name;
    }
  }

  /**
   * Reconciling a pod again changes nothing, with the same or with other settings, and also when the first time failed.
   */
  lemma ReconcileIsIdempotent(
    s: Spec, main: string, args: seq<string>, definition: string, defaults: seq<EnvVar>, additional: seq<EnvVar>,
    args': seq<string>, definition': string, defaults': seq<EnvVar>, additional': seq<EnvVar>)
    ensures
      var t := Reconciled(s, main, args, definition, defaults, additional);
      Reconciled(t, main, args', definition', defaults', additional') == t
  {
    hide SidecarEnv, HasContainer, HasVolume;
    InjectedIsThere(s, SidecarConfig(SidecarEnv(s, main, defaults, additional), args, definition), main, true);
  }

  /** Volumes and init containers keep their order, and containers change only by the mount of the main one. */
  lemma InjectionKeepsThePod(s: Spec, sidecar: Container, main: string, injectVolumes: bool)
    ensures
      var t := WithSidecar(s, sidecar, main, injectVolumes);
      && s.volumes <= t.volumes <= s.volumes + [PLUGIN_VOLUME]
      && s.initContainers <= t.initContainers && |t.initContainers| <= |s.initContainers| + 1
      && |t.containers| == |s.containers|
      && (forall i :: 0 <= i < |s.containers| && s.containers[i].name != main ==> t.containers[i] == s.containers[i])
      && (forall i :: 0 <= i < |s.containers| && s.containers[i].name == main ==>
        t.containers[i] == s.containers[i].(volumeMounts := t.containers[i].volumeMounts)
        && t.containers[i].volumeMounts in {
          s.containers[i].volumeMounts, s.containers[i].volumeMounts + [VolumeMount("plugins", "/plugins")]})
      && ((exists i :: 0 <= i < |s.volumes| && s.volumes[i].name == "plugins") ==>
        t.volumes == s.volumes && t.containers == s.containers)
      && ((forall i :: 0 <= i < |s.containers| ==> s.containers[i].name != main) ==>
        t.initContainers == s.initContainers && t.containers == s.containers)
  {
    assert WithMounts(s.containers, main) == s.containers ||
      exists i :: 0 <= i < |s.containers| && s.containers[i].name == main;
    var t := WithSidecar(s, sidecar, main, injectVolumes);
    assert forall i :: 0 <= i < |s.containers| ==> t.containers[i].name == s.containers[i].name;
  }

  /** Each injected name occurs once if it occurred at most once before. */
  lemma InjectedOnce(s: Spec, sidecar: Container, main: string, injectVolumes: bool)
    requires forall i, j :: 0 <= i < j < |s.volumes| ==> s.volumes[i].name != s.volumes[j].name
    requires forall i, j :: 0 <= i < j < |s.initContainers| ==> s.initContainers[i].name != s.initContainers[j].name
    ensures
      var t := WithSidecar(s, sidecar, main, injectVolumes);
      && (forall i, j :: 0 <= i < j < |t.volumes| ==> t.volumes[i].name != t.volumes[j].name)
      && (forall i, j :: 0 <= i < j < |t.initContainers| ==> t.initContainers[i].name != t.initContainers[j].name)
  {
  }

  lemma {:induction false} LastNamedIsThere(containers: seq<Container>, name: string)
    ensures LastNamed(containers, name).Some? <==> HasContainer(containers, name)
    ensures LastNamed(containers, name).Some? ==>
      LastNamed(containers, name).value in containers && LastNamed(containers, name).value.name == name
  {
    if containers != [] {
      var n := |containers| - 1;
      LastNamedIsThere(containers[..n], name);
      assert containers == containers[..n] + [containers[n]];
    }
  }

  /**
   * A new sidecar is always restarted and sees every path that the main container mounts, the plugin directory among
   * them when its volume was new.
   */
  lemma SidecarSeesTheMainContainersVolumes(s: Spec, sidecar: Container, main: string)
    requires HasContainer(s.containers, main) && !HasContainer(s.initContainers, sidecar.name)
    ensures
      var t := WithSidecar(s, sidecar, main, true);
      var added := Injected(sidecar, t.containers, main, true);
      && t.initContainers == s.initContainers + [added]
      && added.name == sidecar.name && added.env == sidecar.env && added.restartAlways
      && (exists c <- t.containers :: c.name == main && added.volumeMounts == sidecar.volumeMounts + c.volumeMounts)
      && (!HasVolume(s.volumes, PLUGIN_VOLUME_NAME) ==> PLUGIN_MOUNT in added.volumeMounts)
  {
    hide LastNamed;
    InjectedIsThere(s, sidecar, main, true);
    var t := WithSidecar(s, sidecar, main, true);
    LastNamedIsThere(t.containers, main);
    var c := LastNamed(t.containers, main).value;
    var i :| 0 <= i < |t.containers| && t.containers[i] == c;
    if !HasVolume(s.volumes, PLUGIN_VOLUME_NAME) {
      assert c.volumeMounts[|s.containers[i].volumeMounts|] == PLUGIN_MOUNT;
    }
  }

  /** The defaults reach the sidecar, unless the main container sets them itself. */
  lemma SidecarDefaults(s: Spec, main: string, namespace: string, cluster: string, additional: seq<EnvVar>)
    ensures
      var env := SidecarEnv(s, main, DefaultEnv(namespace, cluster), additional);
      var mainEnv := MainEnv(s.containers, main);
      && (!HasEnv(mainEnv, "NAMESPACE") ==> Value(env, "NAMESPACE") == Some(namespace))
      && (!HasEnv(mainEnv, "CLUSTER_NAME") ==> Value(env, "CLUSTER_NAME") == Some(cluster))
      && (!HasEnv(mainEnv, "SPOOL_DIRECTORY") ==>
        Value(env, "SPOOL_DIRECTORY") == Some("/controller/wal-restore-spool"))
  {
    var defaults := DefaultEnv(namespace, cluster);
    DefaultValues(namespace, cluster);
    hide SidecarEnv, MainEnv, DefaultEnv, HasEnv, Value;
    ValueConcat(defaults, [], "NAMESPACE");
    ValueConcat(defaults, [], "CLUSTER_NAME");
    ValueConcat(defaults, [], "SPOOL_DIRECTORY");
    SidecarEnvPrecedence(s, main, defaults, additional, "NAMESPACE");
    SidecarEnvPrecedence(s, main, defaults, additional, "CLUSTER_NAME");
    SidecarEnvPrecedence(s, main, defaults, additional, "SPOOL_DIRECTORY");
  }

  lemma DefaultValues(namespace: string, cluster: string)
    ensures
      var defaults := DefaultEnv(namespace, cluster);
      && Value(defaults, "NAMESPACE") == Some(namespace)
      && Value(defaults, "CLUSTER_NAME") == Some(cluster)
      && Value(defaults, "SPOOL_DIRECTORY") == Some("/controller/wal-restore-spool")
  {
    var defaults := DefaultEnv(namespace, cluster);
    var spool := EnvVar("SPOOL_DIRECTORY", "/controller/wal-restore-spool");
    assert defaults[1..] == [EnvVar("CLUSTER_NAME", cluster), spool];
    assert defaults[1..][1..] == [spool];
    assert Value([spool], "SPOOL_DIRECTORY") == Some(spool.value);
    assert Value(defaults[1..], "SPOOL_DIRECTORY") == Some(spool.value);
  }

  /** The environment is that of the first container with the main name, and the mounts are those of the last one. */
  lemma {:induction false} FirstAndLastMain(containers: seq<Container>, main: string, i: nat)
    requires i < |containers| && containers[i].name == main
    ensures (forall k :: 0 <= k < i ==> containers[k].name != main) ==> MainEnv(containers, main) == containers[i].env
    ensures (forall k :: i < k < |containers| ==> containers[k].name != main) ==>
      MainMounts(containers, main) == containers[i].volumeMounts
  {
    FirstMain(containers, main, i);
    LastMain(containers, main, i);
  }

  lemma {:induction false} FirstMain(containers: seq<Container>, main: string, i: nat)
    requires i < |containers| && containers[i].name == main
    ensures (forall k :: 0 <= k < i ==> containers[k].name != main) ==>
      FirstNamed(containers, main) == Some(containers[i])
  {
    if i > 0 && containers[0].name != main {
      FirstMain(containers[1..], main, i - 1);
      assert forall k :: 0 <= k < i - 1 ==> containers[1..][k] == containers[k + 1];
    }
  }

  lemma {:induction false} LastMain(containers: seq<Container>, main: string, i: nat)
    requires i < |containers| && containers[i].name == main
    ensures (forall k :: i < k < |containers| ==> containers[k].name != main) ==>
      LastNamed(containers, main) == Some(containers[i])
  {
    if i < |containers| - 1 && containers[|containers| - 1].name != main {
      LastMain(containers[..|containers| - 1], main, i);
    }
  }

  /** A pod with one main container gets this sidecar, if it has none yet. */
  lemma NewSidecar(
    s: Spec, main: string, i: nat, args: seq<string>, definition: string, defaults: seq<EnvVar>,
    additional: seq<EnvVar>)
    requires i < |s.containers| && s.containers[i].name == main
    requires forall k :: 0 <= k < |s.containers| && k != i ==> s.containers[k].name != main
    requires forall k :: 0 <= k < |s.initContainers| ==> s.initContainers[k].name != "plugin-pgbackrest"
    ensures
      var t := Reconciled(s, main, args, definition, defaults, additional);
      var isNew := forall k :: 0 <= k < |s.volumes| ==> s.volumes[k].name != "plugins";
      var mounts := s.containers[i].volumeMounts + if isNew then [VolumeMount("plugins", "/plugins")] else [];
      var env := FirstOccurrences(s.containers[i].env + defaults + additional);
      && t.containers[i].volumeMounts == mounts
      && t.initContainers ==
           s.initContainers + [Container("plugin-pgbackrest", args, env, mounts, true, definition)]
      && t.volumes == s.volumes + if isNew then [Volume("plugins", "")] else []
  {
    hide FirstOccurrences, FirstNamed, LastNamed;
    FirstMain(s.containers, main, i);
    var t := WithVolume(s, main);
    assert |t.containers| == |s.containers|;
    assert forall k :: 0 <= k < |t.containers| ==> t.containers[k].name == s.containers[k].name;
    LastMain(t.containers, main, i);
    assert MainMounts(t.containers, main) == t.containers[i].volumeMounts;
    assert [] + t.containers[i].volumeMounts == t.containers[i].volumeMounts;
    assert HasContainer(t.containers, main) && !HasContainer(t.initContainers, "plugin-pgbackrest");
    assert MainEnv(s.containers, main) == s.containers[i].env;
    assert s.containers[i].volumeMounts + [] == s.containers[i].volumeMounts && s.volumes + [] == s.volumes;
  }
}
